/**
  The export helpers of the backend: the coordinate mapping from a scene's virtual-canvas
  transform onto target pixels, the two textual filter-graph builders that serialise it for
  ffmpeg, and the concat manifest and its location used when the segments are merged.
 */
module Utils {
  import opened Wrappers
  import opened Text

  /** A crop rectangle, in source pixels, as the backend reads it from the request. */
  datatype CropRect = CropRect(x: int, y: int, width: int, height: int)

  datatype Point = Point(x: real, y: real)

  /** The backend's `scene.transform`: a scale factor and a virtual-canvas position. */
  datatype Transform = Transform(scale: real, position: Point)

  /** What one scene's filter chain does: crop, scale, paint on a black canvas, place. */
  datatype FilterGraph = FilterGraph(
    crop: CropRect,
    scaledWidth: int, scaledHeight: int,
    targetWidth: int, targetHeight: int,
    offsetX: int, offsetY: int)

  // ---------------------------------------------------------------------------------------
  // Coordinate mapping

  /** `Math.floor(pos / virtual * target)`: a virtual-canvas coordinate in target pixels. */
  function Offset(pos: real, virtual: int, target: int): (r: int)
    requires virtual != 0
    ensures r as real <= pos / virtual as real * target as real < r as real + 1.0
  {
    (pos / virtual as real * target as real).Floor
  }

  /** `Math.floor(size * scale)`: a crop dimension after scaling. */
  function ScaledSize(size: int, scale: real): (r: int)
    ensures r as real <= size as real * scale < r as real + 1.0
  {
    (size as real * scale).Floor
  }

  /** The graph both builders are meant to describe for one scene. */
  function Placement(crop: CropRect, t: Transform, targetWidth: int, targetHeight: int,
                     virtualWidth: int, virtualHeight: int): FilterGraph
    requires virtualWidth != 0 && virtualHeight != 0
  {
    FilterGraph(crop,
      ScaledSize(crop.width, t.scale), ScaledSize(crop.height, t.scale),
      targetWidth, targetHeight,
      Offset(t.position.x, virtualWidth, targetWidth),
      Offset(t.position.y, virtualHeight, targetHeight))
  }

  /** When the virtual canvas is the target frame, a whole-pixel position is kept as it is. */
  lemma OffsetIdentity(k: int, size: int)
    requires size > 0
    ensures Offset(k as real, size, size) == k
  {
    assert k as real / size as real * size as real == k as real;
  }

  /** A larger position never lands further left (or up). */
  lemma OffsetMonotone(p: real, q: real, virtual: int, target: int)
    requires virtual > 0 && target >= 0 && p <= q
    ensures Offset(p, virtual, target) <= Offset(q, virtual, target)
  {
    var v, t := virtual as real, target as real;
    assert p / v <= q / v;
    assert p / v * t <= q / v * t;
  }

  /** A position left of (above) the canvas floors to a negative offset, never to zero. */
  lemma NegativePositionNegativeOffset(p: real, virtual: int, target: int)
    requires virtual > 0 && target > 0 && p < 0.0
    ensures Offset(p, virtual, target) < 0
  {
    var v, t := virtual as real, target as real;
    assert p / v < 0.0;
    assert p / v * t < 0.0;
  }

  /** With scale 1 the scaled crop is exactly the crop. */
  lemma ScaleOneKeepsSize(crop: CropRect, position: Point, tw: int, th: int, vw: int, vh: int)
    requires vw != 0 && vh != 0
    ensures Placement(crop, Transform(1.0, position), tw, th, vw, vh).scaledWidth == crop.width
    ensures Placement(crop, Transform(1.0, position), tw, th, vw, vh).scaledHeight == crop.height
  {
  }

  /** Scenario: scale 2 on a 100x100 crop at the origin of a 1080x1920 frame. */
  lemma DoubleScaleAtOrigin()
    ensures Placement(CropRect(0, 0, 100, 100), Transform(2.0, Point(0.0, 0.0)), 1080, 1920, 1080, 1920)
         == FilterGraph(CropRect(0, 0, 100, 100), 200, 200, 1080, 1920, 0, 0)
  {
  }

  // ---------------------------------------------------------------------------------------
  // Integer argument lists such as `W:H:X:Y`

  function IntStrings(xs: seq<int>): (r: seq<string>)
    ensures |r| == |xs|
  {
    if xs == [] then [] else [IntToString(xs[0])] + IntStrings(xs[1..])
  }

  /** `${a}:${b}:...`, the colon-separated argument list of one filter. */
  function Args(xs: seq<int>): string {
    Join(IntStrings(xs), ':')
  }

  function ParseInts(parts: seq<string>): Option<seq<int>> {
    if parts == [] then Some([])
    else match (ParseInt(parts[0]), ParseInts(parts[1..]))
      case (Some(i), Some(rest)) => Some([i] + rest)
      case _ => None
  }

  function ParseArgs(s: string): Option<seq<int>> {
    ParseInts(Split(s, ':'))
  }

  predicate ArgChars(s: string) {
    forall k :: 0 <= k < |s| ==> IsDigit(s[k]) || s[k] == '-' || s[k] == ':'
  }

  lemma {:induction false} ParseIntsRoundTrip(xs: seq<int>)
    ensures ParseInts(IntStrings(xs)).Some?
    ensures ParseInts(IntStrings(xs)).value == xs
    decreases |xs|
  {
    if xs != [] {
      IntRoundTrip(xs[0]);
      ParseIntsRoundTrip(xs[1..]);
      assert IntStrings(xs)[1..] == IntStrings(xs[1..]);
      assert [xs[0]] + xs[1..] == xs;
    }
  }

  lemma IntStringsNoColon(xs: seq<int>)
    ensures NoSep(IntStrings(xs), ':')
  {
    forall k | 0 <= k < |xs| ensures ':' !in IntStrings(xs)[k] {
      IntStringsAt(xs, k);
      IntStringHasNo(xs[k], ':');
    }
  }

  lemma {:induction false} IntStringsAt(xs: seq<int>, k: nat)
    requires k < |xs|
    ensures IntStrings(xs)[k] == IntToString(xs[k])
    decreases |xs|
  {
    if k > 0 {
      IntStringsAt(xs[1..], k - 1);
    }
  }

  /** An argument list reads back as the integers it was rendered from. */
  lemma ArgsRoundTrip(xs: seq<int>)
    requires |xs| >= 1
    ensures ParseArgs(Args(xs)).Some?
    ensures ParseArgs(Args(xs)).value == xs
  {
    IntStringsNoColon(xs);
    SplitJoin(IntStrings(xs), ':');
    ParseIntsRoundTrip(xs);
  }

  lemma {:induction false} ArgsChars(xs: seq<int>)
    ensures ArgChars(Args(xs))
    decreases |xs|
  {
    if |xs| >= 2 {
      ArgsChars(xs[1..]);
      assert IntStrings(xs)[1..] == IntStrings(xs[1..]);
      assert Args(xs) == IntToString(xs[0]) + ":" + Args(xs[1..]);
    }
  }

  lemma ArgsHasNo(xs: seq<int>, c: char)
    requires !IsDigit(c) && c != '-' && c != ':'
    ensures c !in Args(xs)
  {
    ArgsChars(xs);
  }

  // ---------------------------------------------------------------------------------------
  // The two builders

  /** `getFilters`: a crop, a scale and a black pad to the target size at the offset. */
  function GetFilters(crop: CropRect, t: Transform, targetWidth: int, targetHeight: int,
                      virtualWidth: int, virtualHeight: int): (r: seq<string>)
    requires virtualWidth != 0 && virtualHeight != 0
    ensures |r| == 3
    ensures DecodeFilters(r).Some?
    ensures DecodeFilters(r).value == Placement(crop, t, targetWidth, targetHeight, virtualWidth, virtualHeight)
  {
    var g := Placement(crop, t, targetWidth, targetHeight, virtualWidth, virtualHeight);
    var r := [
      "crop=" + Args([crop.width, crop.height, crop.x, crop.y]),
      "scale=" + Args([g.scaledWidth, g.scaledHeight]),
      "pad=" + Args([targetWidth, targetHeight, g.offsetX, g.offsetY]) + ":black"
    ];
    FiltersRoundTrip(g);
    r
  }

  /** `getComplexFilter`: crop and scale into `[scaled]`, a black `[bg]` of the target size,
      and the overlay of one on the other at the offset into `[out]`. */
  function GetComplexFilter(crop: CropRect, t: Transform, targetWidth: int, targetHeight: int,
                            virtualWidth: int, virtualHeight: int): (r: seq<string>)
    requires virtualWidth != 0 && virtualHeight != 0
    ensures |r| == 3
    ensures DecodeComplexFilter(r).Some?
    ensures DecodeComplexFilter(r).value == Placement(crop, t, targetWidth, targetHeight, virtualWidth, virtualHeight)
  {
    var g := Placement(crop, t, targetWidth, targetHeight, virtualWidth, virtualHeight);
    var r := [
      "[0:v]crop=" + Args([crop.width, crop.height, crop.x, crop.y])
        + ",scale=" + Args([g.scaledWidth, g.scaledHeight]) + "[scaled]",
      "color=black:size=" + IntToString(targetWidth) + "x" + IntToString(targetHeight) + "[bg]",
      "[bg][scaled]overlay=" + Args([g.offsetX, g.offsetY]) + ":shortest=1[out]"
    ];
    ComplexFilterRoundTrip(g);
    r
  }

  // ---------------------------------------------------------------------------------------
  // Reading the filter strings back

  function DecodeFilters(fs: seq<string>): Option<FilterGraph> {
    if |fs| != 3 then None
    else
      var c := StripAffix(fs[0], "crop=", "");
      var s := StripAffix(fs[1], "scale=", "");
      var p := StripAffix(fs[2], "pad=", ":black");
      if c.None? || s.None? || p.None? then None
      else
        var ca, sa, pa := ParseArgs(c.value), ParseArgs(s.value), ParseArgs(p.value);
        if ca.None? || sa.None? || pa.None? then None
        else if |ca.value| != 4 || |sa.value| != 2 || |pa.value| != 4 then None
        else
          var cv, sv, pv := ca.value, sa.value, pa.value;
          Some(FilterGraph(CropRect(cv[2], cv[3], cv[0], cv[1]), sv[0], sv[1], pv[0], pv[1], pv[2], pv[3]))
  }

  function DecodeCropScale(s: string): Option<(CropRect, int, int)> {
    var m := StripAffix(s, "[0:v]crop=", "[scaled]");
    if m.None? then None
    else
      var links := Split(m.value, ',');
      if |links| != 2 then None
      else
        var sc := StripAffix(links[1], "scale=", "");
        if sc.None? then None
        else
          var ca, sa := ParseArgs(links[0]), ParseArgs(sc.value);
          if ca.None? || sa.None? || |ca.value| != 4 || |sa.value| != 2 then None
          else
            var cv, sv := ca.value, sa.value;
            Some((CropRect(cv[2], cv[3], cv[0], cv[1]), sv[0], sv[1]))
  }

  function DecodeSize(s: string): Option<(int, int)> {
    var m := StripAffix(s, "color=black:size=", "[bg]");
    if m.None? then None
    else
      var dims := Split(m.value, 'x');
      if |dims| != 2 then None
      else
        var w, h := ParseInt(dims[0]), ParseInt(dims[1]);
        if w.None? || h.None? then None else Some((w.value, h.value))
  }

  function DecodeOverlay(s: string): Option<(int, int)> {
    var m := StripAffix(s, "[bg][scaled]overlay=", ":shortest=1[out]");
    if m.None? then None
    else
      var a := ParseArgs(m.value);
      if a.None? || |a.value| != 2 then None else Some((a.value[0], a.value[1]))
  }

  function DecodeComplexFilter(fs: seq<string>): Option<FilterGraph> {
    if |fs| != 3 then None
    else
      var cs, sz, ov := DecodeCropScale(fs[0]), DecodeSize(fs[1]), DecodeOverlay(fs[2]);
      if cs.None? || sz.None? || ov.None? then None
      else
        Some(FilterGraph(cs.value.0, cs.value.1, cs.value.2, sz.value.0, sz.value.1, ov.value.0, ov.value.1))
  }

  lemma FiltersRoundTrip(g: FilterGraph)
    ensures var d := DecodeFilters([
      "crop=" + Args([g.crop.width, g.crop.height, g.crop.x, g.crop.y]),
      "scale=" + Args([g.scaledWidth, g.scaledHeight]),
      "pad=" + Args([g.targetWidth, g.targetHeight, g.offsetX, g.offsetY]) + ":black"
    ]);
      d.Some? && d.value == g
  {
    var c4 := [g.crop.width, g.crop.height, g.crop.x, g.crop.y];
    var s2 := [g.scaledWidth, g.scaledHeight];
    var p4 := [g.targetWidth, g.targetHeight, g.offsetX, g.offsetY];
    StripAffixOf("crop=", Args(c4), "");
    assert "crop=" + Args(c4) + "" == "crop=" + Args(c4);
    StripAffixOf("scale=", Args(s2), "");
    assert "scale=" + Args(s2) + "" == "scale=" + Args(s2);
    StripAffixOf("pad=", Args(p4), ":black");
    ArgsRoundTrip(c4);
    ArgsRoundTrip(s2);
    ArgsRoundTrip(p4);
  }

  /** The crop-and-scale link around any two comma-free argument lists. */
  lemma CropScaleParts(a: string, b: string)
    requires ',' !in a && ',' !in b
    ensures var m := StripAffix("[0:v]crop=" + a + ",scale=" + b + "[scaled]", "[0:v]crop=", "[scaled]");
      && m.Some? && Split(m.value, ',') == [a, "scale=" + b]
      && StripAffix("scale=" + b, "scale=", "").Some?
      && StripAffix("scale=" + b, "scale=", "").value == b
  {
    var scale := "scale=" + b;
    var chain := a + [','] + scale;
    assert "[0:v]crop=" + a + ",scale=" + b + "[scaled]" == "[0:v]crop=" + chain + "[scaled]";
    StripAffixOf("[0:v]crop=", chain, "[scaled]");
    assert ',' !in scale;
    SplitPair(a, ',', scale);
    StripAffixOf("scale=", b, "");
    assert "scale=" + b + "" == scale;
  }

  lemma CropScaleRoundTrip(crop: CropRect, sw: int, sh: int)
    ensures var d := DecodeCropScale("[0:v]crop=" + Args([crop.width, crop.height, crop.x, crop.y])
        + ",scale=" + Args([sw, sh]) + "[scaled]");
      d.Some? && d.value == (crop, sw, sh)
  {
    var c4 := [crop.width, crop.height, crop.x, crop.y];
    var s2 := [sw, sh];
    ArgsHasNo(c4, ',');
    ArgsHasNo(s2, ',');
    CropScaleParts(Args(c4), Args(s2));
    ArgsRoundTrip(c4);
    ArgsRoundTrip(s2);
  }

  lemma SizeParts(a: string, b: string)
    requires 'x' !in a && 'x' !in b
    ensures var m := StripAffix("color=black:size=" + a + "x" + b + "[bg]", "color=black:size=", "[bg]");
      m.Some? && Split(m.value, 'x') == [a, b]
  {
    assert "color=black:size=" + a + "x" + b + "[bg]" == "color=black:size=" + (a + ['x'] + b) + "[bg]";
    StripAffixOf("color=black:size=", a + ['x'] + b, "[bg]");
    SplitPair(a, 'x', b);
  }

  lemma SizeRoundTrip(w: int, h: int)
    ensures var d := DecodeSize("color=black:size=" + IntToString(w) + "x" + IntToString(h) + "[bg]");
      d.Some? && d.value == (w, h)
  {
    IntStringHasNo(w, 'x');
    IntStringHasNo(h, 'x');
    SizeParts(IntToString(w), IntToString(h));
    IntRoundTrip(w);
    IntRoundTrip(h);
  }

  lemma OverlayRoundTrip(x: int, y: int)
    ensures DecodeOverlay("[bg][scaled]overlay=" + Args([x, y]) + ":shortest=1[out]").Some?
    ensures DecodeOverlay("[bg][scaled]overlay=" + Args([x, y]) + ":shortest=1[out]").value == (x, y)
  {
    StripAffixOf("[bg][scaled]overlay=", Args([x, y]), ":shortest=1[out]");
    ArgsRoundTrip([x, y]);
  }

  lemma ComplexFilterRoundTrip(g: FilterGraph)
    ensures var d := DecodeComplexFilter([
      "[0:v]crop=" + Args([g.crop.width, g.crop.height, g.crop.x, g.crop.y])
        + ",scale=" + Args([g.scaledWidth, g.scaledHeight]) + "[scaled]",
      "color=black:size=" + IntToString(g.targetWidth) + "x" + IntToString(g.targetHeight) + "[bg]",
      "[bg][scaled]overlay=" + Args([g.offsetX, g.offsetY]) + ":shortest=1[out]"
    ]);
      d.Some? && d.value == g
  {
    CropScaleRoundTrip(g.crop, g.scaledWidth, g.scaledHeight);
    SizeRoundTrip(g.targetWidth, g.targetHeight);
    OverlayRoundTrip(g.offsetX, g.offsetY);
  }

  /** Both builders, given the same scene and resolutions, carry the same geometry. */
  lemma BuildersAgree(crop: CropRect, t: Transform, tw: int, th: int, vw: int, vh: int)
    requires vw != 0 && vh != 0
    ensures DecodeFilters(GetFilters(crop, t, tw, th, vw, vh))
         == DecodeComplexFilter(GetComplexFilter(crop, t, tw, th, vw, vh))
  {
  }

  // ---------------------------------------------------------------------------------------
  // The concat manifest of `mergeScenes`

  function ManifestLine(path: string): string {
    "file '" + path + "'"
  }

  function ManifestLines(paths: seq<string>): (r: seq<string>)
    ensures |r| == |paths|
  {
    if paths == [] then [] else [ManifestLine(paths[0])] + ManifestLines(paths[1..])
  }

  /** One `file '<path>'` line per segment, in order, joined by newlines; paths are not escaped. */
  function ManifestContent(paths: seq<string>): (r: string)
    ensures paths == [] <==> r == ""
    ensures r != "" ==> r[|r| - 1] == '\''
  {
    ManifestEnds(paths);
    Join(ManifestLines(paths), '\n')
  }

  lemma {:induction false} ManifestEnds(paths: seq<string>)
    ensures var r := Join(ManifestLines(paths), '\n');
      (paths == [] <==> r == "") && (r != "" ==> r[|r| - 1] == '\'')
    decreases |paths|
  {
    if |paths| >= 2 {
      ManifestEnds(paths[1..]);
      assert ManifestLines(paths)[1..] == ManifestLines(paths[1..]);
    }
  }

  function DecodeLines(lines: seq<string>): Option<seq<string>> {
    if lines == [] then Some([])
    else
      var p := StripAffix(lines[0], "file '", "'");
      var rest := DecodeLines(lines[1..]);
      if p.None? || rest.None? then None else Some([p.value] + rest.value)
  }

  function DecodeManifest(content: string): Option<seq<string>> {
    if content == "" then Some([]) else DecodeLines(Split(content, '\n'))
  }

  predicate NoNewlines(paths: seq<string>) {
    forall k :: 0 <= k < |paths| ==> '\n' !in paths[k]
  }

  lemma {:induction false} DecodeLinesRoundTrip(paths: seq<string>)
    ensures DecodeLines(ManifestLines(paths)).Some?
    ensures DecodeLines(ManifestLines(paths)).value == paths
    decreases |paths|
  {
    if paths != [] {
      StripAffixOf("file '", paths[0], "'");
      DecodeLinesRoundTrip(paths[1..]);
      assert ManifestLines(paths)[1..] == ManifestLines(paths[1..]);
      assert [paths[0]] + paths[1..] == paths;
    }
  }

  lemma {:induction false} ManifestLinesNoNewline(paths: seq<string>)
    requires NoNewlines(paths)
    ensures NoSep(ManifestLines(paths), '\n')
    decreases |paths|
  {
    if paths != [] {
      ManifestLinesNoNewline(paths[1..]);
      assert ManifestLines(paths)[1..] == ManifestLines(paths[1..]);
      assert '\n' !in ManifestLine(paths[0]);
    }
  }

  /** The manifest lists exactly the given paths, in the given order, when no path holds a
      newline. */
  lemma ManifestRoundTrip(paths: seq<string>)
    requires NoNewlines(paths)
    ensures DecodeManifest(ManifestContent(paths)).Some?
    ensures DecodeManifest(ManifestContent(paths)).value == paths
  {
    if paths != [] {
      ManifestLinesNoNewline(paths);
      SplitJoin(ManifestLines(paths), '\n');
      DecodeLinesRoundTrip(paths);
    }
  }

  /** Without escaping, a path holding a quote and a newline reads as two entries. */
  lemma ManifestUnescaped()
    ensures ManifestContent(["a'\nfile 'b"]) == ManifestContent(["a", "b"])
  {
    ManifestOfOne("a'\nfile 'b");
    ManifestOfTwo("a", "b");
    LiteralLines();
  }

  lemma ManifestOfOne(a: string)
    ensures ManifestContent([a]) == ManifestLine(a)
  {
    assert ManifestLines([a]) == [ManifestLine(a)] by {
      assert [a][1..] == [];
    }
  }

  lemma ManifestOfTwo(a: string, b: string)
    ensures ManifestContent([a, b]) == ManifestLine(a) + "\n" + ManifestLine(b)
  {
    assert ManifestLines([a, b]) == [ManifestLine(a), ManifestLine(b)] by {
      assert [a, b][1..] == [b];
      assert [b][1..] == [];
    }
    var ls := ManifestLines([a, b]);
    assert ls[1..] == [ManifestLine(b)];
    assert Join(ls, '\n') == ManifestLine(a) + ['\n'] + Join([ManifestLine(b)], '\n');
  }

  lemma LiteralLines()
    ensures ManifestLine("a'\nfile 'b") == ManifestLine("a") + "\n" + ManifestLine("b")
  {
  }

  /** Index one past the last '/' of a path, 0 when there is none. */
  function DirEnd(p: string): (k: nat)
    ensures k <= |p|
    ensures k > 0 ==> p[k - 1] == '/'
    ensures '/' !in p[k..]
  {
    if p == [] then 0
    else if p[|p| - 1] == '/' then |p|
    else
      var k := DirEnd(p[..|p| - 1]);
      assert p[k..] == p[..|p| - 1][k..] + [p[|p| - 1]];
      k
  }

  /** `path.join(path.dirname(outputPath), 'file_list.txt')` for a normalised path. */
  function ManifestPath(outputPath: string): (r: string)
    ensures exists base :: '/' !in base && outputPath == outputPath[..DirEnd(outputPath)] + base
    ensures r == outputPath[..DirEnd(outputPath)] + "file_list.txt"
  {
    var k := DirEnd(outputPath);
    assert outputPath == outputPath[..k] + outputPath[k..];
    outputPath[..k] + "file_list.txt"
  }

  /** What `ffmpeg().input(list).inputOptions(...).outputOptions(...).output(out)` runs. */
  datatype ConcatCall = ConcatCall(
    input: string, inputOptions: seq<string>, outputOptions: seq<string>, output: string)

  datatype MergeRun = MergeRun(
    listPath: string,
    listContent: string,
    call: ConcatCall,
    result: Result<string, string>,
    listLeftBehind: bool)

  const MergeFailed := "ffmpeg concat failed"

  /** `mergeScenes`: writes the manifest beside the output, runs the stream-copy concat and
      deletes the manifest only when the concat ends well. The concat's own outcome is
      `concat`, a parameter standing for the external process. */
  function MergeScenes(files: seq<string>, outputPath: string, concat: ConcatCall -> bool): (r: MergeRun)
    ensures r.listPath == ManifestPath(outputPath)
    ensures NoNewlines(files) ==> DecodeManifest(r.listContent).Some?
    ensures NoNewlines(files) ==> DecodeManifest(r.listContent).value == files
    ensures r.call.input == r.listPath && r.call.output == outputPath
    ensures r.result.Ok? <==> concat(r.call)
    ensures r.result.Ok? ==> r.result.value == outputPath
    ensures r.listLeftBehind <==> r.result.Err?
  {
    var listPath := ManifestPath(outputPath);
    var call := ConcatCall(listPath, ["-f", "concat", "-safe", "0"], ["-c", "copy"], outputPath);
    assert NoNewlines(files) ==>
      (DecodeManifest(ManifestContent(files)).Some? && DecodeManifest(ManifestContent(files)).value == files) by {
      if NoNewlines(files) { ManifestRoundTrip(files); }
    }
    if concat(call) then MergeRun(listPath, ManifestContent(files), call, Ok(outputPath), false)
    else MergeRun(listPath, ManifestContent(files), call, Err(MergeFailed), true)
  }
}
