/**
  The `/export` handler of the backend: request validation, resolution parsing with the default
  virtual canvas, one transcode per scene written to `processed/scene_<i+1>.mp4`, and the merge
  of the segments, in request order, into `processed/final_video.mp4` only when every scene
  succeeded. The transcoder and the concat run are external processes: their outcomes are the
  parameters `transcode` and `concat`.
 */
module Server {
  import opened Wrappers
  import opened Text
  import opened Utils

  /** A scene as the backend destructures it: `{ start, end, crop, transform }`. A missing
      `crop` or `transform` is `None`. */
  datatype Scene = Scene(start: real, end: real, crop: Option<CropRect>, transform: Option<Transform>)

  /** The `scenes` member of the request body. */
  datatype ScenesField = Missing | NotAnArray | Array(items: seq<Scene>)

  datatype ExportRequest = ExportRequest(
    videoPath: Option<string>,
    scenes: ScenesField,
    targetAspectRatio: Option<string>,
    targetResolution: Option<string>,
    virtualResolution: Option<string>)

  /** A JSON response body. `details` is the message of the error behind a 500; the 400 has none. */
  datatype Body = Complete(message: string, file: string) | Failure(error: string, details: Option<string>)

  datatype Response = Response(status: int, body: Body)

  /** One ffmpeg invocation for one scene: input, filter graph, mapped output node,
      start time, duration and output file. */
  datatype TranscodeJob = TranscodeJob(
    input: string, filter: seq<string>, outputNode: string,
    startTime: real, duration: real, output: string)

  /** Everything one export does that can be observed: the response, whether the output
      directory was ensured, the transcodes spawned in order, and the merge if one ran. */
  datatype ExportRun = ExportRun(
    response: Response, outputDirEnsured: bool, jobs: seq<TranscodeJob>, merge: Option<MergeRun>)

  const InvalidRequest := "Invalid request. Missing required parameters."
  const ScenesFailed := "Failed to process scenes"
  const ProcessVideoFailed := "Failed to process video"
  const MergeFailedError := "Failed to merge videos"
  const ExportComplete := "Video export complete"
  const DefaultVirtualResolution := "1080x1920"
  const FinalOutputPath := "processed/final_video.mp4"
  const MissingField := "TypeError: scene is missing crop or transform"

  // ---------------------------------------------------------------------------------------
  // Validation and resolutions

  /** A JavaScript string is falsy when absent or empty. */
  predicate Truthy(f: Option<string>) {
    f.Some? && f.value != ""
  }

  /** The handler's guard; `virtualResolution` is not required and an empty array passes. */
  predicate ValidRequest(req: ExportRequest) {
    Truthy(req.videoPath) && req.scenes.Array? && Truthy(req.targetAspectRatio)
      && Truthy(req.targetResolution)
  }

  /** `Number(s)` on strings of decimal digits, the empty string being 0. */
  function NumberOf(s: string): Option<nat> {
    if AllDigits(s) then Some(DigitsValue(s)) else None
  }

  /** `s.split('x').map(Number)` destructured into its first two entries. */
  function ParseResolution(s: string): (r: Option<(nat, nat)>)
    ensures r.Some? ==> |Split(s, 'x')| >= 2
  {
    var parts := Split(s, 'x');
    if |parts| < 2 then None
    else
      var w, h := NumberOf(parts[0]), NumberOf(parts[1]);
      if w.None? || h.None? then None else Some((w.value, h.value))
  }

  /** `virtualResolution || '1080x1920'`. */
  function VirtualResolutionText(req: ExportRequest): (s: string)
    ensures !Truthy(req.virtualResolution) ==> s == DefaultVirtualResolution
    ensures Truthy(req.virtualResolution) ==> s == req.virtualResolution.value
  {
    if Truthy(req.virtualResolution) then req.virtualResolution.value else DefaultVirtualResolution
  }

  datatype Resolutions = Resolutions(targetWidth: nat, targetHeight: nat, virtualWidth: nat, virtualHeight: nat)

  /** Both resolutions, when they parse and the virtual one has no zero side. */
  function ResolutionsOf(req: ExportRequest): (r: Option<Resolutions>)
    requires ValidRequest(req)
    ensures r.Some? ==> r.value.virtualWidth != 0 && r.value.virtualHeight != 0
  {
    var t := ParseResolution(req.targetResolution.value);
    var v := ParseResolution(VirtualResolutionText(req));
    if t.None? || v.None? || v.value.0 == 0 || v.value.1 == 0 then None
    else Some(Resolutions(t.value.0, t.value.1, v.value.0, v.value.1))
  }

  predicate Usable(req: ExportRequest) {
    ValidRequest(req) ==> ResolutionsOf(req).Some?
  }

  lemma ParseResolutionRoundTrip(w: nat, h: nat)
    ensures ParseResolution(NatToString(w) + "x" + NatToString(h)).Some?
    ensures ParseResolution(NatToString(w) + "x" + NatToString(h)).value == (w, h)
  {
    var a, b := NatToString(w), NatToString(h);
    assert a + "x" + b == a + ['x'] + b;
    NatStringHasNo(w, 'x');
    NatStringHasNo(h, 'x');
    SplitFirst(a, 'x', b);
    SplitNoSep(b, 'x');
    DigitsOfNat(w);
    DigitsOfNat(h);
  }

  /** Entries after the second are ignored. */
  lemma ParseResolutionIgnoresRest(w: nat, h: nat, rest: string)
    ensures ParseResolution(NatToString(w) + "x" + NatToString(h) + "x" + rest).Some?
    ensures ParseResolution(NatToString(w) + "x" + NatToString(h) + "x" + rest).value == (w, h)
  {
    var a, b := NatToString(w), NatToString(h);
    assert a + "x" + b + "x" + rest == a + ['x'] + (b + ['x'] + rest);
    NatStringHasNo(w, 'x');
    NatStringHasNo(h, 'x');
    SplitFirst(a, 'x', b + ['x'] + rest);
    SplitFirst(b, 'x', rest);
    DigitsOfNat(w);
    DigitsOfNat(h);
  }

  /** Without a virtual resolution the canvas is 1080 wide and 1920 high. */
  lemma DefaultVirtualCanvas(req: ExportRequest)
    requires !Truthy(req.virtualResolution)
    ensures ParseResolution(VirtualResolutionText(req)).Some?
    ensures ParseResolution(VirtualResolutionText(req)).value == (1080, 1920)
  {
    Renders1080();
    Renders1920();
    assert DefaultVirtualResolution == NatToString(1080) + "x" + NatToString(1920);
    ParseResolutionRoundTrip(1080, 1920);
  }

  lemma Renders1080()
    ensures NatToString(1080) == "1080"
  {
    assert NatToString(1) == "1";
    assert NatToString(10) == NatToString(1) + "0";
    assert NatToString(108) == NatToString(10) + "8";
    assert NatToString(1080) == NatToString(108) + "0";
  }

  lemma Renders1920()
    ensures NatToString(1920) == "1920"
  {
    assert NatToString(1) == "1";
    assert NatToString(19) == NatToString(1) + "9";
    assert NatToString(192) == NatToString(19) + "2";
    assert NatToString(1920) == NatToString(192) + "0";
  }

  // ---------------------------------------------------------------------------------------
  // Per-scene work

  /** `processed/scene_${index + 1}.mp4`. */
  function SegmentPath(index: nat): string {
    "processed/scene_" + NatToString(index + 1) + ".mp4"
  }

  function SegmentPaths(n: nat): (r: seq<string>)
    ensures |r| == n
    ensures forall i :: 0 <= i < n ==> r[i] == SegmentPath(i)
  {
    seq(n, i requires 0 <= i => SegmentPath(i))
  }

  /** Distinct scenes write distinct segment files. */
  lemma SegmentPathInjective(i: nat, j: nat)
    ensures SegmentPath(i) == SegmentPath(j) ==> i == j
  {
    if SegmentPath(i) == SegmentPath(j) {
      StripAffixOf("processed/scene_", NatToString(i + 1), ".mp4");
      StripAffixOf("processed/scene_", NatToString(j + 1), ".mp4");
      NatToStringInjective(i + 1, j + 1);
    }
  }

  /** No segment overwrites the final video. */
  lemma SegmentIsNotFinal(i: nat)
    ensures SegmentPath(i) != FinalOutputPath
  {
    assert SegmentPath(i)[10] == 's';
    assert FinalOutputPath[10] == 'f';
  }

  lemma {:induction false} DirEndAfterSlash(a: string, b: string)
    requires |a| >= 1 && a[|a| - 1] == '/' && '/' !in b
    ensures DirEnd(a + b) == |a|
    decreases |b|
  {
    if b == [] {
      assert a + b == a;
    } else {
      var s := a + b;
      assert s[..|s| - 1] == a + b[..|b| - 1];
      DirEndAfterSlash(a, b[..|b| - 1]);
    }
  }

  /** The manifest of an output file in directory `dir` is `file_list.txt` in that directory. */
  lemma ManifestPathIn(dir: string, base: string)
    requires |dir| >= 1 && dir[|dir| - 1] == '/' && '/' !in base
    ensures ManifestPath(dir + base) == dir + "file_list.txt"
  {
    DirEndAfterSlash(dir, base);
    assert (dir + base)[..|dir|] == dir;
  }

  /** The merge manifest of an export is `processed/file_list.txt`. */
  lemma FinalManifestPath()
    ensures ManifestPath(FinalOutputPath) == "processed/file_list.txt"
  {
    FinalOutputPathParts();
    ManifestPathIn("processed/", "final_video.mp4");
    ManifestName();
  }

  lemma FinalOutputPathParts()
    ensures FinalOutputPath == "processed/" + "final_video.mp4" && '/' !in "final_video.mp4"
  {
  }

  lemma ManifestName()
    ensures "processed/" + "file_list.txt" == "processed/file_list.txt"
  {
  }

  lemma SegmentPathsNoNewlines(n: nat)
    ensures NoNewlines(SegmentPaths(n))
  {
    forall i | 0 <= i < n ensures '\n' !in SegmentPaths(n)[i] {
      NatStringHasNo(i + 1, '\n');
    }
  }

  /** `processScene(scene, index)` up to spawning ffmpeg: the job it would run, or the error
      thrown while building its filter. */
  function ProcessScene(videoPath: string, scene: Scene, index: nat, res: Resolutions): (r: Result<TranscodeJob, string>)
    requires res.virtualWidth != 0 && res.virtualHeight != 0
    ensures r.Ok? <==> scene.crop.Some? && scene.transform.Some?
    ensures r.Ok? ==> r.value.input == videoPath && r.value.output == SegmentPath(index)
    ensures r.Ok? ==> r.value.startTime == scene.start && r.value.duration == scene.end - scene.start
    ensures r.Ok? ==> r.value.outputNode == "[out]"
    ensures r.Ok? ==> DecodeComplexFilter(r.value.filter).Some?
    ensures r.Ok? ==> DecodeComplexFilter(r.value.filter).value == (Placement(scene.crop.value,
      scene.transform.value, res.targetWidth, res.targetHeight, res.virtualWidth, res.virtualHeight))
  {
    if scene.crop.None? || scene.transform.None? then Err(MissingField)
    else
      var filter := GetComplexFilter(scene.crop.value, scene.transform.value,
        res.targetWidth, res.targetHeight, res.virtualWidth, res.virtualHeight);
      Ok(TranscodeJob(videoPath, filter, "[out]", scene.start, scene.end - scene.start, SegmentPath(index)))
  }

  /** The jobs that reach ffmpeg, in scene order. */
  function Spawned(d: seq<Result<TranscodeJob, string>>): seq<TranscodeJob> {
    if d == [] then []
    else Spawned(d[..|d| - 1]) + (if d[|d| - 1].Ok? then [d[|d| - 1].value] else [])
  }

  /** Scene `i`'s promise resolves: its filter was built and its transcode ended well. */
  predicate Succeeds(r: Result<TranscodeJob, string>, transcode: TranscodeJob -> bool) {
    r.Ok? && transcode(r.value)
  }

  function Dispatch(videoPath: string, scenes: seq<Scene>, res: Resolutions): (d: seq<Result<TranscodeJob, string>>)
    requires res.virtualWidth != 0 && res.virtualHeight != 0
    ensures |d| == |scenes|
    ensures forall i :: 0 <= i < |scenes| ==> d[i] == ProcessScene(videoPath, scenes[i], i, res)
  {
    seq(|scenes|, i requires 0 <= i < |scenes| => ProcessScene(videoPath, scenes[i], i, res))
  }

  // ---------------------------------------------------------------------------------------
  // The handler

  lemma SpawnedSnoc(d: seq<Result<TranscodeJob, string>>, i: nat)
    requires i < |d|
    ensures Spawned(d[..i + 1]) == Spawned(d[..i]) + (if d[i].Ok? then [d[i].value] else [])
  {
    assert d[..i + 1][..i] == d[..i];
  }

  lemma SegmentPathsSnoc(i: nat)
    ensures SegmentPaths(i + 1) == SegmentPaths(i) + [SegmentPath(i)]
  {
    var a, b := SegmentPaths(i + 1), SegmentPaths(i) + [SegmentPath(i)];
    assert |a| == |b|;
    forall k | 0 <= k < |a| ensures a[k] == b[k] {
    }
  }

  lemma AllUpTo(d: seq<Result<TranscodeJob, string>>, transcode: TranscodeJob -> bool, i: nat, before: bool)
    requires i < |d|
    requires before <==> forall k :: 0 <= k < i ==> Succeeds(d[k], transcode)
    ensures (before && Succeeds(d[i], transcode)) <==> forall k :: 0 <= k < i + 1 ==> Succeeds(d[k], transcode)
  {
  }

  /** `Promise.all(scenes.map(processScene))`: every scene is dispatched, then the outcomes are
      gathered in scene order into the jobs reaching ffmpeg, the resolved output paths
      (meaningful when all succeeded) and whether every promise resolved. */
  method RunScenes(videoPath: string, scenes: seq<Scene>, res: Resolutions, transcode: TranscodeJob -> bool)
    returns (jobs: seq<TranscodeJob>, processed: seq<string>, allOk: bool)
    requires res.virtualWidth != 0 && res.virtualHeight != 0
    ensures jobs == Spawned(Dispatch(videoPath, scenes, res))
    ensures allOk <==> forall k :: 0 <= k < |scenes| ==> Succeeds(Dispatch(videoPath, scenes, res)[k], transcode)
    ensures allOk ==> processed == SegmentPaths(|scenes|)
  {
    var d := Dispatch(videoPath, scenes, res);
    jobs, processed, allOk := [], [], true;
    var i := 0;
    while i < |scenes|
      invariant 0 <= i <= |scenes|
      invariant jobs == Spawned(d[..i])
      invariant allOk <==> forall k :: 0 <= k < i ==> Succeeds(d[k], transcode)
      invariant allOk ==> processed == SegmentPaths(i)
    {
      var r := d[i];
      SpawnedSnoc(d, i);
      SegmentPathsSnoc(i);
      var ok := r.Ok? && transcode(r.value);
      assert ok == Succeeds(d[i], transcode);
      if r.Ok? {
        jobs := jobs + [r.value];
      }
      if ok {
        processed := processed + [r.value.output];
      }
      AllUpTo(d, transcode, i, allOk);
      allOk := allOk && ok;
      i := i + 1;
    }
    assert d[..|scenes|] == d;
  }

  /** The export handler. Every scene's job is
      dispatched (a failing scene does not stop the others); the merge runs only when all
      succeeded, on the segment paths in request order. The outcomes of the external steps are
      parameters: `dirError` is the error thrown by `existsSync`/`mkdirSync`, if any, which the
      outer `catch` answers; `rejection` is the message of the scene rejection `Promise.all`
      reports; `mergeError` is the message ffmpeg gives when the concat fails. */
  method Export(req: ExportRequest, transcode: TranscodeJob -> bool, concat: ConcatCall -> bool,
                dirError: Option<string>, rejection: string, mergeError: string)
    returns (run: ExportRun)
    requires Usable(req)
    ensures !ValidRequest(req) ==>
      run == ExportRun(Response(400, Failure(InvalidRequest, None)), false, [], None)
    ensures ValidRequest(req) && dirError.Some? ==>
      run == ExportRun(Response(500, Failure(ProcessVideoFailed, dirError)), false, [], None)
    ensures ValidRequest(req) && dirError.None? ==> run.outputDirEnsured
    ensures ValidRequest(req) && dirError.None? ==>
      var d := Dispatch(req.videoPath.value, req.scenes.items, ResolutionsOf(req).value);
      && run.jobs == Spawned(d)
      && (run.merge.Some? <==> forall i :: 0 <= i < |d| ==> Succeeds(d[i], transcode))
      && (run.merge.None? ==> run.response == Response(500, Failure(ScenesFailed, Some(rejection))))
    ensures run.merge.Some? ==> (ValidRequest(req) && dirError.None?
      && run.merge.value == MergeScenes(SegmentPaths(|req.scenes.items|), FinalOutputPath, concat)
      && DecodeManifest(run.merge.value.listContent).Some?
      && DecodeManifest(run.merge.value.listContent).value == SegmentPaths(|req.scenes.items|)
      && run.response == (if run.merge.value.result.Ok?
                          then Response(200, Complete(ExportComplete, FinalOutputPath))
                          else Response(500, Failure(MergeFailedError, Some(mergeError)))))
  {
    if !ValidRequest(req) {
      return ExportRun(Response(400, Failure(InvalidRequest, None)), false, [], None);
    }
    var res := ResolutionsOf(req).value;
    if dirError.Some? {
      return ExportRun(Response(500, Failure(ProcessVideoFailed, dirError)), false, [], None);
    }
    var videoPath, scenes := req.videoPath.value, req.scenes.items;
    var jobs, processed, allOk := RunScenes(videoPath, scenes, res, transcode);
    if !allOk {
      return ExportRun(Response(500, Failure(ScenesFailed, Some(rejection))), true, jobs, None);
    }
    var merge := MergeScenes(processed, FinalOutputPath, concat);
    SegmentPathsNoNewlines(|scenes|);
    var response := if merge.result.Ok? then Response(200, Complete(ExportComplete, FinalOutputPath))
                    else Response(500, Failure(MergeFailedError, Some(mergeError)));
    return ExportRun(response, true, jobs, Some(merge));
  }

  /** The jobs spawned are in scene order and write pairwise distinct files. */
  lemma {:induction false} SpawnedOutputsDistinct(d: seq<Result<TranscodeJob, string>>)
    requires forall i :: 0 <= i < |d| && d[i].Ok? ==> d[i].value.output == SegmentPath(i)
    ensures forall a, b :: 0 <= a < b < |Spawned(d)| ==> Spawned(d)[a].output != Spawned(d)[b].output
    decreases |d|
  {
    if d != [] {
      var init := d[..|d| - 1];
      SpawnedOutputsDistinct(init);
      if d[|d| - 1].Ok? {
        SpawnedOutputsBefore(init);
        forall a | 0 <= a < |Spawned(init)|
          ensures Spawned(init)[a].output != SegmentPath(|d| - 1)
        {
          var k :| 0 <= k < |init| && SegmentPaths(|init|)[k] == Spawned(init)[a].output;
          SegmentPathInjective(k, |d| - 1);
        }
      }
    }
  }

  lemma {:induction false} SpawnedOutputsBefore(d: seq<Result<TranscodeJob, string>>)
    requires forall i :: 0 <= i < |d| && d[i].Ok? ==> d[i].value.output == SegmentPath(i)
    ensures forall a :: 0 <= a < |Spawned(d)| ==> Spawned(d)[a].output in SegmentPaths(|d|)
    decreases |d|
  {
    if d != [] {
      var init := d[..|d| - 1];
      SpawnedOutputsBefore(init);
      forall a | 0 <= a < |Spawned(d)|
        ensures Spawned(d)[a].output in SegmentPaths(|d|)
      {
        if a < |Spawned(init)| {
          var k :| 0 <= k < |init| && SegmentPaths(|init|)[k] == Spawned(init)[a].output;
          assert Spawned(d)[a] == Spawned(init)[a];
          assert SegmentPaths(|d|)[k] == SegmentPath(k);
        } else {
          assert Spawned(d)[a] == d[|d| - 1].value;
          assert SegmentPaths(|d|)[|d| - 1] == SegmentPath(|d| - 1);
        }
      }
    }
  }

  /** The scenes dispatched by one export write pairwise distinct segment files. */
  lemma DispatchedOutputsDistinct(videoPath: string, scenes: seq<Scene>, res: Resolutions)
    requires res.virtualWidth != 0 && res.virtualHeight != 0
    ensures var s := Spawned(Dispatch(videoPath, scenes, res));
      forall a, b :: 0 <= a < b < |s| ==> s[a].output != s[b].output
  {
    SpawnedOutputsDistinct(Dispatch(videoPath, scenes, res));
  }
}
