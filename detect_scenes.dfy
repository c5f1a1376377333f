/**
  The scene detector script: a sampling loop over the frames that appends a boundary time at
  every sampled frame differing enough from the previous sample, the closing boundary at the
  clip's duration, and the pairing of consecutive boundaries into `{start, end}` scenes. Frame
  decoding and the grey-level difference are not modelled: `diff[k]` is the mean absolute
  difference between frame `k` and the previously sampled frame, and `fps`, the frame count
  and the duration are inputs.
 */
module DetectScenes {
  import opened Wrappers

  const DefaultThreshold: real := 30.0
  const DefaultFrameSkip: nat := 10
  const NoPathError := "No video path provided"

  datatype DetectedScene = DetectedScene(start: real, end: real)

  predicate StrictlyIncreasing(s: seq<real>) {
    forall i, j :: 0 <= i < j < |s| ==> s[i] < s[j]
  }

  /** Frame `k` is sampled and compared with an earlier sample, and the difference is large. */
  predicate IsCut(diff: seq<real>, threshold: real, skip: nat, k: nat)
    requires k < |diff| && skip > 0
  {
    k % skip == 0 && k > 0 && diff[k] > threshold
  }

  /** The boundary times found among the first `n` frames, in frame order. */
  function Cuts(diff: seq<real>, fps: real, threshold: real, skip: nat, n: nat): seq<real>
    requires n <= |diff| && fps > 0.0 && skip > 0
  {
    if n == 0 then []
    else
      var step := if IsCut(diff, threshold, skip, n - 1) then [(n - 1) as real / fps] else [];
      Cuts(diff, fps, threshold, skip, n - 1) + step
  }

  /** The loop of `detect_scenes`: starts from `[0.0]`, reads `frameCount` frames and keeps
      `prev_gray` as the flag `hasPrevious`. */
  method SampleBoundaries(frameCount: nat, diff: seq<real>, fps: real, threshold: real, frameSkip: nat)
    returns (boundaries: seq<real>)
    requires |diff| == frameCount && fps > 0.0 && frameSkip > 0
    ensures boundaries == [0.0] + Cuts(diff, fps, threshold, frameSkip, frameCount)
  {
    boundaries := [0.0];
    var hasPrevious := false;
    var frameIndex := 0;
    while frameIndex < frameCount
      invariant 0 <= frameIndex <= frameCount
      invariant hasPrevious <==> frameIndex > 0
      invariant boundaries == [0.0] + Cuts(diff, fps, threshold, frameSkip, frameIndex)
    {
      if frameIndex % frameSkip == 0 {
        if hasPrevious && diff[frameIndex] > threshold {
          boundaries := boundaries + [frameIndex as real / fps];
        }
        hasPrevious := true;
      }
      frameIndex := frameIndex + 1;
    }
  }

  /** A boundary is recorded exactly at the sampled cuts. */
  lemma {:induction false} CutsMembers(diff: seq<real>, fps: real, threshold: real, skip: nat, n: nat, t: real)
    requires n <= |diff| && fps > 0.0 && skip > 0
    ensures t in Cuts(diff, fps, threshold, skip, n) <==>
      exists k: nat :: k < n && IsCut(diff, threshold, skip, k) && t == k as real / fps
    decreases n
  {
    if n > 0 {
      CutsMembers(diff, fps, threshold, skip, n - 1, t);
      if IsCut(diff, threshold, skip, n - 1) && t == (n - 1) as real / fps {
        assert t in Cuts(diff, fps, threshold, skip, n);
      }
    }
  }

  /** Every recorded cut lies after the start and before the time of frame `n`. */
  lemma {:induction false} CutsBounded(diff: seq<real>, fps: real, threshold: real, skip: nat, n: nat)
    requires n <= |diff| && fps > 0.0 && skip > 0
    ensures forall i :: 0 <= i < |Cuts(diff, fps, threshold, skip, n)| ==>
      0.0 < Cuts(diff, fps, threshold, skip, n)[i] < n as real / fps
    decreases n
  {
    if n > 0 {
      CutsBounded(diff, fps, threshold, skip, n - 1);
      var prev := Cuts(diff, fps, threshold, skip, n - 1);
      assert (n - 1) as real / fps < n as real / fps;
      if IsCut(diff, threshold, skip, n - 1) {
        assert 0.0 < (n - 1) as real / fps;
        assert Cuts(diff, fps, threshold, skip, n) == prev + [(n - 1) as real / fps];
      }
    }
  }

  /** Frame indices only grow, so the recorded cuts strictly increase. */
  lemma {:induction false} CutsIncreasing(diff: seq<real>, fps: real, threshold: real, skip: nat, n: nat)
    requires n <= |diff| && fps > 0.0 && skip > 0
    ensures StrictlyIncreasing(Cuts(diff, fps, threshold, skip, n))
    decreases n
  {
    if n > 0 {
      CutsIncreasing(diff, fps, threshold, skip, n - 1);
      CutsBounded(diff, fps, threshold, skip, n - 1);
    }
  }

  /** The sampled boundaries start at 0 and strictly increase. */
  lemma BoundariesIncreasing(diff: seq<real>, fps: real, threshold: real, skip: nat, n: nat)
    requires n <= |diff| && fps > 0.0 && skip > 0
    ensures var b := [0.0] + Cuts(diff, fps, threshold, skip, n);
      b[0] == 0.0 && StrictlyIncreasing(b)
  {
    CutsIncreasing(diff, fps, threshold, skip, n);
    CutsBounded(diff, fps, threshold, skip, n);
  }

  /** `if scene_boundaries[-1] < duration: scene_boundaries.append(duration)`. */
  function CloseBoundaries(b: seq<real>, duration: real): (r: seq<real>)
    requires |b| >= 1
    ensures r == b || (b[|b| - 1] < duration && r == b + [duration])
    ensures r[|r| - 1] >= duration && r[0] == b[0]
    ensures StrictlyIncreasing(b) ==> StrictlyIncreasing(r)
  {
    if b[|b| - 1] < duration then b + [duration] else b
  }

  /** The `for` loop pairing consecutive boundaries. */
  method PairScenes(b: seq<real>) returns (scenes: seq<DetectedScene>)
    ensures |scenes| == if |b| == 0 then 0 else |b| - 1
    ensures forall i :: 0 <= i < |scenes| ==> scenes[i] == DetectedScene(b[i], b[i + 1])
  {
    scenes := [];
    if |b| == 0 {
      return;
    }
    for i := 0 to |b| - 1
      invariant |scenes| == i
      invariant forall k :: 0 <= k < i ==> scenes[k] == DetectedScene(b[k], b[k + 1])
    {
      scenes := scenes + [DetectedScene(b[i], b[i + 1])];
    }
  }

  /** Scenes built from strictly increasing boundaries starting at 0 tile the timeline: the
      first starts at 0, each ends where the next starts, and none is empty. */
  lemma PairedScenesTile(b: seq<real>, scenes: seq<DetectedScene>)
    requires |b| >= 1 && b[0] == 0.0 && StrictlyIncreasing(b)
    requires |scenes| == |b| - 1
    requires forall i :: 0 <= i < |scenes| ==> scenes[i] == DetectedScene(b[i], b[i + 1])
    ensures |scenes| > 0 ==> scenes[0].start == 0.0 && scenes[|scenes| - 1].end == b[|b| - 1]
    ensures forall i :: 0 <= i < |scenes| - 1 ==> scenes[i].end == scenes[i + 1].start
    ensures forall i :: 0 <= i < |scenes| ==> scenes[i].start < scenes[i].end
  {
    forall i | 0 <= i < |scenes| ensures scenes[i].start == b[i] && scenes[i].end == b[i + 1] {
      assert scenes[i] == DetectedScene(b[i], b[i + 1]);
    }
    forall i | 0 <= i < |scenes| ensures scenes[i].start < scenes[i].end {
      assert b[i] < b[i + 1];
    }
  }

  /** `detect_scenes` with the fixed inputs of one video. */
  method Detect(videoPath: string, fileExists: bool, opens: bool, frameCount: nat, diff: seq<real>,
                fps: real, duration: real, threshold: real, frameSkip: nat)
    returns (r: Result<seq<DetectedScene>, string>)
    requires |diff| == frameCount && fps > 0.0 && frameSkip > 0
    ensures !fileExists ==> r == Err("Video file '" + videoPath + "' does not exist")
    ensures fileExists && !opens ==> r == Err("Failed to open video file '" + videoPath + "'")
    ensures fileExists && opens ==> r.Ok?
    ensures r.Ok? ==> var b := CloseBoundaries([0.0] + Cuts(diff, fps, threshold, frameSkip, frameCount), duration);
      |r.value| == |b| - 1 && forall i :: 0 <= i < |r.value| ==> r.value[i] == DetectedScene(b[i], b[i + 1])
    ensures r.Ok? && |r.value| > 0 ==> r.value[0].start == 0.0
    ensures r.Ok? ==> forall i :: 0 <= i < |r.value| ==> r.value[i].start < r.value[i].end
    ensures r.Ok? ==> forall i :: 0 <= i < |r.value| - 1 ==> r.value[i].end == r.value[i + 1].start
  {
    if !fileExists {
      return Err("Video file '" + videoPath + "' does not exist");
    }
    if !opens {
      return Err("Failed to open video file '" + videoPath + "'");
    }
    var boundaries := SampleBoundaries(frameCount, diff, fps, threshold, frameSkip);
    BoundariesIncreasing(diff, fps, threshold, frameSkip, frameCount);
    boundaries := CloseBoundaries(boundaries, duration);
    var scenes := PairScenes(boundaries);
    PairedScenesTile(boundaries, scenes);
    return Ok(scenes);
  }

  // ---------------------------------------------------------------------------------------
  // Command line

  /** Index of the last `c` among the first `n` characters of `s`, or -1. */
  function LastBefore(s: string, c: char, n: nat): (r: int)
    requires n <= |s|
    ensures -1 <= r < n
    ensures r >= 0 ==> s[r] == c
    ensures forall k :: r < k < n ==> s[k] != c
  {
    if n == 0 then -1
    else if s[n - 1] == c then n - 1
    else LastBefore(s, c, n - 1)
  }

  /** `str.rfind`: index of the last `c` in `s`, or -1. */
  function LastIndexOf(s: string, c: char): (r: int)
    ensures -1 <= r < |s|
    ensures r >= 0 ==> s[r] == c
    ensures forall k :: r < k < |s| ==> s[k] != c
  {
    LastBefore(s, c, |s|)
  }

  predicate AllDots(s: string) {
    forall k :: 0 <= k < |s| ==> s[k] == '.'
  }

  /** `os.path.splitext` on a POSIX path: the extension starts at the last '.' of the last
      component, unless only dots precede it in that component. */
  function SplitExt(p: string): (r: (string, string))
    ensures r.0 + r.1 == p
    ensures r.1 == [] || (r.1[0] == '.' && '/' !in r.1 && '.' !in r.1[1..])
  {
    var sep, dot := LastIndexOf(p, '/'), LastIndexOf(p, '.');
    if dot <= sep then (p, "")
    else if AllDots(p[sep + 1..dot]) then (p, "")
    else
      ExtensionShape(p, dot);
      (p[..dot], p[dot..])
  }

  /** What follows the last '.', when it comes after the last '/', is one dot and then
      neither '/' nor '.'. */
  lemma ExtensionShape(p: string, dot: int)
    requires 0 <= dot == LastIndexOf(p, '.') && LastIndexOf(p, '/') < dot
    ensures p[..dot] + p[dot..] == p
    ensures p[dot..][0] == '.' && '/' !in p[dot..] && '.' !in p[dot..][1..]
  {
    var ext := p[dot..];
    assert forall k :: 0 <= k < |ext| ==> ext[k] == p[dot + k];
    assert forall k :: 0 <= k < |ext[1..]| ==> ext[1..][k] == p[dot + 1 + k];
  }

  function LogFile(videoPath: string): string {
    SplitExt(videoPath).0 + "_scenes.log"
  }

  /** What the `__main__` block does: report an error, or detect scenes in a video. */
  datatype CliRun =
    | MissingPath(error: string)
    | Run(videoPath: string, logFile: string, threshold: real, frameSkip: nat)

  /** The process exits with 1 after printing the error for a missing path. */
  function ExitCode(r: CliRun): int {
    if r.MissingPath? then 1 else 0
  }

  /** The `__main__` block: `argv` includes the script name, as `sys.argv` does. The detector
      is called with its default threshold and frame skip. */
  function Cli(argv: seq<string>): (r: CliRun)
    ensures r.MissingPath? <==> |argv| < 2
    ensures r.MissingPath? ==> r.error == NoPathError && ExitCode(r) == 1
    ensures r.Run? ==> r.videoPath == argv[1] && r.logFile == LogFile(argv[1]) && ExitCode(r) == 0
    ensures r.Run? ==> r.threshold == 30.0 && r.frameSkip == 10
  {
    if |argv| < 2 then MissingPath(NoPathError)
    else Run(argv[1], LogFile(argv[1]), DefaultThreshold, DefaultFrameSkip)
  }

  /** Only the first `n` characters matter to `LastBefore`. */
  lemma {:induction false} LastBeforePrefix(a: string, t: string, c: char, n: nat)
    requires n <= |a|
    ensures LastBefore(a + t, c, n) == LastBefore(a, c, n)
    decreases n
  {
    if n > 0 {
      assert (a + t)[n - 1] == a[n - 1];
      LastBeforePrefix(a, t, c, n - 1);
    }
  }

  /** Appending text without `c` leaves the last `c` where it was. */
  lemma {:induction false} LastIndexOfAppend(a: string, t: string, c: char)
    requires c !in t
    ensures LastIndexOf(a + t, c) == LastIndexOf(a, c)
  {
    var s := a + t;
    var n := |s|;
    while n > |a|
      invariant |a| <= n <= |s|
      invariant LastBefore(s, c, n) == LastBefore(s, c, |s|)
    {
      assert s[n - 1] == t[n - 1 - |a|];
      n := n - 1;
    }
    LastBeforePrefix(a, t, c, |a|);
  }

  /** A last dot after the last '/' starts the extension once a character other than '.'
      precedes it in the file name. */
  lemma SplitExtAt(p: string, dot: int, j: int)
    requires dot == LastIndexOf(p, '.') && LastIndexOf(p, '/') < j < dot && p[j] != '.'
    ensures SplitExt(p).0 == p[..dot]
  {
    var sep := LastIndexOf(p, '/');
    assert p[sep + 1..dot][j - sep - 1] == p[j];
  }

  /** The log sits beside the video, named after its stem: the extension (from the last dot of
      the file name on) is replaced by `_scenes.log`, whatever directory the video is in. */
  lemma LogFileBesideVideo(dir: string, name: string, ext: string)
    requires |name| >= 1 && name[0] != '.' && '/' !in name
    requires |ext| >= 1 && ext[0] == '.' && '/' !in ext && '.' !in ext[1..]
    ensures LogFile(dir + name + ext) == dir + name + "_scenes.log"
  {
    var p := dir + name + ext;
    var dot := |dir| + |name|;
    assert p == (dir + name + ['.']) + ext[1..];
    LastIndexOfAppend(dir + name + ['.'], ext[1..], '.');
    assert p == dir + (name + ext);
    LastIndexOfAppend(dir, name + ext, '/');
    SplitExtAt(p, dot, |dir|);
    assert p[..dot] == dir + name;
  }

  /** A leading dot does not start an extension. */
  lemma LogFileOfDotFile()
    ensures LogFile(".clip") == ".clip" + "_scenes.log"
  {
    assert LastIndexOf(".clip", '/') == -1;
    assert ".clip" == "." + "clip";
    LastIndexOfAppend(".", "clip", '.');
    assert SplitExt(".clip").0 == ".clip";
  }

}
