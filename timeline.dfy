/**
  The timeline bar: scene markers and the playhead placed by percentage of the video's
  duration, and click-to-seek, which in final-result mode refuses to land between scenes.
 */
module Timeline {
  import opened Wrappers
  import opened EditorStore
  import Preview

  /** Where time `t` lies along the bar, in percent of the duration. */
  function TimeToPercentage(t: real, duration: real): (p: real)
    requires duration > 0.0
    ensures p * duration == t * 100.0
  {
    t / duration * 100.0
  }

  /** The bar spans the video: 0 is at 0%, the duration at 100%, and later times lie further
      right. */
  lemma PercentageBounds(s: real, t: real, duration: real)
    requires duration > 0.0
    ensures TimeToPercentage(0.0, duration) == 0.0
    ensures TimeToPercentage(duration, duration) == 100.0
    ensures s <= t ==> TimeToPercentage(s, duration) <= TimeToPercentage(t, duration)
    ensures 0.0 <= t <= duration ==> 0.0 <= TimeToPercentage(t, duration) <= 100.0
  {
    if s <= t {
      assert s / duration <= t / duration;
    }
    if 0.0 <= t <= duration {
      assert t / duration <= duration / duration;
    }
  }

  /** One scene marker: its left edge and width in percent, and whether it is highlighted. */
  datatype Marker = Marker(left: real, width: real, active: bool)

  function MarkerOf(s: Scene, currentTime: real, duration: real): Marker
    requires duration > 0.0
  {
    Marker(TimeToPercentage(s.start, duration), TimeToPercentage(s.end - s.start, duration),
           Covers(s, currentTime))
  }

  /** One marker per scene, in list order. */
  function Markers(scenes: seq<Scene>, currentTime: real, duration: real): (r: seq<Marker>)
    requires duration > 0.0
    ensures |r| == |scenes|
    ensures forall i :: 0 <= i < |r| ==> r[i] == MarkerOf(scenes[i], currentTime, duration)
  {
    seq(|scenes|, i requires 0 <= i < |scenes| => MarkerOf(scenes[i], currentTime, duration))
  }

  /** A marker runs from its scene's start to its scene's end; it is highlighted exactly when its
      scene covers the current time, so several overlapping scenes can be highlighted at once
      while the first of them is the one the preview shows. */
  lemma MarkersSpanScenes(scenes: seq<Scene>, currentTime: real, duration: real, i: nat)
    requires duration > 0.0 && i < |scenes|
    ensures var m := Markers(scenes, currentTime, duration)[i];
      && m.left == TimeToPercentage(scenes[i].start, duration)
      && m.left + m.width == TimeToPercentage(scenes[i].end, duration)
      && (m.active <==> scenes[i].start <= currentTime <= scenes[i].end)
  {
    var s := scenes[i];
    assert s.start / duration * 100.0 + (s.end - s.start) / duration * 100.0
        == s.end / duration * 100.0;
  }

  /** The first highlighted marker is the scene the preview treats as active. */
  lemma FirstActiveMarker(scenes: seq<Scene>, currentTime: real, duration: real)
    requires duration > 0.0
    ensures var ms := Markers(scenes, currentTime, duration);
      var a := ActiveIndex(scenes, currentTime);
      && (a < 0 <==> forall i :: 0 <= i < |ms| ==> !ms[i].active)
      && (a >= 0 ==> ms[a].active && forall i :: 0 <= i < a ==> !ms[i].active)
  {
    ActiveIndexSpec(scenes, currentTime);
  }

  /** The time a click at `fraction` of the bar's width seeks to, or `None` when nothing is
      sought (no video element, or in final-result mode a click past the last scene). */
  function HandleSeek(hasVideo: bool, scenes: seq<Scene>, duration: real, fraction: real,
                      finalMode: bool): Option<real>
  {
    if !hasVideo then None
    else
      var time := duration * fraction;
      if finalMode && ActiveIndex(scenes, time) < 0 then
        var next := NextIndex(scenes, time);
        if next < 0 then None else Some(scenes[next].start)
      else Some(time)
  }

  /** Outside final-result mode the click's time is sought as is; in final-result mode a time
      inside a scene is kept, a time in a gap snaps forward to the first later scene's start,
      and a time after every scene start is ignored. */
  lemma HandleSeekSpec(hasVideo: bool, scenes: seq<Scene>, duration: real, fraction: real, finalMode: bool)
    ensures var r := HandleSeek(hasVideo, scenes, duration, fraction, finalMode);
      var time := duration * fraction;
      && (!hasVideo ==> r.None?)
      && (hasVideo && !finalMode ==> r == Some(time))
      && (hasVideo && finalMode && (exists k :: 0 <= k < |scenes| && Covers(scenes[k], time)) ==> r == Some(time))
      && (hasVideo && finalMode && (forall k :: 0 <= k < |scenes| ==> !Covers(scenes[k], time)) ==>
            (r.None? <==> forall k :: 0 <= k < |scenes| ==> scenes[k].start <= time)
            && (r.Some? ==> r.value > time && r.value == scenes[NextIndex(scenes, time)].start))
  {
    var time := duration * fraction;
    ActiveIndexSpec(scenes, time);
    NextIndexSpec(scenes, time);
  }

  /** In final-result mode with well-formed scenes every time sought lies in a scene. */
  lemma FinalModeSeekLandsInScene(scenes: seq<Scene>, duration: real, fraction: real)
    requires forall k :: 0 <= k < |scenes| ==> scenes[k].start <= scenes[k].end
    ensures var r := HandleSeek(true, scenes, duration, fraction, true);
      r.Some? ==> ActiveIndex(scenes, r.value) >= 0
  {
    var time := duration * fraction;
    var r := HandleSeek(true, scenes, duration, fraction, true);
    ActiveIndexSpec(scenes, time);
    NextIndexSpec(scenes, time);
    if r.Some? {
      ActiveIndexSpec(scenes, r.value);
      if ActiveIndex(scenes, time) < 0 {
        assert Covers(scenes[NextIndex(scenes, time)], r.value);
      }
    }
  }

  /** A click and the playback loop skip gaps the same way, except past the last scene: the
      click does nothing there while playback wraps to 0. */
  lemma SeekAgreesWithPlayback(scenes: seq<Scene>, duration: real, fraction: real)
    ensures var time := duration * fraction;
      var r := HandleSeek(true, scenes, duration, fraction, true);
      var (p, _) := Preview.PlaybackTime(scenes, time, true);
      && (r.Some? ==> r.value == p)
      && (r.None? ==> p == 0.0)
  {
  }
}
