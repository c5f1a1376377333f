/**
  The editor's scene store. A scene keeps `scale` and `position` at the top level, next to its
  time range and crop. `updateScene` copies the list and writes one slot with a shallow merge.
  `findIndex` over the list is the lookup that Preview, Timeline and SceneConfig use.
 */
module EditorStore {
  import opened Wrappers

  datatype Point = Point(x: real, y: real)

  datatype Crop = Crop(x: real, y: real, width: real, height: real)

  /** A scene as the frontend stores it. */
  datatype Scene = Scene(start: real, end: real, crop: Crop, scale: real, position: Point)

  /** The `data` argument of `updateScene`: the keys it holds are `Some`. */
  datatype ScenePatch = ScenePatch(
    start: Option<real>, end: Option<real>, crop: Option<Crop>,
    scale: Option<real>, position: Option<Point>)

  function Pick<T>(given: Option<T>, kept: T): T {
    if given.Some? then given.value else kept
  }

  /** `{ ...scene, ...data }`: every key present in `data` replaces the scene's value whole
      (a nested `crop` or `position` included), every absent key keeps it. */
  function Merge(s: Scene, data: ScenePatch): (r: Scene)
    ensures data.start.Some? ==> r.start == data.start.value
    ensures data.start.None? ==> r.start == s.start
    ensures data.end.Some? ==> r.end == data.end.value
    ensures data.end.None? ==> r.end == s.end
    ensures data.crop.Some? ==> r.crop == data.crop.value
    ensures data.crop.None? ==> r.crop == s.crop
    ensures data.scale.Some? ==> r.scale == data.scale.value
    ensures data.scale.None? ==> r.scale == s.scale
    ensures data.position.Some? ==> r.position == data.position.value
    ensures data.position.None? ==> r.position == s.position
  {
    Scene(Pick(data.start, s.start), Pick(data.end, s.end), Pick(data.crop, s.crop),
          Pick(data.scale, s.scale), Pick(data.position, s.position))
  }

  /** All keys of a scene, as passed when a whole scene is the update. */
  function AllKeys(s: Scene): ScenePatch {
    ScenePatch(Some(s.start), Some(s.end), Some(s.crop), Some(s.scale), Some(s.position))
  }

  /** A patch holding every key replaces the scene outright. */
  lemma MergeAllKeys(s: Scene, t: Scene)
    ensures Merge(s, AllKeys(t)) == t
  {
  }

  /** An empty patch changes nothing. */
  lemma MergeNothing(s: Scene)
    ensures Merge(s, ScenePatch(None, None, None, None, None)) == s
  {
  }

  /** The list after `updateScene(index, data)`. */
  function Updated(scenes: seq<Scene>, index: nat, data: ScenePatch): (r: seq<Scene>)
    requires index < |scenes|
    ensures |r| == |scenes|
    ensures r[index] == Merge(scenes[index], data)
    ensures forall i :: 0 <= i < |r| && i != index ==> r[i] == scenes[i]
  {
    scenes[index := Merge(scenes[index], data)]
  }

  /** Applying the same update twice is applying it once. */
  lemma UpdateIdempotent(scenes: seq<Scene>, index: nat, data: ScenePatch)
    requires index < |scenes|
    ensures Updated(Updated(scenes, index, data), index, data) == Updated(scenes, index, data)
  {
    var once := Updated(scenes, index, data);
    assert Merge(once[index], data) == once[index];
  }

  /** Updates of two different slots commute. */
  lemma UpdatesCommute(scenes: seq<Scene>, i: nat, a: ScenePatch, j: nat, b: ScenePatch)
    requires i < |scenes| && j < |scenes| && i != j
    ensures Updated(Updated(scenes, i, a), j, b) == Updated(Updated(scenes, j, b), i, a)
  {
  }

  /** The zustand store. */
  class Store {
    var scenes: seq<Scene>

    constructor ()
      ensures scenes == []
    {
      scenes := [];
    }

    /** `setScenes`: the list is replaced wholesale. */
    method SetScenes(s: seq<Scene>)
      modifies this
      ensures scenes == s
    {
      scenes := s;
    }

    /** `updateScene`: a fresh list equal to the old one except in slot `index`; the previous
        list value is left as it was. */
    method UpdateScene(index: nat, data: ScenePatch)
      requires index < |scenes|
      modifies this
      ensures scenes == Updated(old(scenes), index, data)
    {
      var updatedScenes := scenes;
      updatedScenes := updatedScenes[index := Merge(updatedScenes[index], data)];
      scenes := updatedScenes;
    }
  }

  // ---------------------------------------------------------------------------------------
  // Lookups over the list

  /** `Array.prototype.findIndex`: the lowest index satisfying `p`, or -1. */
  function FindIndex(scenes: seq<Scene>, p: Scene -> bool): (r: int)
    ensures -1 <= r < |scenes|
    ensures r >= 0 ==> p(scenes[r]) && forall k :: 0 <= k < r ==> !p(scenes[k])
    ensures r < 0 ==> forall k :: 0 <= k < |scenes| ==> !p(scenes[k])
  {
    if scenes == [] then -1
    else if p(scenes[0]) then 0
    else
      var r := FindIndex(scenes[1..], p);
      if r < 0 then -1 else r + 1
  }

  /** The time range of a scene, ends included, holds `t`. */
  predicate Covers(s: Scene, t: real) {
    s.start <= t <= s.end
  }

  /** The scene playing at `t`: the first, in list order, that covers it. */
  function ActiveIndex(scenes: seq<Scene>, t: real): int {
    FindIndex(scenes, (s: Scene) => Covers(s, t))
  }

  /** The first scene, in list order, that starts after `t`. */
  function NextIndex(scenes: seq<Scene>, t: real): int {
    FindIndex(scenes, (s: Scene) => s.start > t)
  }

  lemma ActiveIndexSpec(scenes: seq<Scene>, t: real)
    ensures var i := ActiveIndex(scenes, t);
      && -1 <= i < |scenes|
      && (i >= 0 ==> Covers(scenes[i], t) && forall k :: 0 <= k < i ==> !Covers(scenes[k], t))
      && (i < 0 <==> forall k :: 0 <= k < |scenes| ==> !Covers(scenes[k], t))
  {
    var p := (s: Scene) => Covers(s, t);
    var i := FindIndex(scenes, p);
    if i >= 0 {
      assert p(scenes[i]);
    }
  }

  lemma NextIndexSpec(scenes: seq<Scene>, t: real)
    ensures var i := NextIndex(scenes, t);
      && -1 <= i < |scenes|
      && (i >= 0 ==> scenes[i].start > t && forall k :: 0 <= k < i ==> scenes[k].start <= t)
      && (i < 0 <==> forall k :: 0 <= k < |scenes| ==> scenes[k].start <= t)
  {
    var p := (s: Scene) => s.start > t;
    var i := FindIndex(scenes, p);
    if i >= 0 {
      assert p(scenes[i]);
    }
    forall k | 0 <= k < |scenes| && (i < 0 || k < i) ensures scenes[k].start <= t {
      assert !p(scenes[k]);
    }
  }

  /** The scene covering `t` together with its index, or no scene and -1. */
  function SceneAt(scenes: seq<Scene>, t: real): (r: (Option<Scene>, int))
    ensures -1 <= r.1 < |scenes|
    ensures r.0.Some? <==> r.1 >= 0
    ensures r.1 >= 0 ==>
      (r.0.value == scenes[r.1] && Covers(scenes[r.1], t)
       && forall k :: 0 <= k < r.1 ==> !Covers(scenes[k], t))
    ensures r.1 < 0 ==> forall k :: 0 <= k < |scenes| ==> !Covers(scenes[k], t)
  {
    ActiveIndexSpec(scenes, t);
    var index := ActiveIndex(scenes, t);
    if index < 0 then (None, -1) else (Some(scenes[index]), index)
  }
}
