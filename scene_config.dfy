/**
  The scene settings panel: it looks up the scene under the playhead, shows its fields (0 where
  there is none), edits one field per input with `Number(value) || 0`, resets the placement, and
  writes the edited scene back into the store when it came from the list.
 */
module SceneConfig {
  import opened Wrappers
  import opened Text
  import opened EditorStore

  // ---------------------------------------------------------------------------------------
  // Input coercion

  /** The value of the digits after a decimal point: `0.d1d2...`. */
  function FracValue(digits: string): (v: real)
    requires AllDigits(digits)
    ensures 0.0 <= v < 1.0
  {
    if digits == [] then 0.0 else (DigitValue(digits[0]) as real + FracValue(digits[1..])) / 10.0
  }

  /** The index of the first '.' in `s`, or -1. */
  function DotIndex(s: string): (i: int)
    ensures -1 <= i < |s|
    ensures i >= 0 ==> s[i] == '.'
    ensures forall k :: 0 <= k < |s| && (i < 0 || k < i) ==> s[k] != '.'
  {
    if s == [] then -1
    else if s[0] == '.' then 0
    else
      var i := DotIndex(s[1..]);
      if i < 0 then -1 else i + 1
  }

  /** A decimal without sign: digits with at most one '.', and at least one digit. */
  function UnsignedDecimal(s: string): Option<real> {
    var dot := DotIndex(s);
    if dot < 0 then
      if |s| >= 1 && AllDigits(s) then Some(DigitsValue(s) as real) else None
    else
      var whole := s[..dot];
      var frac := s[dot + 1..];
      if AllDigits(whole) && AllDigits(frac) && |whole| + |frac| >= 1 then
        Some(DigitsValue(whole) as real + FracValue(frac))
      else None
  }

  /** `Number(text)` for what a number input hands over: the empty string is 0, a decimal with
      an optional sign is its value, anything else is NaN (`None`). */
  function JsNumber(text: string): Option<real> {
    if text == "" then Some(0.0)
    else if text[0] == '-' then
      match UnsignedDecimal(text[1..])
      case Some(v) => Some(-v)
      case None => None
    else if text[0] == '+' then UnsignedDecimal(text[1..])
    else UnsignedDecimal(text)
  }

  /** `Number(text) || 0`: NaN becomes 0 (0 stays 0). */
  function Coerce(text: string): real {
    match JsNumber(text)
    case Some(v) => v
    case None => 0.0
  }

  predicate NumberChar(c: char) {
    IsDigit(c) || c == '.' || c == '-' || c == '+'
  }

  lemma UnsignedDecimalChars(s: string)
    requires UnsignedDecimal(s).Some?
    ensures forall i :: 0 <= i < |s| ==> IsDigit(s[i]) || s[i] == '.'
  {
    var dot := DotIndex(s);
    if dot >= 0 {
      var whole := s[..dot];
      var frac := s[dot + 1..];
      assert AllDigits(whole) && AllDigits(frac);
      forall i | 0 <= i < |s| ensures IsDigit(s[i]) || s[i] == '.' {
        if i < dot {
          assert s[i] == whole[i];
        } else if i > dot {
          assert s[i] == frac[i - dot - 1];
        }
      }
    }
  }

  /** Empty input and input that is not a number both become 0. */
  lemma CoerceToZero(text: string, i: nat)
    requires i < |text| && !NumberChar(text[i])
    ensures Coerce("") == 0.0
    ensures Coerce(text) == 0.0
  {
    if text[0] == '-' || text[0] == '+' {
      if UnsignedDecimal(text[1..]).Some? {
        UnsignedDecimalChars(text[1..]);
      }
    } else if UnsignedDecimal(text).Some? {
      UnsignedDecimalChars(text);
    }
  }

  lemma UnsignedWhole(n: nat)
    ensures UnsignedDecimal(NatToString(n)).Some?
    ensures UnsignedDecimal(NatToString(n)).value == n as real
  {
    NatRoundTrip(n);
    NatStringHasNo(n, '.');
    assert DotIndex(NatToString(n)) < 0;
  }

  /** A typed whole number is taken at its value, with either sign. */
  lemma CoerceWhole(n: nat)
    ensures Coerce(NatToString(n)) == n as real
    ensures Coerce(['-'] + NatToString(n)) == -(n as real)
  {
    var s := NatToString(n);
    assert Coerce(s) == n as real by {
      UnsignedWhole(n);
      NatStringHasNo(n, '-');
      NatStringHasNo(n, '+');
      assert s[0] in s;
    }
    var t := ['-'] + s;
    assert t[1..] == s;
    UnsignedWhole(n);
  }

  lemma DotAfterWhole(w: string, frac: string)
    requires '.' !in w
    ensures DotIndex(w + "." + frac) == |w|
  {
    var s := w + "." + frac;
    assert s[|w|] == '.';
    assert forall k :: 0 <= k < |w| ==> s[k] == w[k];
  }

  lemma UnsignedDecimalParts(w: string, frac: string)
    requires |w| >= 1 && AllDigits(w) && AllDigits(frac)
    ensures UnsignedDecimal(w + "." + frac).Some?
    ensures UnsignedDecimal(w + "." + frac).value == DigitsValue(w) as real + FracValue(frac)
  {
    var s := w + "." + frac;
    assert '.' !in w by {
      assert forall k :: 0 <= k < |w| ==> IsDigit(w[k]);
    }
    DotAfterWhole(w, frac);
    assert s[..|w|] == w;
    assert s[|w| + 1..] == frac;
  }

  lemma UnsignedDecimalOf(n: nat, frac: string)
    requires AllDigits(frac)
    ensures var d := UnsignedDecimal(NatToString(n) + "." + frac);
      d.Some? && d.value == n as real + FracValue(frac)
  {
    NatRoundTrip(n);
    UnsignedDecimalParts(NatToString(n), frac);
  }

  /** A typed decimal `whole.frac` is taken at its value. */
  lemma CoerceDecimal(n: nat, frac: string)
    requires AllDigits(frac)
    ensures Coerce(NatToString(n) + "." + frac) == n as real + FracValue(frac)
  {
    var w := NatToString(n);
    UnsignedDecimalOf(n, frac);
    NatStringHasNo(n, '-');
    NatStringHasNo(n, '+');
    assert (w + "." + frac)[0] == w[0];
    assert w[0] in w;
  }

  // ---------------------------------------------------------------------------------------
  // Fields

  /** The nine inputs of the panel. */
  datatype Field = Start | End | CropX | CropY | CropWidth | CropHeight | Scale | PositionX | PositionY

  /** The value an input shows for a scene. */
  function Get(s: Scene, f: Field): real {
    match f
    case Start => s.start
    case End => s.end
    case CropX => s.crop.x
    case CropY => s.crop.y
    case CropWidth => s.crop.width
    case CropHeight => s.crop.height
    case Scale => s.scale
    case PositionX => s.position.x
    case PositionY => s.position.y
  }

  /** The record an input's change handler builds: the scene spread with one key replaced, a
      crop or position coordinate through a spread of the nested object. */
  function Set(s: Scene, f: Field, v: real): (r: Scene)
    ensures Get(r, f) == v
    ensures forall g :: g != f ==> Get(r, g) == Get(s, g)
  {
    match f
    case Start => s.(start := v)
    case End => s.(end := v)
    case CropX => s.(crop := s.crop.(x := v))
    case CropY => s.(crop := s.crop.(y := v))
    case CropWidth => s.(crop := s.crop.(width := v))
    case CropHeight => s.(crop := s.crop.(height := v))
    case Scale => s.(scale := v)
    case PositionX => s.(position := s.position.(x := v))
    case PositionY => s.(position := s.position.(y := v))
  }

  /** A scene is its nine fields. */
  lemma FieldsDetermineScene(s: Scene, t: Scene)
    requires forall f :: Get(s, f) == Get(t, f)
    ensures s == t
  {
    assert Get(s, CropX) == Get(t, CropX) && Get(s, CropY) == Get(t, CropY);
    assert Get(s, CropWidth) == Get(t, CropWidth) && Get(s, CropHeight) == Get(t, CropHeight);
    assert Get(s, PositionX) == Get(t, PositionX) && Get(s, PositionY) == Get(t, PositionY);
    assert Get(s, Start) == Get(t, Start) && Get(s, End) == Get(t, End) && Get(s, Scale) == Get(t, Scale);
  }

  /** What an input shows: the field of the current scene, 0 when there is no current scene. */
  function Display(current: Option<Scene>, f: Field): real {
    if current.Some? then Get(current.value, f) else 0.0
  }

  /** An input's change: the current scene with that one field set to the coerced text. */
  function Edit(current: Option<Scene>, f: Field, text: string): Option<Scene> {
    if current.Some? then Some(Set(current.value, f, Coerce(text))) else None
  }

  /** After typing into one input, that input shows the coerced text and every other input
      shows what it showed before. */
  lemma EditChangesOneField(current: Option<Scene>, f: Field, text: string)
    requires current.Some?
    ensures Display(Edit(current, f, text), f) == Coerce(text)
    ensures forall g :: g != f ==> Display(Edit(current, f, text), g) == Display(current, g)
  {
  }

  /** Two edits of different inputs commute. */
  lemma EditsCommute(current: Option<Scene>, f: Field, a: string, g: Field, b: string)
    requires f != g
    ensures Edit(Edit(current, f, a), g, b) == Edit(Edit(current, g, b), f, a)
  {
    if current.Some? {
      var s := current.value;
      FieldsDetermineScene(Set(Set(s, f, Coerce(a)), g, Coerce(b)), Set(Set(s, g, Coerce(b)), f, Coerce(a)));
    }
  }

  /** A second edit of the same input overrides the first. */
  lemma EditOverrides(current: Option<Scene>, f: Field, a: string, b: string)
    ensures Edit(Edit(current, f, a), f, b) == Edit(current, f, b)
  {
    if current.Some? {
      var s := current.value;
      FieldsDetermineScene(Set(Set(s, f, Coerce(a)), f, Coerce(b)), Set(s, f, Coerce(b)));
    }
  }

  /** The Reset button: a crop of 1280x720 at the origin, scale 1 and position at the origin. */
  function Reset(current: Option<Scene>): Option<Scene> {
    if current.Some? then
      Some(current.value.(crop := Crop(0.0, 0.0, 1280.0, 720.0), scale := 1.0, position := Point(0.0, 0.0)))
    else None
  }

  /** Reset keeps the time range, sets the placement fields to their defaults, and a second
      reset changes nothing. */
  lemma ResetSpec(current: Option<Scene>)
    requires current.Some?
    ensures Display(Reset(current), Start) == Display(current, Start)
    ensures Display(Reset(current), End) == Display(current, End)
    ensures Display(Reset(current), CropX) == 0.0 && Display(Reset(current), CropY) == 0.0
    ensures Display(Reset(current), CropWidth) == 1280.0 && Display(Reset(current), CropHeight) == 720.0
    ensures Display(Reset(current), Scale) == 1.0
    ensures Display(Reset(current), PositionX) == 0.0 && Display(Reset(current), PositionY) == 0.0
    ensures Reset(Reset(current)) == Reset(current)
  {
  }

  // ---------------------------------------------------------------------------------------
  // Back to the store

  /** The `updateScene` call made when the edited scene changes: only for a scene found in the
      list, and with every key of the scene. */
  function Push(index: int, current: Option<Scene>): (r: Option<(nat, ScenePatch)>)
    ensures r.Some? <==> current.Some? && index != -1 && index >= 0
    ensures r.Some? ==> r.value.0 == index && r.value.1 == AllKeys(current.value)
  {
    if current.Some? && index != -1 && index >= 0 then Some((index as nat, AllKeys(current.value))) else None
  }

  /** The scene list after the push. */
  function Committed(scenes: seq<Scene>, index: int, current: Option<Scene>): seq<Scene>
    requires index < |scenes|
  {
    var p := Push(index, current);
    if p.Some? then Updated(scenes, p.value.0, p.value.1) else scenes
  }

  /** Typing into one input while a scene is under the playhead changes exactly that field of
      that scene in the store, and nothing else. */
  lemma EditReachesStore(scenes: seq<Scene>, t: real, f: Field, text: string)
    requires SceneAt(scenes, t).1 >= 0
    ensures var (current, index) := SceneAt(scenes, t);
      var after := Committed(scenes, index, Edit(current, f, text));
      && |after| == |scenes|
      && Get(after[index], f) == Coerce(text)
      && (forall g :: g != f ==> Get(after[index], g) == Get(scenes[index], g))
      && (forall k :: 0 <= k < |scenes| && k != index ==> after[k] == scenes[k])
  {
    var (current, index) := SceneAt(scenes, t);
    MergeAllKeys(scenes[index], Set(current.value, f, Coerce(text)));
  }

  /** With no scene under the playhead nothing is written. */
  lemma NoSceneNoWrite(scenes: seq<Scene>, t: real, f: Field, text: string)
    requires SceneAt(scenes, t).1 < 0
    ensures var (current, index) := SceneAt(scenes, t);
      && Committed(scenes, index, Edit(current, f, text)) == scenes
      && Committed(scenes, index, Reset(current)) == scenes
      && forall g :: Display(current, g) == 0.0
  {
  }

  /** Pushing the same scene again, as happens when the store update feeds the panel back the
      scene it wrote, leaves the list as it is. */
  lemma RepushIsIdempotent(scenes: seq<Scene>, index: int, current: Option<Scene>)
    requires index < |scenes|
    ensures Committed(Committed(scenes, index, current), index, current) == Committed(scenes, index, current)
  {
    var p := Push(index, current);
    if p.Some? {
      UpdateIdempotent(scenes, p.value.0, p.value.1);
    }
  }
}
