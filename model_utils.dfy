/** Model-level constants and validators of the inventory back end (rackcity/models/model_utils.py). */
module ModelUtils {
  import opened Wrappers
  import Strings
  import Python

  /** The colour a model is drawn in when it names none. */
  const DEFAULT_DISPLAY_COLOR: string := "#394B59"

  /** The three kinds of hardware model, with the value each is stored as. */
  datatype ModelType = RackmountAsset | BladeChassis | BladeAsset {
    function Value(): string {
      match this
      case RackmountAsset => "Rackmount"
      case BladeChassis => "Chassis"
      case BladeAsset => "Blade"
    }
  }

  /** `ModelType(s)`: the kind stored as `s`, or `None` where Python raises `ValueError`. */
  function ModelTypeOf(s: string): (r: Option<ModelType>)
    ensures r.Some? ==> r.value.Value() == s
  {
    if s == "Rackmount" then Some(RackmountAsset)
    else if s == "Chassis" then Some(BladeChassis)
    else if s == "Blade" then Some(BladeAsset)
    else None
  }

  /** Every kind is recovered from its stored value, so the three values are distinct. */
  lemma ModelTypeRoundTrip(t: ModelType)
    ensures ModelTypeOf(t.Value()) == Some(t)
  {
  }

  /** Exactly three stored values name a kind. */
  lemma ModelTypeValues(s: string)
    ensures ModelTypeOf(s).Some? <==> s in {"Rackmount", "Chassis", "Blade"}
  {
  }

  predicate IsHexDigit(c: char) {
    Strings.IsDigit(c) || 'a' <= c <= 'f' || 'A' <= c <= 'F'
  }

  /** `#[A-Fa-f0-9]{6}` matches the whole of `s`. */
  predicate IsHexColor(s: string) {
    |s| == 7 && s[0] == '#' && forall i :: 1 <= i < 7 ==> IsHexDigit(s[i])
  }

  /** `validate_display_color`: the message of the `ValidationError` it raises, if it raises. */
  function DisplayColorError(value: Option<string>): (e: Option<string>)
    ensures e.None? <==> value.None? || value.value == "" || IsHexColor(value.value)
  {
    if value.Some? && value.value != "" && !IsHexColor(value.value) then
      Some(value.value + " is not a valid hex color")
    else None
  }

  /** The default colour passes the colour validator. */
  lemma DefaultDisplayColorIsValid()
    ensures DisplayColorError(Some(DEFAULT_DISPLAY_COLOR)).None?
  {
    assert IsHexColor(DEFAULT_DISPLAY_COLOR);
  }

  /** The colour check ignores letter case. */
  lemma {:induction false} DisplayColorCaseInsensitive(s: string)
    ensures DisplayColorError(Some(s)).None? <==> DisplayColorError(Some(Strings.Lower(s))).None?
  {
    var t := Strings.Lower(s);
    forall i | 0 <= i < |s|
      ensures IsHexDigit(s[i]) <==> IsHexDigit(t[i])
      ensures s[i] == '#' <==> t[i] == '#'
    {
      assert t[i] == Strings.LowerChar(s[i]);
    }
    if IsHexColor(s) {
      assert IsHexColor(t);
    }
    if IsHexColor(t) {
      assert IsHexColor(s);
    }
  }

  /** A valid non-empty colour is always seven characters long. */
  lemma ValidColorLength(s: string)
    requires s != "" && DisplayColorError(Some(s)).None?
    ensures |s| == 7 && s[0] == '#'
  {
  }

  /** `validate_portname`: a name is refused when `\s` finds a white-space character in it. */
  function PortnameError(value: string): (e: Option<string>)
    ensures e.None? <==> forall i :: 0 <= i < |value| ==> !Python.IsSpace(value[i])
  {
    if exists i :: 0 <= i < |value| && Python.IsSpace(value[i]) then
      Some("Port name must be whitespace free. ")
    else None
  }

  /** Two names joined pass the check exactly when both do. */
  lemma PortnameConcat(a: string, b: string)
    ensures PortnameError(a + b).None? <==> PortnameError(a).None? && PortnameError(b).None?
  {
    var ab := a + b;
    if PortnameError(a).None? && PortnameError(b).None? {
      forall i | 0 <= i < |ab| ensures !Python.IsSpace(ab[i]) {
        if i < |a| { assert ab[i] == a[i]; } else { assert ab[i] == b[i - |a|]; }
      }
    }
    if PortnameError(ab).None? {
      forall i | 0 <= i < |a| ensures !Python.IsSpace(a[i]) { assert ab[i] == a[i]; }
      forall i | 0 <= i < |b| ensures !Python.IsSpace(b[i]) { assert ab[|a| + i] == b[i]; }
    }
  }
}
