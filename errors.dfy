/** The failure messages the back end builds: rack lists, serializer errors and validation errors. */
module Errors {
  import Strings

  const UNKNOWN := "Unknown internal error."

  /** How many racks a rack failure message names at most. */
  const RACKS_SHOWN: nat := 5

  /** The two fields of a rack a message names. */
  datatype Rack = Rack(rowLetter: string, rackNum: int)

  function RackName(r: Rack): string {
    r.rowLetter + Strings.IntToString(r.rackNum)
  }

  /** `get_rack_list`: the rack names in order, separated by ", ". */
  function RackList(racks: seq<Rack>): (s: string)
    ensures forall k :: 0 <= k < |racks| ==> Strings.IsSubstring(RackName(racks[k]), s)
  {
    var names := RackNames(racks);
    forall k | 0 <= k < |racks| ensures Strings.IsSubstring(RackName(racks[k]), Strings.Join(", ", names)) {
      Strings.PartInJoin(", ", names, k);
    }
    Strings.Join(", ", names)
  }

  /** The names of the racks in order. */
  function RackNames(racks: seq<Rack>): (names: seq<string>)
    ensures |names| == |racks| && forall k :: 0 <= k < |racks| ==> names[k] == RackName(racks[k])
  {
    seq(|racks|, k requires 0 <= k < |racks| => RackName(racks[k]))
  }

  /**
   * The list reads rack by rack in order, names separated by ", ": a single rack is its name, and
   * two stretches of racks give their lists joined by ", ".
   */
  lemma RackListOrder(a: seq<Rack>, b: seq<Rack>)
    ensures |a| == 1 ==> RackList(a) == RackName(a[0])
    ensures |a| > 0 && |b| > 0 ==> RackList(a + b) == RackList(a) + ", " + RackList(b)
  {
    if |a| > 0 && |b| > 0 {
      assert RackNames(a + b) == RackNames(a) + RackNames(b);
      Strings.JoinAppend(", ", RackNames(a), RackNames(b));
    }
  }

  /** The racks a message names: all of them below five, otherwise the first five. */
  function Shown<T>(items: seq<T>): (s: seq<T>)
    ensures |s| == if |items| < RACKS_SHOWN then |items| else RACKS_SHOWN
    ensures s == items[..|s|]
  {
    if |items| < RACKS_SHOWN then items else items[..RACKS_SHOWN]
  }

  /** The shared shape: a short list in full, or "at least" the first five followed by ", ...". */
  function Truncated(verb: string, list: string, truncated: bool): string {
    if !truncated then " because the following racks " + verb + ": " + list
    else " because at least the following racks " + verb + ": " + list + ", ..."
  }

  /** `get_rack_exist_failure`. */
  function RackExistFailure(racks: seq<Rack>): string {
    Truncated("already exist", RackList(Shown(racks)), |racks| >= RACKS_SHOWN)
  }

  /** `get_rack_do_not_exist_failure`, which is given names rather than racks. */
  function RackDoNotExistFailure(rackNames: seq<string>): string {
    Truncated("do not exist", Strings.Join(", ", Shown(rackNames)), |rackNames| >= RACKS_SHOWN)
  }

  /** `get_rack_with_asset_failure`. */
  function RackWithAssetFailure(racks: seq<Rack>): string {
    Truncated("contain assets", RackList(Shown(racks)), |racks| >= RACKS_SHOWN)
  }

  predicate EndsWith(s: string, suffix: string) {
    |suffix| <= |s| && s[|s| - |suffix|..] == suffix
  }

  lemma TruncatedShape(verb: string, list: string, truncated: bool)
    ensures truncated ==> EndsWith(Truncated(verb, list, truncated), ", ...")
    ensures Strings.IsSubstring(list, Truncated(verb, list, truncated))
    ensures Strings.IsSubstring("at least", Truncated(verb, list, truncated)) <== truncated
  {
    var m := Truncated(verb, list, truncated);
    if truncated {
      var head := " because at least the following racks " + verb + ": ";
      assert m == head + list + ", ...";
      assert m[|head|..|head| + |list|] == list;
      assert Strings.OccursAt(list, m, |head|);
      var opening := " because at least";
      assert opening[9..17] == "at least";
      assert m[..17] == opening;
      assert m[9..17] == opening[9..17];
      assert Strings.OccursAt("at least", m, 9);
    } else {
      var head := " because the following racks " + verb + ": ";
      assert m[|head|..|head| + |list|] == list;
      assert Strings.OccursAt(list, m, |head|);
    }
  }

  /**
   * The three messages name each of the first five racks (all of them when there are fewer), and from five
   * racks on they say "at least" and end in ", ...".
   */
  lemma RackMessagesShowFirstFive(racks: seq<Rack>, names: seq<string>, k: nat)
    ensures k < |Shown(racks)| ==> Strings.IsSubstring(RackName(racks[k]), RackExistFailure(racks))
    ensures k < |Shown(racks)| ==> Strings.IsSubstring(RackName(racks[k]), RackWithAssetFailure(racks))
    ensures k < |Shown(names)| ==> Strings.IsSubstring(names[k], RackDoNotExistFailure(names))
    ensures |racks| >= RACKS_SHOWN ==>
      (EndsWith(RackExistFailure(racks), ", ...") && EndsWith(RackWithAssetFailure(racks), ", ...")
       && Strings.IsSubstring("at least", RackExistFailure(racks))
       && Strings.IsSubstring("at least", RackWithAssetFailure(racks)))
    ensures |names| >= RACKS_SHOWN ==>
      (EndsWith(RackDoNotExistFailure(names), ", ...") && Strings.IsSubstring("at least", RackDoNotExistFailure(names)))
  {
    var list := RackList(Shown(racks));
    var nameList := Strings.Join(", ", Shown(names));
    TruncatedShape("already exist", list, |racks| >= RACKS_SHOWN);
    TruncatedShape("contain assets", list, |racks| >= RACKS_SHOWN);
    TruncatedShape("do not exist", nameList, |names| >= RACKS_SHOWN);
    if k < |Shown(racks)| {
      assert Shown(racks)[k] == racks[k];
      Strings.SubstringTransitive(RackName(racks[k]), list, RackExistFailure(racks));
      Strings.SubstringTransitive(RackName(racks[k]), list, RackWithAssetFailure(racks));
    }
    if k < |Shown(names)| {
      Strings.PartInJoin(", ", Shown(names), k);
      assert Shown(names)[k] == names[k];
      Strings.SubstringTransitive(names[k], nameList, RackDoNotExistFailure(names));
    }
  }

  /** Racks after the fifth do not change a message. */
  lemma RacksAfterFifthIgnored(a: seq<Rack>, b: seq<Rack>)
    requires |a| >= RACKS_SHOWN && |b| >= RACKS_SHOWN && a[..RACKS_SHOWN] == b[..RACKS_SHOWN]
    ensures RackExistFailure(a) == RackExistFailure(b)
    ensures RackWithAssetFailure(a) == RackWithAssetFailure(b)
  {
  }

  // ---------------------------------------------------------------- serializer and validation errors

  /** One numbered entry: `(k) field: e1 e2 ...`. */
  function SerializerEntry(k: nat, field: string, fieldErrors: seq<string>): string {
    "(" + Strings.NatToString(k) + ") " + field + ": " + Strings.Join(" ", fieldErrors)
  }

  /** The entries of the fields in order, numbered from 1. */
  function SerializerEntries(errors: seq<(string, seq<string>)>): (entries: seq<string>)
    ensures |entries| == |errors|
    ensures forall k :: 0 <= k < |errors| ==> entries[k] == SerializerEntry(k + 1, errors[k].0, errors[k].1)
  {
    seq(|errors|, k requires 0 <= k < |errors| => SerializerEntry(k + 1, errors[k].0, errors[k].1))
  }

  /** `parse_serializer_errors` with its counter and list of messages. */
  method ParseSerializerErrors(errors: seq<(string, seq<string>)>) returns (message: string)
    ensures message == Strings.Join(" ", SerializerEntries(errors))
  {
    var failureMessages: seq<string> := [];
    var errorNum := 0;
    for i := 0 to |errors|
      invariant errorNum == i
      invariant failureMessages == SerializerEntries(errors[..i])
    {
      errorNum := errorNum + 1;
      var (field, fieldErrors) := errors[i];
      failureMessages := failureMessages + [SerializerEntry(errorNum, field, fieldErrors)];
    }
    assert errors[..|errors|] == errors;
    message := Strings.Join(" ", failureMessages);
  }

  /** No field errors give the empty message; otherwise every field's entry appears with its number. */
  lemma SerializerMessageNamesEveryField(errors: seq<(string, seq<string>)>, k: nat)
    ensures errors == [] ==> Strings.Join(" ", SerializerEntries(errors)) == ""
    ensures k < |errors| ==> Strings.IsSubstring(SerializerEntry(k + 1, errors[k].0, errors[k].1), Strings.Join(" ", SerializerEntries(errors)))
  {
    if k < |errors| {
      Strings.PartInJoin(" ", SerializerEntries(errors), k);
    }
  }

  /** An exception as `parse_validation_error` sees it: a `ValidationError` with its messages, or anything else. */
  datatype Caught = ValidationError(messages: seq<string>) | OtherException

  /** The messages run together. */
  function Concat(parts: seq<string>): string {
    if parts == [] then "" else Concat(parts[..|parts| - 1]) + parts[|parts| - 1]
  }

  /** `parse_validation_error`: the messages of a validation error concatenated, otherwise the unknown-error text. */
  method ParseValidationError(error: Caught) returns (detail: string)
    ensures error.OtherException? ==> detail == UNKNOWN
    ensures error.ValidationError? ==> detail == Concat(error.messages)
  {
    detail := "";
    if error.ValidationError? {
      var messages := error.messages;
      for i := 0 to |messages|
        invariant detail == Concat(messages[..i])
      {
        assert messages[..i + 1][..i] == messages[..i];
        detail := detail + messages[i];
      }
      assert messages[..|messages|] == messages;
    } else {
      detail := UNKNOWN;
    }
  }

  /** The concatenation holds each message in turn, and is exactly as long as they are together. */
  lemma {:induction false} ConcatHoldsMessages(parts: seq<string>, k: nat)
    ensures k < |parts| ==> Strings.IsSubstring(parts[k], Concat(parts))
    ensures |Concat(parts)| == TotalLength(parts)
  {
    if parts != [] {
      var init := parts[..|parts| - 1];
      ConcatHoldsMessages(init, k);
      var c := Concat(parts);
      if k == |parts| - 1 {
        assert c[|Concat(init)|..|Concat(init)| + |parts[k]|] == parts[k];
        assert Strings.OccursAt(parts[k], c, |Concat(init)|);
      } else if k < |parts| - 1 {
        assert init[k] == parts[k];
        var i :| 0 <= i <= |Concat(init)| && Strings.OccursAt(parts[k], Concat(init), i);
        assert c[i..i + |parts[k]|] == Concat(init)[i..i + |parts[k]|];
        assert Strings.OccursAt(parts[k], c, i);
      }
    }
  }

  function TotalLength(parts: seq<string>): nat {
    if parts == [] then 0 else TotalLength(parts[..|parts| - 1]) + |parts[|parts| - 1]|
  }
}
