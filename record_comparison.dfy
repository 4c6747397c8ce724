/**
 * `records_are_identical`: whether an imported record leaves an existing record as it is.
 * Both records are dicts of field values; the existing record drives the comparison.
 */
module RecordComparison {
  import opened Wrappers
  import opened Python
  import Strings

  /** The entries of a record, in dict order. */
  type Record = seq<(string, Value)>

  /**
   * What one existing field says: `Ok(true)` to go on comparing, `Ok(false)` for a difference, or the
   * error `int(incoming value)` raises when the existing value is an int.
   */
  function CompareField(key: string, existing: Value, incoming: Record): Result<bool, Error> {
    if !HasKey(incoming, key) && existing != VNone && key != "id" then Ok(false)
    else if HasKey(incoming, key) && !Eq(Lookup(incoming, key).value, existing) then
      if IsInt(existing) then
        match Int(Lookup(incoming, key).value)
        case Err(e) => Err(e)
        case Ok(n) => Ok(n == AsInt(existing))
      else Ok(false)
    else Ok(true)
  }

  /** Field `k` of `existing` gives `verdict`, and every field before it says `Ok(true)`. */
  predicate FirstVerdictAt(existing: Record, incoming: Record, k: int, verdict: Result<bool, Error>) {
    0 <= k < |existing| && CompareField(existing[k].0, existing[k].1, incoming) == verdict
    && forall j | 0 <= j < k :: CompareField(existing[j].0, existing[j].1, incoming) == Ok(true)
  }

  /** The fields of `existing` in order, stopping at the first one that does not say `Ok(true)`. */
  function RecordsAreIdentical(existing: Record, incoming: Record): (r: Result<bool, Error>)
    ensures r == Ok(true) <==> forall k | 0 <= k < |existing| :: CompareField(existing[k].0, existing[k].1, incoming) == Ok(true)
    ensures r != Ok(true) ==> exists k :: FirstVerdictAt(existing, incoming, k, r)
  {
    if existing == [] then Ok(true)
    else
      var first := CompareField(existing[0].0, existing[0].1, incoming);
      if first != Ok(true) then
        assert FirstVerdictAt(existing, incoming, 0, first);
        first
      else
        var rest := RecordsAreIdentical(existing[1..], incoming);
        if rest != Ok(true) then
          var k :| FirstVerdictAt(existing[1..], incoming, k, rest);
          FirstVerdictShift(existing, incoming, k, rest);
          rest
        else
          AllPassShift(existing, incoming);
          rest
  }

  /** A first verdict at `k` after a passing first field is the first verdict at `k + 1` of the whole record. */
  lemma FirstVerdictShift(existing: Record, incoming: Record, k: int, verdict: Result<bool, Error>)
    requires existing != [] && CompareField(existing[0].0, existing[0].1, incoming) == Ok(true)
    requires FirstVerdictAt(existing[1..], incoming, k, verdict)
    ensures FirstVerdictAt(existing, incoming, k + 1, verdict)
  {
    assert existing[k + 1] == existing[1..][k];
    forall j | 0 <= j < k + 1 ensures CompareField(existing[j].0, existing[j].1, incoming) == Ok(true) {
      if j > 0 {
        assert existing[j] == existing[1..][j - 1];
      }
    }
  }

  /** When the first field and every later field pass, every field of the record passes. */
  lemma AllPassShift(existing: Record, incoming: Record)
    requires existing != [] && CompareField(existing[0].0, existing[0].1, incoming) == Ok(true)
    requires forall k | 0 <= k < |existing| - 1 :: CompareField(existing[1..][k].0, existing[1..][k].1, incoming) == Ok(true)
    ensures forall k | 0 <= k < |existing| :: CompareField(existing[k].0, existing[k].1, incoming) == Ok(true)
  {
    forall k | 0 < k < |existing| ensures CompareField(existing[k].0, existing[k].1, incoming) == Ok(true) {
      assert existing[k] == existing[1..][k - 1];
    }
  }

  /**
   * The comparison stops at the first difference: a field missing from the import answers `False`
   * even when a later field would make `int()` raise.
   */
  lemma FirstDifferenceStops()
    ensures RecordsAreIdentical([("rack", VInt(1)), ("elevation", VInt(2))], [("elevation", VNone)]) == Ok(false)
    ensures RecordsAreIdentical([("elevation", VInt(2))], [("elevation", VNone)]) == Err(TypeError)
  {
    var incoming := [("elevation", VNone)];
    assert OccursKey(incoming, "elevation", 0);
    assert !HasKey(incoming, "rack");
    assert CompareField("rack", VInt(1), incoming) == Ok(false);
    assert CompareField("elevation", VInt(2), incoming) == Err(TypeError);
  }

  /** Keys of a record. */
  predicate IsKeyOf(m: Record, key: string) {
    exists i | 0 <= i < |m| :: m[i].0 == key
  }

  /** A field that is not `id`, holds a value, and is missing from the incoming record, makes them differ. */
  lemma MissingFieldDiffers(existing: Record, incoming: Record, k: nat)
    requires k < |existing| && existing[k].0 != "id" && existing[k].1 != VNone && !HasKey(incoming, existing[k].0)
    ensures RecordsAreIdentical(existing, incoming) != Ok(true)
  {
    assert CompareField(existing[k].0, existing[k].1, incoming) == Ok(false);
  }

  /** A shared field whose values differ makes the records differ, unless the existing value is an int that `int(incoming)` gives back. */
  lemma ChangedFieldDiffers(existing: Record, incoming: Record, k: nat)
    requires k < |existing| && HasKey(incoming, existing[k].0)
    requires !Eq(Lookup(incoming, existing[k].0).value, existing[k].1)
    requires !IsInt(existing[k].1) || Int(Lookup(incoming, existing[k].0).value) != Ok(AsInt(existing[k].1))
    ensures RecordsAreIdentical(existing, incoming) != Ok(true)
  {
    assert CompareField(existing[k].0, existing[k].1, incoming) != Ok(true);
  }

  /** A record is identical to itself. */
  lemma IdenticalToItself(m: Record)
    requires DistinctKeys(VDict(m))
    ensures RecordsAreIdentical(m, m) == Ok(true)
  {
    forall k | 0 <= k < |m| ensures CompareField(m[k].0, m[k].1, m) == Ok(true) {
      assert OccursKey(m, m[k].0, k);
      var j :| 0 <= j < |m| && OccursKey(m, m[k].0, j) && m[j].1 == Lookup(m, m[k].0).value;
      if j != k {
        assert m[if j < k then j else k].0 != m[if j < k then k else j].0;
      }
      EqReflexive(m[k].1);
    }
  }

  /** Adding a field the existing record lacks to the incoming record changes nothing. */
  lemma ExtraFieldIgnored(existing: Record, incoming: Record, key: string, v: Value)
    requires !IsKeyOf(existing, key)
    ensures RecordsAreIdentical(existing, incoming + [(key, v)]) == RecordsAreIdentical(existing, incoming)
  {
    forall k | 0 <= k < |existing|
      ensures CompareField(existing[k].0, existing[k].1, incoming + [(key, v)]) == CompareField(existing[k].0, existing[k].1, incoming)
    {
      assert existing[k].0 != key;
      LookupAppendOther(incoming, key, v, existing[k].0);
    }
    SameVerdicts(existing, incoming + [(key, v)], incoming);
  }

  /** Appending an entry for another key leaves a lookup as it was. */
  lemma {:induction false} LookupAppendOther(m: Record, key: string, v: Value, other: string)
    requires other != key
    ensures Lookup(m + [(key, v)], other) == Lookup(m, other)
    ensures HasKey(m + [(key, v)], other) == HasKey(m, other)
  {
    if m != [] {
      assert (m + [(key, v)])[1..] == m[1..] + [(key, v)];
      LookupAppendOther(m[1..], key, v, other);
    } else {
      assert Lookup([(key, v)], other) == None;
    }
  }

  /** Two incoming records on which every existing field gives the same verdict give the same answer. */
  lemma {:induction false} SameVerdicts(existing: Record, a: Record, b: Record)
    requires forall k | 0 <= k < |existing| :: CompareField(existing[k].0, existing[k].1, a) == CompareField(existing[k].0, existing[k].1, b)
    ensures RecordsAreIdentical(existing, a) == RecordsAreIdentical(existing, b)
  {
    if existing != [] {
      assert CompareField(existing[0].0, existing[0].1, a) == CompareField(existing[0].0, existing[0].1, b);
      var tail := existing[1..];
      forall k | 0 <= k < |tail| ensures CompareField(tail[k].0, tail[k].1, a) == CompareField(tail[k].0, tail[k].1, b) {
        assert tail[k] == existing[k + 1];
      }
      SameVerdicts(tail, a, b);
    }
  }

  /** An imported rack position "5" matches a stored 5: the int comparison coerces the text. */
  lemma NumberAsTextIsIdentical(key: string, n: int)
    ensures RecordsAreIdentical([(key, VInt(n))], [(key, VStr(Strings.IntToString(n)))]) == Ok(true)
  {
    var incoming: Record := [(key, VStr(Strings.IntToString(n)))];
    assert OccursKey(incoming, key, 0);
    IntOfIntToString(n);
  }

  /** A stored number against text that is not a number raises `ValueError` instead of answering. */
  lemma NumberAgainstWordRaises(key: string, n: int)
    ensures RecordsAreIdentical([(key, VInt(n))], [(key, VStr("x"))]) == Err(ValueError)
  {
    var incoming: Record := [(key, VStr("x"))];
    assert OccursKey(incoming, key, 0);
    assert Strip("x") == "x";
    assert !Strings.AllDigits("x");
  }
}
