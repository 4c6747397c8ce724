/** The pieces of Python's value semantics that the back end's logic relies on. */
module Python {
  import opened Wrappers
  import Strings

  /** A value read out of a parsed JSON request body or a Django record; a dict keeps its insertion order. */
  datatype Value =
    | VNone
    | VBool(b: bool)
    | VInt(i: int)
    | VStr(s: string)
    | VList(items: seq<Value>)
    | VDict(entries: seq<(string, Value)>)

  /** Exceptions: the built-in ones the code lets escape, and the ones it raises itself. */
  datatype Error =
    | ValueError
    | TypeError
    | KeyError(key: string)
    | ObjectDoesNotExist
    | Raised(message: string)

  /** `isinstance(v, int)`: `bool` is a subclass of `int`. */
  predicate IsInt(v: Value) {
    v.VInt? || v.VBool?
  }

  function AsInt(v: Value): int
    requires IsInt(v)
  {
    if v.VInt? then v.i else if v.b then 1 else 0
  }

  /**
   * Python `a == b`: `True == 1` and `False == 0` hold, lists compare element by element and
   * dicts key by key, whatever their insertion order.
   */
  predicate Eq(a: Value, b: Value)
    decreases a
  {
    if IsInt(a) && IsInt(b) then AsInt(a) == AsInt(b)
    else match a
      case VList(xs) => b.VList? && |xs| == |b.items|
        && forall k | 0 <= k < |xs| :: Eq(xs[k], b.items[k])
      case VDict(m) => b.VDict? && SameKeys(m, b.entries)
        && forall i, j | 0 <= i < |m| && 0 <= j < |b.entries| && m[i].0 == b.entries[j].0 :: Eq(m[i].1, b.entries[j].1)
      case _ => a == b
  }

  /** Every key of either dict is a key of the other. */
  predicate SameKeys(m: seq<(string, Value)>, n: seq<(string, Value)>) {
    (forall i | 0 <= i < |m| :: HasKey(n, m[i].0)) && (forall j | 0 <= j < |n| :: HasKey(m, n[j].0))
  }

  /** `==` is reflexive, also through nested lists and dicts (given distinct dict keys). */
  lemma {:induction false} EqReflexive(v: Value)
    requires DistinctKeys(v)
    ensures Eq(v, v)
    decreases v
  {
    match v
    case VList(xs) =>
      forall k | 0 <= k < |xs| ensures Eq(xs[k], xs[k]) {
        EqReflexive(xs[k]);
      }
    case VDict(m) =>
      forall i | 0 <= i < |m| ensures HasKey(m, m[i].0) {
        assert OccursKey(m, m[i].0, i);
      }
      forall i, j | 0 <= i < |m| && 0 <= j < |m| && m[i].0 == m[j].0 ensures Eq(m[i].1, m[j].1) {
        assert i == j;
        EqReflexive(m[i].1);
      }
    case _ =>
  }

  /** Dict keys are unique, at every depth. */
  predicate DistinctKeys(v: Value)
    decreases v
  {
    match v
    case VList(xs) => forall k | 0 <= k < |xs| :: DistinctKeys(xs[k])
    case VDict(m) =>
      (forall i, j | 0 <= i < j < |m| :: m[i].0 != m[j].0)
      && forall i | 0 <= i < |m| :: DistinctKeys(m[i].1)
    case _ => true
  }

  predicate OccursKey(m: seq<(string, Value)>, key: string, i: int) {
    0 <= i < |m| && m[i].0 == key
  }

  /** `key in d`. */
  predicate HasKey(m: seq<(string, Value)>, key: string) {
    exists i | 0 <= i < |m| :: OccursKey(m, key, i)
  }

  /** `d.get(key)`: the value stored under `key`. */
  function Lookup(m: seq<(string, Value)>, key: string): (r: Option<Value>)
    ensures r.Some? <==> HasKey(m, key)
    ensures r.Some? ==> exists i | 0 <= i < |m| :: OccursKey(m, key, i) && m[i].1 == r.value
  {
    if m == [] then None
    else if m[0].0 == key then
      assert OccursKey(m, key, 0);
      Some(m[0].1)
    else
      var r := Lookup(m[1..], key);
      assert forall i | 0 <= i < |m| - 1 :: OccursKey(m[1..], key, i) <==> OccursKey(m, key, i + 1);
      assert HasKey(m, key) ==> HasKey(m[1..], key) by {
        if HasKey(m, key) {
          var i :| 0 <= i < |m| && OccursKey(m, key, i);
          assert OccursKey(m[1..], key, i - 1);
        }
      }
      r
  }

  /** `key in container`: a key of a dict, an element of a list, a substring of a string. */
  function In(key: string, container: Value): Result<bool, Error> {
    match container
    case VDict(m) => Ok(HasKey(m, key))
    case VList(xs) => Ok(exists k | 0 <= k < |xs| :: Eq(VStr(key), xs[k]))
    case VStr(s) => Ok(Strings.IsSubstring(key, s))
    case _ => Err(TypeError)
  }

  /** `container[key]` with a string key: a `KeyError` for a missing dict key, a `TypeError` for any other container. */
  function GetItem(container: Value, key: string): Result<Value, Error> {
    match container
    case VDict(m) => (match Lookup(m, key) case Some(v) => Ok(v) case None => Err(KeyError(key)))
    case _ => Err(TypeError)
  }

  /** The items a `for` loop visits: list elements, dict keys in insertion order, the characters of a string. */
  function Iter(v: Value): Result<seq<Value>, Error> {
    match v
    case VList(xs) => Ok(xs)
    case VDict(m) => Ok(seq(|m|, i requires 0 <= i < |m| => VStr(m[i].0)))
    case VStr(s) => Ok(seq(|s|, i requires 0 <= i < |s| => VStr([s[i]])))
    case _ => Err(TypeError)
  }

  /** A dict of two entries answers a key with the first value stored under it. */
  lemma LookupOfTwo(a: (string, Value), b: (string, Value), key: string)
    ensures Lookup([a, b], key) == if a.0 == key then Some(a.1) else if b.0 == key then Some(b.1) else None
  {
    assert [a, b][1..] == [b];
    assert [b][1..] == [];
  }

  /** A dict of three entries answers a key with the first value stored under it. */
  lemma LookupOfThree(a: (string, Value), b: (string, Value), c: (string, Value), key: string)
    ensures Lookup([a, b, c], key)
         == if a.0 == key then Some(a.1) else if b.0 == key then Some(b.1) else if c.0 == key then Some(c.1) else None
  {
    assert [a, b, c][1..] == [b, c];
    LookupOfTwo(b, c, key);
  }

  /** `str.isspace` on the ASCII characters. */
  predicate IsSpace(c: char) {
    c == ' ' || 9 <= c as int <= 13 || 28 <= c as int <= 31
  }

  /** `s.strip()`. */
  function Strip(s: string): (r: string)
    ensures |r| <= |s|
    ensures r != [] ==> !IsSpace(r[0]) && !IsSpace(r[|r| - 1])
    decreases |s|
  {
    if |s| > 0 && IsSpace(s[0]) then Strip(s[1..])
    else if |s| > 0 && IsSpace(s[|s| - 1]) then Strip(s[..|s| - 1])
    else s
  }

  /** `int(s)` on a string: surrounding white space, one optional sign, then decimal digits. */
  function IntOfString(s: string): Option<int> {
    var t := Strip(s);
    var negative := |t| > 0 && t[0] == '-';
    var digits := if |t| > 0 && (t[0] == '-' || t[0] == '+') then t[1..] else t;
    if digits != [] && Strings.AllDigits(digits) then
      var n: int := Strings.DigitsValue(digits);
      Some(if negative then -n else n)
    else None
  }

  /** `int(v)`: a `ValueError` for a string that is not a number, a `TypeError` for `None`, lists and dicts. */
  function Int(v: Value): Result<int, Error> {
    match v
    case VInt(i) => Ok(i)
    case VBool(b) => Ok(if b then 1 else 0)
    case VStr(s) => (match IntOfString(s) case Some(n) => Ok(n) case None => Err(ValueError))
    case _ => Err(TypeError)
  }

  /** `int(str(i)) == i`: a number that travels as a string comes back unchanged. */
  lemma IntOfIntToString(i: int)
    ensures Int(VStr(Strings.IntToString(i))) == Ok(i)
  {
    var s := Strings.IntToString(i);
    var n: nat := if i < 0 then -i else i;
    var d := Strings.NatToString(n);
    assert !IsSpace(s[0]) && !IsSpace(s[|s| - 1]);
    assert Strip(s) == s;
    if i < 0 {
      assert s[1..] == d;
    }
    Strings.DigitsValueOfNatToString(n);
  }
}
