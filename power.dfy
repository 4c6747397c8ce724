/**
 * Power management views: the PDU name of a rack side, which PDU ports of a rack are still free,
 * and the checks and status reading of a blade-chassis power request.
 */
module Power {
  import opened Wrappers
  import opened Python
  import Strings
  import Lists

  // ---------------------------------------------------------------- PDU names

  /** `get_pdu_status_ext`: row letter, the rack number padded to two digits, then the side (`A1`, left: `A01L`). */
  function PduStatusExt(rowLetter: string, rackNum: int, leftRight: string): string {
    var rackStr := rowLetter;
    var rackStr := if rackNum < 10 then rackStr + "0" else rackStr;
    var rackStr := rackStr + Strings.IntToString(rackNum);
    rackStr + leftRight
  }

  /** For racks 0 to 99 the number takes exactly two digits, which read back as the rack number. */
  lemma PduStatusExtDigits(rowLetter: string, rackNum: int, leftRight: string)
    requires 0 <= rackNum < 100
    ensures var ext := PduStatusExt(rowLetter, rackNum, leftRight);
      |ext| == |rowLetter| + 2 + |leftRight|
      && ext[..|rowLetter|] == rowLetter
      && ext[|rowLetter| + 2..] == leftRight
      && Strings.AllDigits(ext[|rowLetter|..|rowLetter| + 2])
      && Strings.DigitsValue(ext[|rowLetter|..|rowLetter| + 2]) == rackNum
  {
    var ext := PduStatusExt(rowLetter, rackNum, leftRight);
    var d := Strings.NatToString(rackNum);
    Strings.DigitsValueOfNatToString(rackNum);
    var two := if rackNum < 10 then "0" + d else d;
    assert ext == rowLetter + two + leftRight;
    assert ext[|rowLetter|..|rowLetter| + 2] == two;
    if rackNum < 10 {
      assert two[..1] == "0" && two[1..] == d;
      assert Strings.DigitsValue(two) == Strings.DigitsValue("0") * 10 + Strings.DigitValue(d[0]);
    } else {
      assert d == Strings.NatToString(rackNum / 10) + [Strings.DigitChar(rackNum % 10)];
    }
  }

  /** The padded name of the first rack of row A, left side. */
  lemma PduStatusExtExample()
    ensures PduStatusExt("A", 1, "L") == "A01L"
    ensures PduStatusExt("B", 12, "R") == "B12R"
  {
    assert Strings.NatToString(12) == Strings.NatToString(1) + [Strings.DigitChar(2)];
  }

  // ---------------------------------------------------------------- free PDU ports

  /** The ports of each PDU. */
  const PDU_PORTS: nat := 24

  /** One power cable: the side of the rack's PDU pair (`"L"` or anything else for right) and the port number. */
  datatype PowerConnection = PowerConnection(leftRight: string, portNumber: int)

  predicate OnLeft(c: PowerConnection) {
    c.leftRight == "L"
  }

  /** `list(range(1, 25))`. */
  function AllPorts(): (s: seq<int>)
    ensures |s| == PDU_PORTS && forall i :: 0 <= i < |s| ==> s[i] == i + 1
  {
    seq(PDU_PORTS, i requires 0 <= i < PDU_PORTS => i + 1)
  }

  /** The free ports of both PDUs. */
  datatype Free = Free(left: seq<int>, right: seq<int>)

  /** The free list a connection takes its port from. */
  function SideOf(f: Free, c: PowerConnection): seq<int> {
    if OnLeft(c) then f.left else f.right
  }

  /** Taking a cable's port: `remove` from its side's list, or the port number that `remove` misses. */
  function Take(f: Free, c: PowerConnection): Result<Free, int> {
    if c.portNumber !in SideOf(f, c) then Err(c.portNumber)
    else if OnLeft(c) then Ok(Free(Lists.RemoveFirst(f.left, c.portNumber), f.right))
    else Ok(Free(f.left, Lists.RemoveFirst(f.right, c.portNumber)))
  }

  /** Taking the ports of the cables in order; the first port missing from its list stops everything. */
  function TakeAll(f: Free, cs: seq<PowerConnection>): Result<Free, int>
    decreases |cs|
  {
    if cs == [] then Ok(f)
    else match Take(f, cs[0])
      case Err(p) => Err(p)
      case Ok(g) => TakeAll(g, cs[1..])
  }

  lemma {:induction false} TakeAllAppend(f: Free, a: seq<PowerConnection>, b: seq<PowerConnection>)
    ensures TakeAll(f, a + b) == match TakeAll(f, a) case Err(p) => Err(p) case Ok(g) => TakeAll(g, b)
    decreases |a|
  {
    if a == [] {
      assert a + b == b;
    } else {
      assert (a + b)[0] == a[0] && (a + b)[1..] == a[1..] + b;
      if Take(f, a[0]).Ok? {
        TakeAllAppend(Take(f, a[0]).value, a[1..], b);
      }
    }
  }

  /** Taking the cables from position `i` on is taking cable `i`, then the rest. */
  lemma TakeAllStep(f: Free, cs: seq<PowerConnection>, i: nat)
    requires i < |cs|
    ensures TakeAll(f, cs[i..]) == match Take(f, cs[i]) case Err(p) => Err(p) case Ok(g) => TakeAll(g, cs[i + 1..])
  {
    assert cs[i..][0] == cs[i] && cs[i..][1..] == cs[i + 1..];
  }

  /** Release the ports of `cs` one cable at a time, as the loops over each asset's power ports do. */
  method TakePorts(f: Free, cs: seq<PowerConnection>) returns (r: Result<Free, int>)
    ensures r == TakeAll(f, cs)
  {
    var left := f.left;
    var right := f.right;
    var i := 0;
    while i < |cs|
      invariant 0 <= i <= |cs|
      invariant TakeAll(f, cs) == TakeAll(Free(left, right), cs[i..])
    {
      var c := cs[i];
      TakeAllStep(Free(left, right), cs, i);
      if c.leftRight == "L" {
        if c.portNumber !in left {
          assert Take(Free(left, right), c) == Err(c.portNumber);
          return Err(c.portNumber);
        }
        assert Take(Free(left, right), c) == Ok(Free(Lists.RemoveFirst(left, c.portNumber), right));
        left := Lists.RemoveFirst(left, c.portNumber);
      } else {
        if c.portNumber !in right {
          assert Take(Free(left, right), c) == Err(c.portNumber);
          return Err(c.portNumber);
        }
        assert Take(Free(left, right), c) == Ok(Free(left, Lists.RemoveFirst(right, c.portNumber)));
        right := Lists.RemoveFirst(right, c.portNumber);
      }
      i := i + 1;
    }
    assert cs[i..] == [];
    return Ok(Free(left, right));
  }

  /** What the availability view answers. */
  datatype Availability =
    | Available(left: seq<int>, right: seq<int>, suggest: int)
    | PortMissing(port: int)
    /** no port is free on both sides, so `suggest` is never bound and the view fails */
    | NoSuggestion

  /** The first port of `left` that is also free on the right. */
  function FirstCommon(left: seq<int>, right: seq<int>): (s: Option<int>)
    ensures s.Some? ==> s.value in left && s.value in right
    ensures s.None? <==> forall k :: 0 <= k < |left| ==> left[k] !in right
  {
    if left == [] then None
    else if left[0] in right then Some(left[0])
    else
      var s := FirstCommon(left[1..], right);
      assert forall k :: 1 <= k < |left| ==> left[k] == left[1..][k - 1];
      s
  }

  /** The answer for the cables of the live assets followed by those of the change plan's assets. */
  function AvailabilityOf(live: seq<PowerConnection>, planned: seq<PowerConnection>): Availability {
    match TakeAll(Free(AllPorts(), AllPorts()), live + planned)
    case Err(p) => PortMissing(p)
    case Ok(f) =>
      match FirstCommon(f.left, f.right)
      case None => NoSuggestion
      case Some(s) => Available(f.left, f.right, s)
  }

  /** The `for index in availableL` scan for the first port also in `availableR`. */
  method Suggest(left: seq<int>, right: seq<int>) returns (s: Option<int>)
    ensures s == FirstCommon(left, right)
  {
    var i := 0;
    while i < |left|
      invariant 0 <= i <= |left|
      invariant FirstCommon(left, right) == FirstCommon(left[i..], right)
    {
      assert left[i..][0] == left[i] && left[i..][1..] == left[i + 1..];
      if left[i] in right {
        return Some(left[i]);
      }
      i := i + 1;
    }
    return None;
  }

  /** `power_availability`: the live cables, then the change plan's cables, then the suggestion. */
  method PowerAvailability(live: seq<PowerConnection>, planned: seq<PowerConnection>) returns (a: Availability)
    ensures a == AvailabilityOf(live, planned)
  {
    var start := Free(AllPorts(), AllPorts());
    TakeAllAppend(start, live, planned);
    var afterLive := TakePorts(start, live);
    if afterLive.Err? {
      return PortMissing(afterLive.error);
    }
    var afterPlan := TakePorts(afterLive.value, planned);
    if afterPlan.Err? {
      return PortMissing(afterPlan.error);
    }
    var f := afterPlan.value;
    var suggest := Suggest(f.left, f.right);
    if suggest.None? {
      return NoSuggestion;
    }
    return Available(f.left, f.right, suggest.value);
  }

  /** Strictly increasing port numbers within 1..24. */
  predicate PortList(s: seq<int>) {
    (forall i, j :: 0 <= i < j < |s| ==> s[i] < s[j]) && forall i :: 0 <= i < |s| ==> 1 <= s[i] <= PDU_PORTS
  }

  lemma PortListDistinct(s: seq<int>)
    requires PortList(s)
    ensures Lists.Distinct(s)
  {
  }

  /** Removing a port from an increasing list of ports keeps it one. */
  lemma RemoveKeepsPortList(s: seq<int>, x: int)
    requires PortList(s)
    ensures PortList(Lists.RemoveFirst(s, x))
  {
    if x in s {
      Lists.RemoveFirstAtIndex(s, x);
      DeleteKeepsPortList(s, Lists.IndexOf(s, x));
    }
  }

  lemma DeleteKeepsPortList(s: seq<int>, i: nat)
    requires PortList(s) && i < |s|
    ensures PortList(s[..i] + s[i + 1..])
  {
    var r := s[..i] + s[i + 1..];
    forall a | 0 <= a < |r| ensures r[a] == s[if a < i then a else a + 1] {}
  }

  /** Each available list stays an increasing list of ports within 1..24. */
  lemma {:induction false} TakeAllKeepsPortLists(f: Free, cs: seq<PowerConnection>)
    requires PortList(f.left) && PortList(f.right)
    ensures TakeAll(f, cs).Ok? ==> PortList(TakeAll(f, cs).value.left) && PortList(TakeAll(f, cs).value.right)
    decreases |cs|
  {
    if cs != [] && Take(f, cs[0]).Ok? {
      RemoveKeepsPortList(f.left, cs[0].portNumber);
      RemoveKeepsPortList(f.right, cs[0].portNumber);
      TakeAllKeepsPortLists(Take(f, cs[0]).value, cs[1..]);
    }
  }

  /** A port number used by a cable on the given side. */
  predicate UsedOn(cs: seq<PowerConnection>, left: bool, p: int) {
    exists k | 0 <= k < |cs| :: OnLeft(cs[k]) == left && cs[k].portNumber == p
  }

  /** No two cables on the same side share a port. */
  predicate Distinct(cs: seq<PowerConnection>) {
    forall j, k | 0 <= j < k < |cs| :: OnLeft(cs[j]) == OnLeft(cs[k]) ==> cs[j].portNumber != cs[k].portNumber
  }

  /** Every cable's port is on the free list of its side, and no two cables on a side share a port. */
  predicate Claimable(f: Free, cs: seq<PowerConnection>) {
    Distinct(cs) && forall k | 0 <= k < |cs| :: cs[k].portNumber in SideOf(f, cs[k])
  }

  lemma RemoveMembers(s: seq<int>, x: int, y: int)
    requires Lists.Distinct(s)
    ensures y in Lists.RemoveFirst(s, x) <==> y in s && y != x
  {
    Lists.RemoveFirstDistinct(s, x);
    var r := Lists.RemoveFirst(s, x);
    if y != x {
      assert multiset(r)[y] == multiset(s)[y];
    }
  }

  /** One cable: the step succeeds exactly when its port is free, and then the port leaves its side's list. */
  lemma TakeMembers(f: Free, c: PowerConnection, y: int)
    requires Lists.Distinct(f.left) && Lists.Distinct(f.right)
    ensures Take(f, c).Ok? <==> c.portNumber in SideOf(f, c)
    ensures Take(f, c).Ok? ==> Lists.Distinct(Take(f, c).value.left) && Lists.Distinct(Take(f, c).value.right)
    ensures Take(f, c).Ok? ==>
      (y in Take(f, c).value.left <==> y in f.left && !(OnLeft(c) && y == c.portNumber))
    ensures Take(f, c).Ok? ==>
      (y in Take(f, c).value.right <==> y in f.right && !(!OnLeft(c) && y == c.portNumber))
  {
    RemoveMembers(f.left, c.portNumber, y);
    RemoveMembers(f.right, c.portNumber, y);
    Lists.RemoveFirstDistinct(f.left, c.portNumber);
    Lists.RemoveFirstDistinct(f.right, c.portNumber);
  }

  /** The claims of a list of cables after its first one, against the lists the first one leaves. */
  lemma ClaimableCons(f: Free, cs: seq<PowerConnection>)
    requires cs != [] && Lists.Distinct(f.left) && Lists.Distinct(f.right)
    requires Take(f, cs[0]).Ok?
    ensures Claimable(f, cs) <==> Claimable(Take(f, cs[0]).value, cs[1..])
  {
    var c, t, g := cs[0], cs[1..], Take(f, cs[0]).value;
    assert forall k | 1 <= k < |cs| :: cs[k] == t[k - 1];
    forall k | 0 <= k < |t|
      ensures (t[k].portNumber in SideOf(g, t[k])) <==> (t[k].portNumber in SideOf(f, t[k]) && !(OnLeft(c) == OnLeft(t[k]) && c.portNumber == t[k].portNumber))
    {
      TakeMembers(f, c, t[k].portNumber);
    }
    TakeMembers(f, c, c.portNumber);
    if Claimable(f, cs) {
      forall j, k | 0 <= j < k < |t| && OnLeft(t[j]) == OnLeft(t[k]) ensures t[j].portNumber != t[k].portNumber {
        assert cs[j + 1] == t[j] && cs[k + 1] == t[k];
      }
      forall k | 0 <= k < |t| ensures t[k].portNumber in SideOf(g, t[k]) {
        assert cs[0] == c && cs[k + 1] == t[k];
      }
    }
    if Claimable(g, t) {
      forall j, k | 0 <= j < k < |cs| && OnLeft(cs[j]) == OnLeft(cs[k]) ensures cs[j].portNumber != cs[k].portNumber {
        if j > 0 {
          assert cs[j] == t[j - 1] && cs[k] == t[k - 1];
        } else {
          assert cs[k] == t[k - 1];
        }
      }
    }
  }

  /** Taking all ports succeeds exactly when every cable can claim a free port of its own. */
  lemma {:induction false} TakeAllSucceedsIff(f: Free, cs: seq<PowerConnection>)
    requires Lists.Distinct(f.left) && Lists.Distinct(f.right)
    ensures TakeAll(f, cs).Ok? <==> Claimable(f, cs)
    decreases |cs|
  {
    if cs != [] {
      TakeMembers(f, cs[0], cs[0].portNumber);
      if Take(f, cs[0]).Ok? {
        ClaimableCons(f, cs);
        TakeAllSucceedsIff(Take(f, cs[0]).value, cs[1..]);
      } else {
        assert !(cs[0].portNumber in SideOf(f, cs[0]));
      }
    }
  }

  /** After taking all ports, a port is free on a side exactly when it was free there and no cable on that side uses it. */
  lemma {:induction false} TakeAllMembers(f: Free, cs: seq<PowerConnection>, y: int)
    requires Lists.Distinct(f.left) && Lists.Distinct(f.right)
    requires TakeAll(f, cs).Ok?
    ensures y in TakeAll(f, cs).value.left <==> y in f.left && !UsedOn(cs, true, y)
    ensures y in TakeAll(f, cs).value.right <==> y in f.right && !UsedOn(cs, false, y)
    decreases |cs|
  {
    if cs != [] {
      var c, t := cs[0], cs[1..];
      TakeMembers(f, c, y);
      var g := Take(f, c).value;
      TakeAllMembers(g, t, y);
      UsedOnCons(cs, true, y);
      UsedOnCons(cs, false, y);
    }
  }

  /** A port is used on a side by a list of cables exactly when the first cable or one of the rest uses it there. */
  lemma UsedOnCons(cs: seq<PowerConnection>, side: bool, y: int)
    requires cs != []
    ensures UsedOn(cs, side, y) <==> (OnLeft(cs[0]) == side && cs[0].portNumber == y) || UsedOn(cs[1..], side, y)
  {
    var t := cs[1..];
    if UsedOn(cs, side, y) {
      var k :| 0 <= k < |cs| && OnLeft(cs[k]) == side && cs[k].portNumber == y;
      if k > 0 {
        assert cs[k] == t[k - 1];
      }
    }
    if UsedOn(t, side, y) {
      var k :| 0 <= k < |t| && OnLeft(t[k]) == side && t[k].portNumber == y;
      assert cs[k + 1] == t[k];
    }
  }

  /**
   * The view answers with free lists exactly when every cable (live, then planned) used a port of 1..24
   * nobody else on its side used; the lists are then increasing and hold the unused ports of each side.
   */
  lemma AvailabilityTheorem(live: seq<PowerConnection>, planned: seq<PowerConnection>, y: int)
    ensures AvailabilityOf(live, planned).PortMissing? <==> !Claimable(Free(AllPorts(), AllPorts()), live + planned)
    ensures AvailabilityOf(live, planned).Available? ==>
      PortList(AvailabilityOf(live, planned).left) && PortList(AvailabilityOf(live, planned).right)
    ensures AvailabilityOf(live, planned).Available? ==>
      (y in AvailabilityOf(live, planned).left <==> 1 <= y <= PDU_PORTS && !UsedOn(live + planned, true, y))
    ensures AvailabilityOf(live, planned).Available? ==>
      (y in AvailabilityOf(live, planned).right <==> 1 <= y <= PDU_PORTS && !UsedOn(live + planned, false, y))
  {
    var start := Free(AllPorts(), AllPorts());
    assert PortList(AllPorts());
    PortListDistinct(AllPorts());
    TakeAllSucceedsIff(start, live + planned);
    TakeAllKeepsPortLists(start, live + planned);
    if TakeAll(start, live + planned).Ok? {
      TakeAllMembers(start, live + planned, y);
      if 1 <= y <= PDU_PORTS {
        assert AllPorts()[y - 1] == y;
      }
    }
  }

  /** The suggestion is the lowest port free on both sides. */
  lemma SuggestIsLowest(live: seq<PowerConnection>, planned: seq<PowerConnection>, y: int)
    requires AvailabilityOf(live, planned).Available?
    requires y in AvailabilityOf(live, planned).left && y in AvailabilityOf(live, planned).right
    ensures AvailabilityOf(live, planned).suggest <= y
  {
    AvailabilityTheorem(live, planned, y);
    var a := AvailabilityOf(live, planned);
    FirstCommonIsLowest(a.left, a.right, y);
  }

  lemma {:induction false} FirstCommonIsLowest(left: seq<int>, right: seq<int>, y: int)
    requires PortList(left) && y in left && y in right
    ensures FirstCommon(left, right).Some? && FirstCommon(left, right).value <= y
  {
    if left[0] !in right {
      assert left[1..] != [] && y in left[1..];
      FirstCommonIsLowest(left[1..], right, y);
    }
  }

  /** A cable on port 25, or two cables on one port of a side, make the view fail with that port. */
  lemma BadCables(c: PowerConnection)
    ensures AvailabilityOf([PowerConnection(c.leftRight, 25)], []) == PortMissing(25)
    ensures c.portNumber in AllPorts() ==> AvailabilityOf([c, c], []) == PortMissing(c.portNumber)
  {
    var start := Free(AllPorts(), AllPorts());
    assert [PowerConnection(c.leftRight, 25)] + [] == [PowerConnection(c.leftRight, 25)];
    assert 25 !in AllPorts();
    assert [c, c] + [] == [c, c];
    if c.portNumber in AllPorts() {
      PortListDistinct(AllPorts());
      TakeMembers(start, c, c.portNumber);
      var g := Take(start, c).value;
      assert [c, c][1..] == [c];
      assert TakeAll(start, [c, c]) == TakeAll(g, [c]);
      assert c.portNumber !in SideOf(g, c);
      assert TakeAll(g, [c]) == Err(c.portNumber);
    }
  }

  // ---------------------------------------------------------------- blade chassis requests

  /** What the view needs of a chassis asset record. */
  datatype Chassis = Chassis(hostname: string, isBladeChassis: bool, vendor: string)

  const BLADE_SLOTS: int := 14
  const MISSING_CHASSIS_PARAMETERS := "Must specify 'chassis_id' and 'blade_slot' on chassis power request."
  const CHASSIS_PARAMETERS_NOT_INT := "Parameters 'chassis_id' and 'blade_slot' must be of type int."
  const CHASSIS_DOES_NOT_EXIST := "Chassis does not exist."
  const NOT_BMI_CHASSIS := "Power is only network controllable for blade chassis of vendor 'BMI'."

  function NoSuchSlot(slot: int): string {
    "Blade slot " + Strings.IntToString(slot) + " does not exist on chassis."
  }

  /**
   * `get_chassis_power_request_parameters`: both keys, then both ints (`TypeError` escapes, `ValueError` is
   * reported), then the chassis, then vendor BMI, then the slot range.
   */
  function ChassisRequestParameters(data: Value, chassis: map<int, Chassis>): (r: Result<(string, int), Error>)
    ensures r.Ok? ==> 1 <= r.value.1 <= BLADE_SLOTS
    ensures r.Ok? ==> exists id | id in chassis ::
      (chassis[id].hostname == r.value.0 && chassis[id].isBladeChassis && chassis[id].vendor == "BMI")
    // the key checks and the int conversions come before the chassis is looked up
    ensures BothKeys(data).Err? ==> r == Err(BothKeys(data).error)
    ensures BothKeys(data) == Ok(false) ==> r == Err(Raised(MISSING_CHASSIS_PARAMETERS))
    ensures BothKeys(data) == Ok(true) && IntItemOf(data, "blade_slot").Err? ==>
      r == Err(NotInt(IntItemOf(data, "blade_slot").error))
    ensures BothKeys(data) == Ok(true) && IntItemOf(data, "blade_slot").Ok? && IntItemOf(data, "chassis_id").Err? ==>
      r == Err(NotInt(IntItemOf(data, "chassis_id").error))
    // with both ints in hand, the request is accepted exactly for a BMI blade chassis and a slot of 1..14
    ensures BothKeys(data) == Ok(true) && IntItemOf(data, "blade_slot").Ok? && IntItemOf(data, "chassis_id").Ok? ==>
      var slot, id := IntItemOf(data, "blade_slot").value, IntItemOf(data, "chassis_id").value;
      (r.Ok? <==> id in chassis && chassis[id].isBladeChassis && chassis[id].vendor == "BMI" && 1 <= slot <= BLADE_SLOTS)
      && (r.Ok? ==> r.value == (chassis[id].hostname, slot))
      && (id !in chassis ==> r == Err(Raised(CHASSIS_DOES_NOT_EXIST)))
  {
    match BothKeys(data)
    case Err(e) => Err(e)
    case Ok(present) =>
      if !present then Err(Raised(MISSING_CHASSIS_PARAMETERS))
      else match IntItemOf(data, "blade_slot")
        case Err(e) => Err(NotInt(e))
        case Ok(slot) =>
          match IntItemOf(data, "chassis_id")
          case Err(e) => Err(NotInt(e))
          case Ok(id) =>
            if id !in chassis then Err(Raised(CHASSIS_DOES_NOT_EXIST))
            else if !chassis[id].isBladeChassis || chassis[id].vendor != "BMI" then Err(Raised(NOT_BMI_CHASSIS))
            else if slot < 1 || slot > BLADE_SLOTS then Err(Raised(NoSuchSlot(slot)))
            else Ok((chassis[id].hostname, slot))
  }

  /** The `except ValueError` around the two conversions: a `ValueError` becomes the message, anything else escapes. */
  function NotInt(e: Error): (r: Error)
    ensures e == ValueError ==> r == Raised(CHASSIS_PARAMETERS_NOT_INT)
    ensures e != ValueError ==> r == e
  {
    if e == ValueError then Raised(CHASSIS_PARAMETERS_NOT_INT) else e
  }

  /** `'chassis_id' in data and 'blade_slot' in data`, evaluated left to right. */
  function BothKeys(data: Value): Result<bool, Error> {
    match In("chassis_id", data)
    case Err(e) => Err(e)
    case Ok(a) => if !a then Ok(false) else In("blade_slot", data)
  }

  /** `int(data[key])`. */
  function IntItemOf(data: Value, key: string): Result<int, Error> {
    match GetItem(data, key)
    case Err(e) => Err(e)
    case Ok(v) => Int(v)
  }

  /** A request naming an existing BMI blade chassis and a slot of 1..14 is accepted, whether the numbers come as ints or text. */
  lemma ChassisRequestAccepted(id: int, slot: int, chassis: map<int, Chassis>)
    requires id in chassis && chassis[id].isBladeChassis && chassis[id].vendor == "BMI" && 1 <= slot <= BLADE_SLOTS
    ensures ChassisRequestParameters(
      VDict([("chassis_id", VStr(Strings.IntToString(id))), ("blade_slot", VInt(slot))]), chassis)
      == Ok((chassis[id].hostname, slot))
  {
    var m := [("chassis_id", VStr(Strings.IntToString(id))), ("blade_slot", VInt(slot))];
    assert OccursKey(m, "chassis_id", 0);
    assert OccursKey(m, "blade_slot", 1);
    IntOfIntToString(id);
    assert BothKeys(VDict(m)) == Ok(true);
    assert IntItemOf(VDict(m), "blade_slot") == Ok(slot);
    assert IntItemOf(VDict(m), "chassis_id") == Ok(id);
  }

  /** The slot check comes last: slot 15 is reported only for a chassis that passed the other checks. */
  lemma ChassisSlotCheckedLast(id: int, chassis: map<int, Chassis>)
    ensures ChassisRequestParameters(VDict([("chassis_id", VInt(id)), ("blade_slot", VInt(15))]), chassis)
      == if id !in chassis then Err(Raised(CHASSIS_DOES_NOT_EXIST))
         else if !chassis[id].isBladeChassis || chassis[id].vendor != "BMI" then Err(Raised(NOT_BMI_CHASSIS))
         else Err(Raised(NoSuchSlot(15)))
  {
    var m := [("chassis_id", VInt(id)), ("blade_slot", VInt(15))];
    assert OccursKey(m, "chassis_id", 0);
    assert OccursKey(m, "blade_slot", 1);
  }

  /** The answers of the chassis status view. */
  datatype StatusResponse =
    | BadRequest(failureMessage: string)
    | Unreachable(failureMessage: string, errors: string)
    | PowerState(slot: string, state: string)

  const STATUS_ERROR := "ERROR: "
  const STATUS_CONNECTION := "CONNECTION ERROR: "
  const BCMAN_UNREACHABLE := "Unable to contact network controlled blade chassis power management."

  /**
   * `chassis_power_status`: the bcman call is the parameter `bcman`, mapping the chassis hostname and slot
   * text to the first output line (`None` when no output file appeared) and the exit status.
   */
  function ChassisPowerStatus(data: Value, chassis: map<int, Chassis>, bcman: (string, string) -> (Option<string>, int)): (r: Result<StatusResponse, Error>)
    ensures r.Ok? && r.value.PowerState? ==> r.value.state == "ON" || r.value.state == "OFF"
    // a refused request is a bad request carrying the refusal's message; other exceptions escape
    ensures ChassisRequestParameters(data, chassis).Err? ==>
      var e := ChassisRequestParameters(data, chassis).error;
      r == if e.Raised? then Ok(BadRequest(STATUS_ERROR + e.message)) else Err(e)
    // an accepted request reads the state off bcman's first line when bcman exits with 0
    ensures ChassisRequestParameters(data, chassis).Ok? ==>
      var (hostname, slot) := ChassisRequestParameters(data, chassis).value;
      var (result, exitStatus) := bcman(hostname, Strings.IntToString(slot));
      (exitStatus != 0 ==> r.Ok? && r.value.Unreachable?)
      && (exitStatus == 0 && result.Some? ==> r == ReadPowerState(Strings.IntToString(slot), result.value))
      && (exitStatus == 0 && result.None? ==> r == Err(TypeError))
  {
    match ChassisRequestParameters(data, chassis)
    case Err(Raised(m)) => Ok(BadRequest(STATUS_ERROR + m))
    case Err(e) => Err(e)
    case Ok((hostname, slot)) =>
      var (result, exitStatus) := bcman(hostname, Strings.IntToString(slot));
      if exitStatus != 0 then
        Ok(Unreachable(STATUS_CONNECTION + BCMAN_UNREACHABLE,
                       "Request to bcman exited with non-zero status: " + Strings.IntToString(exitStatus)))
      else if result.None? then Err(TypeError)
      else ReadPowerState(Strings.IntToString(slot), result.value)
  }

  /** The status line: "is ON" is looked for first, then "is OFF"; anything else is reported back. */
  function ReadPowerState(slot: string, result: string): (r: Result<StatusResponse, Error>)
    ensures r.Ok?
    ensures r.value.PowerState? <==> Strings.IsSubstring("is ON", result) || Strings.IsSubstring("is OFF", result)
    ensures r.value.PowerState? ==> r.value.slot == slot
    ensures r.value.PowerState? ==> (r.value.state == "ON" <==> Strings.IsSubstring("is ON", result))
    ensures r.value.Unreachable? ==> r.value.errors == "Power status returned as: " + result
  {
    if Strings.IsSubstring("is ON", result) then Ok(PowerState(slot, "ON"))
    else if Strings.IsSubstring("is OFF", result) then Ok(PowerState(slot, "OFF"))
    else Ok(Unreachable(STATUS_CONNECTION + BCMAN_UNREACHABLE, "Power status returned as: " + result))
  }

  /** A nonzero exit status is a connection failure whatever bcman printed. */
  lemma NonzeroExitIsUnreachable(data: Value, chassis: map<int, Chassis>, bcman: (string, string) -> (Option<string>, int))
    requires ChassisRequestParameters(data, chassis).Ok?
    requires bcman(ChassisRequestParameters(data, chassis).value.0, Strings.IntToString(ChassisRequestParameters(data, chassis).value.1)).1 != 0
    ensures ChassisPowerStatus(data, chassis, bcman).Ok? && ChassisPowerStatus(data, chassis, bcman).value.Unreachable?
  {
  }

  /** A line mentioning both states reads as ON. */
  lemma OnWinsOverOff(slot: string)
    ensures ReadPowerState(slot, "is OFF, is ON") == Ok(PowerState(slot, "ON"))
  {
    assert Strings.OccursAt("is ON", "is OFF, is ON", 8);
  }
}
