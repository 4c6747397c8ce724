/**
 * The asset record: hostname and owner validation, asset-number assignment, and the network and power
 * ports an asset receives when it is first saved.
 */
module Assets {
  import opened Wrappers
  import Strings

  // ---------------------------------------------------------------- hostnames

  predicate IsLetter(c: char) {
    'A' <= c <= 'Z' || 'a' <= c <= 'z'
  }

  predicate IsLetDig(c: char) {
    IsLetter(c) || Strings.IsDigit(c)
  }

  predicate IsLetDigHyp(c: char) {
    IsLetDig(c) || c == '-'
  }

  /**
   * A full match of `[A-Za-z]([A-Za-z0-9-]{0,61}[A-Za-z0-9])?`: a letter, then optionally up to 61
   * letters, digits or hyphens closed by a letter or digit.
   */
  predicate MatchesHostnamePattern(s: string) {
    |s| >= 1 && IsLetter(s[0]) && (|s| == 1 || OptionalGroup(s[1..]))
  }

  /** The optional group `([A-Za-z0-9-]{0,61}[A-Za-z0-9])`. */
  predicate OptionalGroup(t: string) {
    1 <= |t| <= 62
    && (forall i :: 0 <= i < |t| - 1 ==> IsLetDigHyp(t[i]))
    && IsLetDig(t[|t| - 1])
  }

  /** `<ldh-str> ::= <let-dig-hyp> | <let-dig-hyp> <ldh-str>` (section 3.5 of RFC 1034). */
  predicate LdhStr(s: string)
    decreases |s|
  {
    |s| >= 1 && IsLetDigHyp(s[0]) && (|s| == 1 || LdhStr(s[1..]))
  }

  /**
   * `<label> ::= <letter> [ [ <ldh-str> ] <let-dig> ]`, at most 63 characters (section 3.5 of RFC 1034),
   * the grammar the hostname error message cites.
   */
  predicate Rfc1034Label(s: string) {
    1 <= |s| <= 63 && IsLetter(s[0])
    && (|s| == 1 || (IsLetDig(s[|s| - 1]) && (|s| == 2 || LdhStr(s[1..|s| - 1]))))
  }

  lemma {:induction false} LdhStrChars(s: string)
    ensures LdhStr(s) <==> |s| >= 1 && forall i :: 0 <= i < |s| ==> IsLetDigHyp(s[i])
    decreases |s|
  {
    if |s| > 1 {
      LdhStrChars(s[1..]);
      assert forall i :: 1 <= i < |s| ==> s[i] == s[1..][i - 1];
    }
  }

  /** The pattern accepts exactly the RFC 1034 labels. */
  lemma HostnamePatternIsRfc1034(s: string)
    ensures MatchesHostnamePattern(s) <==> Rfc1034Label(s)
  {
    if |s| > 2 {
      var t := s[1..];
      LdhStrChars(s[1..|s| - 1]);
      assert forall i :: 0 <= i < |t| - 1 ==> t[i] == s[1..|s| - 1][i];
    }
  }

  /** `validate_hostname`: no complaint about `None` or "", otherwise one for a value the pattern rejects. */
  function ValidateHostname(value: Option<string>): (error: Option<string>)
    ensures error.None? <==> value.None? || value.value == "" || MatchesHostnamePattern(value.value)
  {
    if value.Some? && value.value != "" && !MatchesHostnamePattern(value.value) then
      Some("'" + value.value + "' is not a valid hostname as it is not compliant with RFC 1034.")
    else None
  }

  lemma HostnameExamples()
    ensures ValidateHostname(Some("server-01")).None?
    ensures ValidateHostname(Some("1server")).Some?
    ensures ValidateHostname(Some("server-")).Some?
    ensures ValidateHostname(Some("a")).None?
  {
    AcceptedHostnames();
    RejectedHostnames();
  }

  /** "server-01" and "a" are valid labels. */
  lemma AcceptedHostnames()
    ensures ValidateHostname(Some("server-01")).None?
    ensures ValidateHostname(Some("a")).None?
  {
    assert "server-01"[1..] == "erver-01";
  }

  /** A label may not start with a digit nor end with a hyphen. */
  lemma RejectedHostnames()
    ensures ValidateHostname(Some("1server")).Some?
    ensures ValidateHostname(Some("server-")).Some?
  {
    assert "server-"[1..] == "erver-";
  }

  /** Nothing over 63 characters passes. */
  lemma LongHostnameRejected(s: string)
    requires |s| > 63
    ensures ValidateHostname(Some(s)).Some?
  {
  }

  /** `validate_owner`: no complaint about `None` or "", otherwise one for a name no user has. */
  function ValidateOwner(value: Option<string>, users: set<string>): (error: Option<string>)
    ensures error.None? <==> value.None? || value.value == "" || value.value in users
  {
    if value.Some? && value.value != "" && value.value !in users then
      Some("There is no existing user with the username '" + value.value + "'.")
    else None
  }

  // ---------------------------------------------------------------- asset numbers

  const FIRST_ASSET_NUMBER: int := 100000
  /** `range(100000, 999999)` stops before this number, so it is never handed out. */
  const ASSET_NUMBER_BOUND: int := 999999

  /** The least number from `n` on, below the bound, that no asset has. */
  function LeastUnusedFrom(used: set<int>, n: int): (r: Option<int>)
    ensures r.Some? ==> n <= r.value < ASSET_NUMBER_BOUND && r.value !in used
    ensures r.Some? ==> forall m :: n <= m < r.value ==> m in used
    ensures r.None? <==> forall m :: n <= m < ASSET_NUMBER_BOUND ==> m in used
    decreases ASSET_NUMBER_BOUND - n
  {
    if n >= ASSET_NUMBER_BOUND then None
    else if n !in used then Some(n)
    else LeastUnusedFrom(used, n + 1)
  }

  /** `get_next_available_asset_number`: the first number of 100000..999998 no asset has, `None` if all are taken. */
  method GetNextAvailableAssetNumber(used: set<int>) returns (r: Option<int>)
    ensures r == LeastUnusedFrom(used, FIRST_ASSET_NUMBER)
    ensures r.Some? ==> FIRST_ASSET_NUMBER <= r.value < ASSET_NUMBER_BOUND && r.value !in used
    ensures r.Some? ==> forall m :: FIRST_ASSET_NUMBER <= m < r.value ==> m in used
  {
    for assetNumber := FIRST_ASSET_NUMBER to ASSET_NUMBER_BOUND
      invariant LeastUnusedFrom(used, FIRST_ASSET_NUMBER) == LeastUnusedFrom(used, assetNumber)
    {
      if assetNumber !in used {
        return Some(assetNumber);
      }
    }
    return None;
  }

  /**
   * 999999 passes the field's validators but is never chosen: once 100000..999998 are taken there is no
   * next number, even when 999999 is free.
   */
  lemma LastNumberNeverChosen(used: set<int>)
    requires forall m :: FIRST_ASSET_NUMBER <= m < ASSET_NUMBER_BOUND ==> m in used
    ensures LeastUnusedFrom(used, FIRST_ASSET_NUMBER).None?
  {
  }

  /** A free number is always found while one of 100000..999998 is free, and it is no larger than any free one. */
  lemma NextNumberIsLeast(used: set<int>, free: int)
    requires FIRST_ASSET_NUMBER <= free < ASSET_NUMBER_BOUND && free !in used
    ensures LeastUnusedFrom(used, FIRST_ASSET_NUMBER).Some?
    ensures LeastUnusedFrom(used, FIRST_ASSET_NUMBER).value <= free
  {
  }

  // ---------------------------------------------------------------- ports

  /** The names of `n` power ports: "1" to "n". */
  function PowerPortNames(n: nat): (names: seq<string>)
    ensures |names| == n
    ensures forall i :: 0 <= i < n ==> names[i] == Strings.NatToString(i + 1)
  {
    seq(n, i requires 0 <= i < n => Strings.NatToString(i + 1))
  }

  /** Every power port name reads back as its position from 1, so no two ports share a name. */
  lemma PowerPortNamesDistinct(n: nat, i: nat, j: nat)
    requires i < n && j < n
    ensures Strings.DigitsValue(PowerPortNames(n)[i]) == i + 1
    ensures PowerPortNames(n)[i] == PowerPortNames(n)[j] ==> i == j
  {
    Strings.DigitsValueOfNatToString(i + 1);
    if PowerPortNames(n)[i] == PowerPortNames(n)[j] {
      Strings.NatToStringInjective(i + 1, j + 1);
    }
  }

  /** An asset: the fields `save` touches, its ports, and what its model says about ports. */
  class Asset {
    var hostname: Option<string>
    var owner: Option<string>
    var assetNumber: Option<int>
    /** the names of the network and power ports stored for this asset */
    var networkPorts: seq<string>
    var powerPorts: seq<string>
    /** `model.network_ports` and `model.num_power_ports` */
    const modelNetworkPorts: Option<seq<string>>
    const modelPowerPorts: nat

    constructor (hostname: Option<string>, owner: Option<string>, assetNumber: Option<int>,
                 modelNetworkPorts: Option<seq<string>>, modelPowerPorts: nat)
      ensures this.hostname == hostname && this.owner == owner && this.assetNumber == assetNumber
      ensures this.modelNetworkPorts == modelNetworkPorts && this.modelPowerPorts == modelPowerPorts
      ensures networkPorts == [] && powerPorts == []
    {
      this.hostname := hostname;
      this.owner := owner;
      this.assetNumber := assetNumber;
      this.modelNetworkPorts := modelNetworkPorts;
      this.modelPowerPorts := modelPowerPorts;
      networkPorts := [];
      powerPorts := [];
    }

    /** The network ports a first save creates: the model's names, if it has any. */
    function NewNetworkPorts(): seq<string>
      reads this
    {
      if networkPorts == [] && modelNetworkPorts.Some? && modelNetworkPorts.value != [] then modelNetworkPorts.value
      else networkPorts
    }

    /** The power ports a first save creates: "1" to the model's count. */
    function NewPowerPorts(): seq<string>
      reads this
    {
      if powerPorts == [] && modelPowerPorts > 0 then PowerPortNames(modelPowerPorts) else powerPorts
    }

    /** `add_network_ports`: only an asset with no network ports gets one per port name of its model. */
    method AddNetworkPorts()
      modifies this
      ensures networkPorts == old(NewNetworkPorts())
      ensures hostname == old(hostname) && owner == old(owner) && assetNumber == old(assetNumber)
      ensures powerPorts == old(powerPorts)
    {
      if networkPorts == [] && modelNetworkPorts.Some? && modelNetworkPorts.value != [] {
        var names := modelNetworkPorts.value;
        for i := 0 to |names|
          invariant networkPorts == names[..i]
          invariant hostname == old(hostname) && owner == old(owner) && assetNumber == old(assetNumber)
          invariant powerPorts == old(powerPorts)
        {
          assert names[..i + 1] == names[..i] + [names[i]];
          networkPorts := networkPorts + [names[i]];
        }
        assert names[..|names|] == names;
      }
    }

    /** `add_power_ports`: only an asset with no power ports gets ports "1" to `num_power_ports`. */
    method AddPowerPorts()
      modifies this
      ensures powerPorts == old(NewPowerPorts())
      ensures hostname == old(hostname) && owner == old(owner) && assetNumber == old(assetNumber)
      ensures networkPorts == old(networkPorts)
    {
      if powerPorts == [] && modelPowerPorts > 0 {
        for portIndex := 0 to modelPowerPorts
          invariant powerPorts == PowerPortNames(portIndex)
          invariant hostname == old(hostname) && owner == old(owner) && assetNumber == old(assetNumber)
          invariant networkPorts == old(networkPorts)
        {
          var portName := Strings.NatToString(portIndex + 1);
          powerPorts := powerPorts + [portName];
        }
      }
    }

    /** The validation error `save` raises, if any: the hostname is checked before the owner. */
    function SaveError(users: set<string>): Option<string>
      reads this
    {
      match ValidateHostname(hostname)
      case Some(e) => Some(e)
      case None => ValidateOwner(owner, users)
    }

    /**
     * `save`: after validation, an asset without a number gets the next free one (`used` holds the numbers
     * already taken), and a new asset gets its ports.
     */
    method Save(used: set<int>, users: set<string>) returns (error: Option<string>)
      modifies this
      ensures error == old(SaveError(users))
      ensures error.Some? ==> assetNumber == old(assetNumber) && networkPorts == old(networkPorts) && powerPorts == old(powerPorts)
      ensures error.None? ==> assetNumber == if old(assetNumber).None? then LeastUnusedFrom(used, FIRST_ASSET_NUMBER) else old(assetNumber)
      ensures error.None? ==> networkPorts == old(NewNetworkPorts()) && powerPorts == old(NewPowerPorts())
      ensures hostname == old(hostname) && owner == old(owner)
    {
      error := ValidateHostname(hostname);
      if error.Some? {
        return;
      }
      error := ValidateOwner(owner, users);
      if error.Some? {
        return;
      }
      if assetNumber.None? {
        assetNumber := GetNextAvailableAssetNumber(used);
      }
      AddNetworkPorts();
      AddPowerPorts();
    }
  }

  /** Saving twice assigns no second number and adds no second set of ports. */
  method SaveTwice(a: Asset, used: set<int>, users: set<string>) returns (first: Option<string>, second: Option<string>)
    modifies a
    ensures first.None? ==> second.None?
    ensures first.None? ==> a.assetNumber == (if old(a.assetNumber).None? then LeastUnusedFrom(used, FIRST_ASSET_NUMBER) else old(a.assetNumber))
    ensures first.None? && old(a.networkPorts) == [] && a.modelNetworkPorts.Some? ==> a.networkPorts == a.modelNetworkPorts.value
    ensures first.None? && old(a.powerPorts) == [] ==> a.powerPorts == PowerPortNames(a.modelPowerPorts)
  {
    first := a.Save(used, users);
    ghost var number, network, power := a.assetNumber, a.networkPorts, a.powerPorts;
    second := a.Save(used, users);
    if first.None? && number.Some? {
      assert a.assetNumber == number;
    }
  }
}
