/**
 * Network ports: normalising MAC addresses, and connecting two ports to each other so that
 * each names the other as its partner.
 */
module NetworkPorts {
  import opened Wrappers
  import Strings
  import Python
  import Lists

  // ---------------------------------------------------------------- MAC addresses

  /** `zip(s[::2], s[1::2])` joined per pair: the two-character pieces, an odd last character dropped. */
  function Pairs(s: string): (r: seq<string>)
    ensures |r| == |s| / 2
    ensures forall k :: 0 <= k < |r| ==> r[k] == s[2 * k..2 * k + 2]
    decreases |s|
  {
    if |s| < 2 then []
    else
      var rest := Pairs(s[2..]);
      assert forall k :: 0 <= k < |rest| ==> s[2..][2 * k..2 * k + 2] == s[2 * (k + 1)..2 * (k + 1) + 2] by {
        forall k | 0 <= k < |rest| {
          Lists.DropSlice(s, 2, 2 * k, 2 * k + 2);
        }
      }
      [s[..2]] + rest
  }

  /** `format_mac_address` as written: lower-case, `-` turned into `:`, then pairs joined with `-`. */
  function FormatMacAddress(mac: string): string {
    Strings.Join("-", Pairs(Strings.ReplaceChar(Strings.Lower(mac), '-', ':')))
  }

  /** A join of `n` two-character pieces with `-` is `3n - 1` characters long. */
  lemma {:induction false} JoinPairsLength(parts: seq<string>)
    requires forall k :: 0 <= k < |parts| ==> |parts[k]| == 2
    ensures |Strings.Join("-", parts)| == if parts == [] then 0 else 3 * |parts| - 1
    decreases |parts|
  {
    if |parts| > 1 {
      JoinPairsLength(parts[1..]);
    }
  }

  /** As written, a 12-character address gives 17 characters and an odd last character is dropped. */
  lemma FormatMacAddressLength(mac: string)
    ensures |FormatMacAddress(mac)| == if |mac| < 2 then 0 else 3 * (|mac| / 2) - 1
  {
    var p := Pairs(Strings.ReplaceChar(Strings.Lower(mac), '-', ':'));
    JoinPairsLength(p);
  }

  /**
   * As written the formatter is not idempotent: it turns its own `-` into `:` and pairs across it.
   * Connecting a port a second time therefore turns "ab-cd" into "ab-:c".
   */
  lemma FormatMacAddressNotIdempotent()
    ensures FormatMacAddress("abcd") == "ab-cd"
    ensures FormatMacAddress(FormatMacAddress("abcd")) == "ab-:c"
  {
    assert Strings.Lower("abcd") == "abcd";
    assert Strings.ReplaceChar("abcd", '-', ':') == "abcd";
    assert "abcd"[..2] == "ab" && "abcd"[2..] == "cd" && "cd"[..2] == "cd" && "cd"[2..] == "";
    assert Pairs("abcd") == ["ab", "cd"];
    assert Strings.Lower("ab-cd") == "ab-cd";
    assert Strings.ReplaceChar("ab-cd", '-', ':') == "ab:cd";
    assert "ab:cd"[..2] == "ab" && "ab:cd"[2..] == ":cd" && ":cd"[..2] == ":c" && ":cd"[2..] == "d";
    assert Pairs("ab:cd") == ["ab", ":c"];
  }

  /** A full formatted address, formatted again, no longer fits the 17-character column. */
  lemma FormatMacAddressTwiceOverflows(mac: string)
    requires |mac| == 12
    ensures |FormatMacAddress(mac)| == 17
    ensures |FormatMacAddress(FormatMacAddress(mac))| == 23
  {
    FormatMacAddressLength(mac);
    FormatMacAddressLength(FormatMacAddress(mac));
  }

  predicate IsDelimiter(c: char) {
    c == '-' || c == ':'
  }

  /** The characters of `s` that are not `-` or `:`. */
  function DropDelimiters(s: string): (r: string)
    ensures |r| <= |s|
    ensures forall i :: 0 <= i < |r| ==> !IsDelimiter(r[i])
  {
    if s == [] then [] else (if IsDelimiter(s[0]) then [] else [s[0]]) + DropDelimiters(s[1..])
  }

  /** The corrected formatter: lower-case, delimiters removed, pairs joined with `-`. */
  function FormatMac(mac: string): string {
    Strings.Join("-", Pairs(DropDelimiters(Strings.Lower(mac))))
  }

  predicate NoDelimiters(s: string) {
    forall i :: 0 <= i < |s| ==> !IsDelimiter(s[i])
  }

  /** On an address typed without delimiters the corrected formatter does what the original does. */
  lemma FormatMacAgrees(mac: string)
    requires NoDelimiters(mac)
    ensures FormatMac(mac) == FormatMacAddress(mac)
  {
    var l := Strings.Lower(mac);
    assert NoDelimiters(l);
    DropNothing(l);
    assert Strings.ReplaceChar(l, '-', ':') == l;
  }

  lemma {:induction false} DropNothing(s: string)
    requires NoDelimiters(s)
    ensures DropDelimiters(s) == s
  {
    if s != [] {
      DropNothing(s[1..]);
      assert s == [s[0]] + s[1..];
    }
  }

  lemma {:induction false} DropAppend(a: string, b: string)
    ensures DropDelimiters(a + b) == DropDelimiters(a) + DropDelimiters(b)
  {
    if a == [] {
      assert a + b == b;
    } else {
      assert (a + b)[0] == a[0] && (a + b)[1..] == a[1..] + b;
      DropAppend(a[1..], b);
    }
  }

  /** Removing the delimiters of a formatted address gives back its pairs' characters. */
  lemma {:induction false} DropJoinPairs(t: string)
    requires NoDelimiters(t)
    ensures DropDelimiters(Strings.Join("-", Pairs(t))) == t[..|t| / 2 * 2]
    decreases |t|
  {
    var p := Pairs(t);
    if |t| < 2 {
    } else if |t| < 4 {
      assert p == [t[..2]];
      DropNothing(t[..2]);
    } else {
      var rest := t[2..];
      assert p[1..] == Pairs(rest);
      DropJoinPairs(rest);
      assert Strings.Join("-", p) == t[..2] + "-" + Strings.Join("-", Pairs(rest));
      DropAppend(t[..2] + "-", Strings.Join("-", Pairs(rest)));
      DropAppend(t[..2], "-");
      DropNothing(t[..2]);
      assert t[..|t| / 2 * 2] == t[..2] + rest[..|rest| / 2 * 2];
    }
  }

  /** No character changes under lower-casing. */
  predicate LowerFixed(s: string) {
    forall i :: 0 <= i < |s| ==> Strings.LowerChar(s[i]) == s[i]
  }

  lemma {:induction false} DropKeepsLowerFixed(s: string)
    requires LowerFixed(s)
    ensures LowerFixed(DropDelimiters(s))
  {
    if s != [] {
      DropKeepsLowerFixed(s[1..]);
    }
  }

  lemma {:induction false} JoinPairsLowerFixed(t: string)
    requires LowerFixed(t)
    ensures LowerFixed(Strings.Join("-", Pairs(t)))
    decreases |t|
  {
    if |t| >= 4 {
      assert Pairs(t)[1..] == Pairs(t[2..]);
      JoinPairsLowerFixed(t[2..]);
    }
  }

  /** Pairing ignores an odd last character. */
  lemma {:induction false} PairsOfEven(t: string)
    ensures Pairs(t[..|t| / 2 * 2]) == Pairs(t)
    decreases |t|
  {
    if |t| >= 2 {
      var e := t[..|t| / 2 * 2];
      PairsOfEven(t[2..]);
      assert e[2..] == t[2..][..|t[2..]| / 2 * 2];
      assert e[..2] == t[..2];
    }
  }

  /** The corrected formatter leaves a formatted address as it is, so reconnecting is harmless. */
  lemma FormatMacIdempotent(mac: string)
    ensures FormatMac(FormatMac(mac)) == FormatMac(mac)
  {
    var t := DropDelimiters(Strings.Lower(mac));
    assert LowerFixed(Strings.Lower(mac));
    DropKeepsLowerFixed(Strings.Lower(mac));
    var j := FormatMac(mac);
    JoinPairsLowerFixed(t);
    assert Strings.Lower(j) == j;
    DropJoinPairs(t);
    PairsOfEven(t);
  }

  /** Twelve characters besides the delimiters, however they were delimited, come out as 17 characters. */
  lemma FormatMacLength(mac: string)
    requires |DropDelimiters(Strings.Lower(mac))| == 12
    ensures |FormatMac(mac)| == 17
  {
    JoinPairsLength(Pairs(DropDelimiters(Strings.Lower(mac))));
  }

  // ---------------------------------------------------------------- connections

  /**
   * A network port of an asset; `hostname` is its asset's hostname, which the asset may lack, and
   * `connected` is the port at the other end of its cable.
   */
  class NetworkPort {
    const hostname: Option<string>
    const portName: string
    var macAddress: Option<string>
    var connected: NetworkPort?

    constructor (hostname: Option<string>, portName: string, macAddress: Option<string>)
      ensures this.hostname == hostname && this.portName == portName
      ensures this.macAddress == macAddress && connected == null
    {
      this.hostname := hostname;
      this.portName := portName;
      this.macAddress := macAddress;
      connected := null;
    }

    /** `host:port`, as the error messages name a port; `None` where the asset has no hostname. */
    function Label(): (r: Option<string>)
      ensures r.Some? <==> hostname.Some?
      ensures r.Some? ==> r.value == hostname.value + ":" + portName
    {
      match hostname
      case None => None
      case Some(h) => Some(h + ":" + portName)
    }

    /** `delete_network_connection`: without a partner nothing happens; otherwise both ends are cleared. */
    method DeleteNetworkConnection()
      modifies this, connected
      ensures connected == null
      ensures old(connected) != null ==> old(connected).connected == null
      ensures macAddress == old(macAddress)
      ensures old(connected) != null && old(connected) != this ==> old(connected).macAddress == old(connected.macAddress)
    {
      var destination := connected;
      if destination == null {
        return;
      }
      connected := null;
      destination.connected := null;
    }

    /**
     * `create_network_connection`: refuses, changing nothing, a destination already wired to another port,
     * with a `NetworkConnectionException` naming both ends, or with the `TypeError` of adding a missing
     * hostname to a string; otherwise drops this port's old cable, reformats its MAC address with
     * `format_mac_address` as written and wires the two ports together.
     */
    method CreateNetworkConnection(destination: NetworkPort) returns (error: Option<Python.Error>)
      modifies this, destination, connected
      ensures error.Some? <==> old(destination.connected) != null && old(destination.connected) != this
      ensures error.Some? ==> error.value == Refusal(destination, old(destination.connected))
      ensures error.Some? ==> connected == old(connected) && macAddress == old(macAddress)
      ensures error.Some? ==> destination.connected == old(destination.connected)
      ensures error.Some? && old(connected) != null ==> old(connected).connected == old(connected.connected)
      ensures error.None? ==> connected == destination && destination.connected == this
      ensures error.None? ==> macAddress == MapMac(old(macAddress))
      ensures error.None? && old(connected) != null && old(connected) != destination && old(connected) != this
        ==> old(connected).connected == null
      ensures destination != this ==> destination.macAddress == old(destination.macAddress)
      ensures old(connected) != null && old(connected) != this ==> old(connected).macAddress == old(connected.macAddress)
    {
      if destination.connected != null && destination.connected != this {
        var partner := destination.connected;
        if destination.hostname.None? || partner.hostname.None? {
          return Some(Python.TypeError);
        }
        return Some(Python.Raised(AlreadyConnected(destination.Label().value, partner.Label().value)));
      }
      if connected != null {
        DeleteNetworkConnection();
      }
      if macAddress.Some? {
        macAddress := Some(FormatMacAddress(macAddress.value));
      }
      connected := destination;
      destination.connected := this;
      return None;
    }
  }

  /**
   * The exception of a refused connect: the message naming the destination and its partner, or a
   * `TypeError` when either asset has no hostname.
   */
  function Refusal(destination: NetworkPort, partner: NetworkPort): (e: Python.Error)
    ensures e.Raised? <==> destination.hostname.Some? && partner.hostname.Some?
    ensures e.Raised? ==> e.message == AlreadyConnected(destination.Label().value, partner.Label().value)
    ensures !e.Raised? ==> e == Python.TypeError
  {
    if destination.hostname.Some? && partner.hostname.Some? then
      Python.Raised(AlreadyConnected(destination.Label().value, partner.Label().value))
    else Python.TypeError
  }

  /** The MAC address after a successful connect: reformatted as written when there is one, `None` left alone. */
  function MapMac(mac: Option<string>): (r: Option<string>)
    ensures r.None? <==> mac.None?
    ensures r.Some? ==> |r.value| == if |mac.value| < 2 then 0 else 3 * (|mac.value| / 2) - 1
  {
    match mac
    case None => None
    case Some(m) =>
      FormatMacAddressLength(m);
      Some(FormatMacAddress(m))
  }

  /**
   * Two connects of a port holding a 12-character address: the first stores the 17 characters the
   * column allows, the second reformats those into 23.
   */
  method ConnectTwiceOverflows(port: NetworkPort, first: NetworkPort, second: NetworkPort)
    requires port.macAddress.Some? && |port.macAddress.value| == 12
    requires port.connected == null && first.connected == null && second.connected == null && second != port
    modifies port, first, second
    ensures port.connected == second && second.connected == port
    ensures port.macAddress.Some? && |port.macAddress.value| == 23
  {
    var e1 := port.CreateNetworkConnection(first);
    assert e1.None?;
    assert |port.macAddress.value| == 17;
    var e2 := port.CreateNetworkConnection(second);
    assert e2.None?;
  }

  /** The message for a destination that is wired to another port. */
  function AlreadyConnected(destination: string, partner: string): (m: string)
    ensures Strings.IsSubstring(destination, m) && Strings.IsSubstring(partner, m)
  {
    var m := "Destination port '" + destination + "' is already connected to port '" + partner + "'. ";
    assert m[18..18 + |destination|] == destination;
    assert Strings.OccursAt(destination, m, 18);
    var at := 18 + |destination| + 32;
    assert m[at..at + |partner|] == partner;
    assert Strings.OccursAt(partner, m, at);
    m
  }

  /** Every wired port in `ports` is wired to a port of `ports` that is wired back to it. */
  ghost predicate Symmetric(ports: set<NetworkPort>)
    reads ports
  {
    forall p | p in ports && p.connected != null :: p.connected in ports && p.connected.connected == p
  }

  /** Connecting keeps the wiring symmetric, whether it succeeds or not. */
  method Connect(ghost ports: set<NetworkPort>, source: NetworkPort, destination: NetworkPort) returns (error: Option<Python.Error>)
    requires source in ports && destination in ports && Symmetric(ports)
    modifies source, destination, source.connected
    ensures Symmetric(ports)
    ensures error.None? ==> source.connected == destination && destination.connected == source
  {
    ghost var partner := source.connected;
    error := source.CreateNetworkConnection(destination);
    assert partner != null ==> partner in ports;
    forall p | p in ports && p.connected != null
      ensures p.connected in ports && p.connected.connected == p
    {
      if p != source && p != destination && p != partner {
        var q := old(p.connected);
        assert q != null && q in ports && old(q.connected) == p;
        assert q != source && q != partner;
        if q == destination {
          assert error.Some?;
        }
      }
    }
  }

  /** Disconnecting keeps the wiring symmetric and leaves both former ends unwired. */
  method Disconnect(ghost ports: set<NetworkPort>, port: NetworkPort)
    requires port in ports && Symmetric(ports)
    modifies port, port.connected
    ensures Symmetric(ports)
    ensures port.connected == null
  {
    ghost var partner := port.connected;
    port.DeleteNetworkConnection();
    forall p | p in ports && p.connected != null
      ensures p.connected in ports && p.connected.connected == p
    {
      if p != port && p != partner {
        var q := old(p.connected);
        assert q != null && q in ports && old(q.connected) == p;
        assert q != port && q != partner;
      }
    }
  }
}
