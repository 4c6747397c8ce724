/** Checking network-connection requests and saving MAC addresses for an asset's network ports. */
module AssetUtils {
  import opened Wrappers
  import Lists

  /** The three fields of one network-connection entry of an asset request. */
  datatype ConnectionData = ConnectionData(sourcePort: Option<string>, destinationHostname: Option<string>, destinationPort: Option<string>)

  const NO_SOURCE_PORT := "Could not create connection because source port was not provided."

  function NoDestinationHostname(portName: string): string {
    "Could not create connection on port '" + portName + "' because no destination hostname was provided."
  }

  function NoDestinationPort(portName: string): string {
    "Could not create connection on port '" + portName + "' because no destination port was provided."
  }

  /** `validate_network_connection_data`: the error message, or `None` when the entry is usable. */
  function ValidateNetworkConnectionData(data: ConnectionData): (error: Option<string>)
    ensures data.sourcePort.None? ==> error == Some(NO_SOURCE_PORT)
    ensures data.sourcePort.Some? && data.destinationHostname.None? && data.destinationPort.Some?
      ==> error == Some(NoDestinationHostname(data.sourcePort.value))
    ensures data.sourcePort.Some? && data.destinationHostname.Some? && data.destinationPort.None?
      ==> error == Some(NoDestinationPort(data.sourcePort.value))
  {
    if data.sourcePort.None? then Some(NO_SOURCE_PORT)
    else
      var portName := data.sourcePort.value;
      if data.destinationHostname.None? && data.destinationPort.Some? then Some(NoDestinationHostname(portName))
      else if data.destinationHostname.Some? && data.destinationPort.None? then Some(NoDestinationPort(portName))
      else None
  }

  /** `network_connection_data_has_destination`. */
  predicate HasDestination(data: ConnectionData) {
    data.destinationHostname.Some? && data.destinationPort.Some?
  }

  /**
   * An entry passes exactly when it names its source port and gives both or neither of the destination
   * fields; the passing entries without a destination are the ones that delete a connection.
   */
  lemma ValidEntries(data: ConnectionData)
    ensures ValidateNetworkConnectionData(data).None? <==>
      data.sourcePort.Some? && (HasDestination(data) || (data.destinationHostname.None? && data.destinationPort.None?))
    ensures ValidateNetworkConnectionData(data).None? && !HasDestination(data) ==>
      data.destinationHostname.None? && data.destinationPort.None?
  {
  }

  /** A missing source port is reported whatever the destination fields say. */
  lemma SourcePortFirst(hostname: Option<string>, port: Option<string>)
    ensures ValidateNetworkConnectionData(ConnectionData(None, hostname, port)) == Some(NO_SOURCE_PORT)
  {
  }

  function InvalidPort(portName: string): string {
    "Port name '" + portName + "' is not valid. "
  }

  function InvalidMac(macAddress: string): string {
    "Mac address '" + macAddress + "' is not valid. "
  }

  /**
   * The failure text of the assignments: one piece per port name that is not a port of the
   * asset and per address the save refuses, in order.
   */
  function MacFailures(assignments: seq<(string, string)>, ports: set<string>, saves: (string, string) -> bool): string {
    if assignments == [] then ""
    else
      MacFailure(assignments[0], ports, saves) + MacFailures(assignments[1..], ports, saves)
  }

  /** The addresses that end up stored: those of known ports whose save succeeds. */
  function StoredMacs(assignments: seq<(string, string)>, ports: set<string>, saves: (string, string) -> bool): seq<(string, string)> {
    if assignments == [] then []
    else
      var (portName, mac) := assignments[0];
      (if portName in ports && saves(portName, mac) then [(portName, mac)] else [])
        + StoredMacs(assignments[1..], ports, saves)
  }

  /** The verdict of one assignment. */
  function MacFailure(assignment: (string, string), ports: set<string>, saves: (string, string) -> bool): string {
    if assignment.0 !in ports then InvalidPort(assignment.0)
    else if !saves(assignment.0, assignment.1) then InvalidMac(assignment.1)
    else ""
  }

  lemma {:induction false} MacFailuresAppend(a: seq<(string, string)>, b: seq<(string, string)>, ports: set<string>, saves: (string, string) -> bool)
    ensures MacFailures(a + b, ports, saves) == MacFailures(a, ports, saves) + MacFailures(b, ports, saves)
    decreases |a|
  {
    if a == [] {
      assert a + b == b;
    } else {
      assert (a + b)[0] == a[0] && (a + b)[1..] == a[1..] + b;
      MacFailuresAppend(a[1..], b, ports, saves);
      var here := MacFailure(a[0], ports, saves);
      assert MacFailures(a, ports, saves) == here + MacFailures(a[1..], ports, saves);
      assert MacFailures(a + b, ports, saves) == here + (MacFailures(a[1..], ports, saves) + MacFailures(b, ports, saves));
      Lists.AppendAssoc(here, MacFailures(a[1..], ports, saves), MacFailures(b, ports, saves));
    }
  }

  lemma {:induction false} StoredMacsAppend(a: seq<(string, string)>, b: seq<(string, string)>, ports: set<string>, saves: (string, string) -> bool)
    ensures StoredMacs(a + b, ports, saves) == StoredMacs(a, ports, saves) + StoredMacs(b, ports, saves)
    decreases |a|
  {
    if a == [] {
      assert a + b == b;
    } else {
      assert (a + b)[0] == a[0] && (a + b)[1..] == a[1..] + b;
      StoredMacsAppend(a[1..], b, ports, saves);
    }
  }

  lemma MacStep(a: seq<(string, string)>, i: nat, ports: set<string>, saves: (string, string) -> bool)
    requires i < |a|
    ensures MacFailures(a[..i + 1], ports, saves) == MacFailures(a[..i], ports, saves) + MacFailure(a[i], ports, saves)
    ensures StoredMacs(a[..i + 1], ports, saves) == StoredMacs(a[..i], ports, saves)
      + (if a[i].0 in ports && saves(a[i].0, a[i].1) then [a[i]] else [])
  {
    assert a[..i + 1] == a[..i] + [a[i]];
    MacFailuresAppend(a[..i], [a[i]], ports, saves);
    StoredMacsAppend(a[..i], [a[i]], ports, saves);
    assert MacFailures([a[i]], ports, saves) == MacFailure(a[i], ports, saves) + MacFailures([], ports, saves);
    assert StoredMacs([a[i]], ports, saves) == (if a[i].0 in ports && saves(a[i].0, a[i].1) then [a[i]] else []) + StoredMacs([], ports, saves);
  }

  /**
   * `save_mac_addresses`: nothing happens for a missing or empty assignment; otherwise every port is tried,
   * the failures are collected, and one exception carrying all of them is raised at the end.
   * `ports` are the asset's network port names, and `saves` says whether saving an address succeeds.
   */
  method SaveMacAddresses(assignments: Option<seq<(string, string)>>, ports: set<string>, saves: (string, string) -> bool)
    returns (stored: seq<(string, string)>, failure: Option<string>)
    ensures assignments.None? || assignments.value == [] ==> stored == [] && failure.None?
    ensures assignments.Some? ==> stored == StoredMacs(assignments.value, ports, saves)
    ensures assignments.Some? ==>
      failure == (var m := MacFailures(assignments.value, ports, saves); if m == "" then None else Some(m))
  {
    stored := [];
    if assignments.None? || assignments.value == [] {
      return [], None;
    }
    var macAssignments := assignments.value;
    var failureMessage := "";
    for i := 0 to |macAssignments|
      invariant failureMessage == MacFailures(macAssignments[..i], ports, saves)
      invariant stored == StoredMacs(macAssignments[..i], ports, saves)
    {
      MacStep(macAssignments, i, ports, saves);
      var (portName, macAddress) := macAssignments[i];
      if portName !in ports {
        failureMessage := failureMessage + InvalidPort(portName);
      } else if saves(portName, macAddress) {
        stored := stored + [(portName, macAddress)];
      } else {
        failureMessage := failureMessage + InvalidMac(macAddress);
      }
    }
    assert macAssignments[..|macAssignments|] == macAssignments;
    if failureMessage != "" {
      return stored, Some(failureMessage);
    }
    return stored, None;
  }

  /** The call fails exactly when some port name is unknown or some save is refused. */
  lemma {:induction false} MacFailuresEmptyIff(assignments: seq<(string, string)>, ports: set<string>, saves: (string, string) -> bool)
    ensures MacFailures(assignments, ports, saves) == "" <==>
      forall k | 0 <= k < |assignments| :: assignments[k].0 in ports && saves(assignments[k].0, assignments[k].1)
  {
    if assignments != [] {
      MacFailuresEmptyIff(assignments[1..], ports, saves);
      assert forall k | 1 <= k < |assignments| :: assignments[k] == assignments[1..][k - 1];
    }
  }

  /** A failure does not stop the others: every known port whose save succeeds is stored, in order. */
  lemma {:induction false} StoredMacsCount(assignments: seq<(string, string)>, ports: set<string>, saves: (string, string) -> bool)
    ensures |StoredMacs(assignments, ports, saves)| <= |assignments|
    ensures MacFailures(assignments, ports, saves) == "" ==> StoredMacs(assignments, ports, saves) == assignments
  {
    if assignments != [] {
      StoredMacsCount(assignments[1..], ports, saves);
      var here := MacFailure(assignments[0], ports, saves);
      assert |MacFailures(assignments, ports, saves)| == |here| + |MacFailures(assignments[1..], ports, saves)|;
      if MacFailures(assignments, ports, saves) == "" {
        assert here == "";
        assert assignments == [assignments[0]] + assignments[1..];
      }
    }
  }
}
