/**
 * Where an instance may go in a rack: inside the rack's units and clear of every other instance,
 * for a single placement, for a modification that overrides some of an instance's fields, and
 * across the records of one import file.
 */
module RackPlacement {
  import opened Wrappers
  import opened Python
  import Strings

  /** `[elevation + i for i in range(height)]`: the units an instance occupies, lowest first. */
  function Units(elevation: int, height: int): (r: seq<int>)
    ensures |r| == if height > 0 then height else 0
    ensures forall k :: 0 <= k < |r| ==> r[k] == elevation + k
  {
    if height <= 0 then [] else Units(elevation, height - 1) + [elevation + height - 1]
  }

  /** A unit is occupied exactly when it lies in `elevation .. elevation + height - 1`. */
  lemma UnitsMembers(elevation: int, height: int, u: int)
    ensures u in Units(elevation, height) <==> elevation <= u < elevation + height
  {
    var r := Units(elevation, height);
    if elevation <= u < elevation + height {
      assert r[u - elevation] == u;
    }
  }

  /** Two placements share a unit exactly when both are at least one unit high and their intervals meet. */
  predicate Overlap(e1: int, h1: int, e2: int, h2: int) {
    0 < h1 && 0 < h2 && e1 < e2 + h2 && e2 < e1 + h1
  }

  lemma OverlapUnits(e1: int, h1: int, e2: int, h2: int)
    ensures (exists u :: u in Units(e1, h1) && u in Units(e2, h2)) <==> Overlap(e1, h1, e2, h2)
  {
    if Overlap(e1, h1, e2, h2) {
      var u := if e1 < e2 then e2 else e1;
      UnitsMembers(e1, h1, u);
      UnitsMembers(e2, h2, u);
    }
    forall u | u in Units(e1, h1) && u in Units(e2, h2) ensures Overlap(e1, h1, e2, h2) {
      UnitsMembers(e1, h1, u);
      UnitsMembers(e2, h2, u);
    }
  }

  /** An instance already in the rack: its id, lowest unit, model height and hostname. */
  datatype Placed = Placed(id: int, elevation: int, height: int, hostname: string)

  /** A rack: its height in units and the instances in it. */
  datatype Rack = Rack(height: int, instances: seq<Placed>)

  const OUTSIDE_RACK := "Cannot place instance outside of rack. "

  function ConflictMessage(hostname: string): string {
    "Instance location conflicts with another instance: '" + hostname + "'. "
  }

  /** The instance is not the one being moved (`instance_id` is `None` for a new instance). */
  predicate IsOther(p: Placed, instanceId: Option<int>) {
    instanceId.None? || p.id != instanceId.value
  }

  /** The first instance, in rack order, that is not the one being moved and shares a unit with `units`. */
  function FirstConflict(instances: seq<Placed>, units: seq<int>, instanceId: Option<int>): (r: Option<Placed>)
    ensures r.Some? ==> (r.value in instances && IsOther(r.value, instanceId)
      && exists u :: u in Units(r.value.elevation, r.value.height) && u in units)
    ensures r.None? ==> forall p :: p in instances && IsOther(p, instanceId) ==>
      forall u :: u in Units(p.elevation, p.height) ==> u !in units
  {
    if instances == [] then None
    else
      var p := instances[0];
      assert instances == [p] + instances[1..];
      if IsOther(p, instanceId) && exists u :: u in Units(p.elevation, p.height) && u in units then Some(p)
      else FirstConflict(instances[1..], units, instanceId)
  }

  /**
   * `validate_instance_location`: `None` when the placement is allowed, otherwise the
   * `LocationException` message. The bounds check comes first.
   */
  function ValidateInstanceLocation(rack: Rack, elevation: int, height: int, instanceId: Option<int>): (r: Option<string>)
    ensures r == Some(OUTSIDE_RACK) <==> 0 < height && (elevation <= 0 || elevation + height - 1 > rack.height)
    ensures r.None? <==> (!(0 < height && (elevation <= 0 || elevation + height - 1 > rack.height))
      && forall p :: p in rack.instances && IsOther(p, instanceId) ==> !Overlap(p.elevation, p.height, elevation, height))
    ensures r.Some? && r != Some(OUTSIDE_RACK) ==> exists p :: (p in rack.instances && IsOther(p, instanceId)
      && Overlap(p.elevation, p.height, elevation, height) && r == Some(ConflictMessage(p.hostname)))
  {
    var units := Units(elevation, height);
    if exists u :: u in units && (u <= 0 || u > rack.height) then
      assert 0 < height && (elevation <= 0 || elevation + height - 1 > rack.height) by {
        var u :| u in units && (u <= 0 || u > rack.height);
        UnitsMembers(elevation, height, u);
      }
      Some(OUTSIDE_RACK)
    else
      assert !(0 < height && (elevation <= 0 || elevation + height - 1 > rack.height)) by {
        if 0 < height {
          UnitsMembers(elevation, height, elevation);
          UnitsMembers(elevation, height, elevation + height - 1);
        }
      }
      match FirstConflict(rack.instances, units, instanceId)
      case Some(p) =>
        OverlapUnits(p.elevation, p.height, elevation, height);
        assert |ConflictMessage(p.hostname)| > |OUTSIDE_RACK|;
        Some(ConflictMessage(p.hostname))
      case None =>
        forall p | p in rack.instances && IsOther(p, instanceId)
          ensures !Overlap(p.elevation, p.height, elevation, height)
        {
          OverlapUnits(p.elevation, p.height, elevation, height);
        }
        None
  }

  /** Moving an instance onto its own current units never conflicts with itself. */
  lemma OwnLocationIgnored(rack: Rack, me: Placed)
    requires forall p :: p in rack.instances ==> p == me || p.id != me.id
    requires forall p :: p in rack.instances && p.id != me.id ==> !Overlap(p.elevation, p.height, me.elevation, me.height)
    requires 0 < me.elevation && me.elevation + me.height - 1 <= rack.height
    ensures ValidateInstanceLocation(rack, me.elevation, me.height, Some(me.id)).None?
  {
  }

  /** The fields of a location change a request may carry; the model and rack are given by id. */
  datatype Modification = Modification(elevation: Option<Value>, model: Option<int>, rack: Option<int>)

  /** The instance being changed, as stored: its id, rack id, lowest unit and model height. */
  datatype Existing = Existing(id: int, rack: int, elevation: int, height: int)

  /** The records the modification reads: racks by id, model heights by model id. */
  datatype Db = Db(racks: map<int, Rack>, modelHeights: map<int, int>)

  /** The failure of a location change: an exception raised with a message, or one that escapes. */
  datatype Failure = Rejected(message: string) | Escaped(error: Error)

  const ELEVATION_NOT_INT := "Field 'elevation' must be of type int."

  function NoModelMessage(id: int): string {
    "No existing model with id=" + Strings.IntToString(id) + "."
  }

  function NoRackMessage(id: int): string {
    "No existing rack with id=" + Strings.IntToString(id) + "."
  }

  /**
   * `validate_location_modification`: each field the request carries replaces the stored one;
   * the merged placement is then validated as a move of the same instance. `int()` on the
   * elevation turns a `ValueError` into a message, while a `TypeError` escapes unchanged.
   */
  function ValidateLocationModification(data: Modification, existing: Existing, db: Db): (r: Option<Failure>)
    requires existing.rack in db.racks
    ensures data.elevation.Some? && Int(data.elevation.value) == Err(ValueError) ==> r == Some(Rejected(ELEVATION_NOT_INT))
    ensures data.elevation.Some? && Int(data.elevation.value) == Err(TypeError) ==> r == Some(Escaped(TypeError))
    ensures (data.elevation.None? || Int(data.elevation.value).Ok?) && data.model.Some? && data.model.value !in db.modelHeights
      ==> r == Some(Rejected(NoModelMessage(data.model.value)))
    ensures (data.elevation.None? || Int(data.elevation.value).Ok?)
      && (data.model.None? || data.model.value in db.modelHeights)
      && data.rack.Some? && data.rack.value !in db.racks
      ==> r == Some(Rejected(NoRackMessage(data.rack.value)))
    ensures (data.elevation.None? || Int(data.elevation.value).Ok?)
      && (data.model.None? || data.model.value in db.modelHeights)
      && (data.rack.None? || data.rack.value in db.racks)
      ==> r == AsRejection(ValidateInstanceLocation(
            db.racks[if data.rack.Some? then data.rack.value else existing.rack],
            if data.elevation.Some? then Int(data.elevation.value).value else existing.elevation,
            if data.model.Some? then db.modelHeights[data.model.value] else existing.height,
            Some(existing.id)))
  {
    var elevation := if data.elevation.Some? then Int(data.elevation.value) else Ok(existing.elevation);
    if elevation.Err? && elevation.error == ValueError then Some(Rejected(ELEVATION_NOT_INT))
    else if elevation.Err? then Some(Escaped(elevation.error))
    else if data.model.Some? && data.model.value !in db.modelHeights then Some(Rejected(NoModelMessage(data.model.value)))
    else if data.rack.Some? && data.rack.value !in db.racks then Some(Rejected(NoRackMessage(data.rack.value)))
    else
      var height := if data.model.Some? then db.modelHeights[data.model.value] else existing.height;
      var rackId := if data.rack.Some? then data.rack.value else existing.rack;
      AsRejection(ValidateInstanceLocation(db.racks[rackId], elevation.value, height, Some(existing.id)))
  }

  /** A `LocationException` re-raised as the failure of the change. */
  function AsRejection(verdict: Option<string>): (r: Option<Failure>)
    ensures r.None? <==> verdict.None?
    ensures r.Some? ==> r.value == Rejected(verdict.value)
  {
    match verdict
    case Some(message) => Some(Rejected(message))
    case None => None
  }

  /** A request that changes nothing revalidates the instance where it stands. */
  lemma EmptyModificationKeepsPlacement(existing: Existing, db: Db)
    requires existing.rack in db.racks
    ensures ValidateLocationModification(Modification(None, None, None), existing, db)
      == AsRejection(ValidateInstanceLocation(db.racks[existing.rack], existing.elevation, existing.height, Some(existing.id)))
  {
  }

  /** A request carrying only an elevation moves the instance within its rack, keeping its height. */
  lemma ElevationOnlyModification(e: int, existing: Existing, db: Db)
    requires existing.rack in db.racks
    ensures ValidateLocationModification(Modification(Some(VStr(Strings.IntToString(e))), None, None), existing, db)
      == AsRejection(ValidateInstanceLocation(db.racks[existing.rack], e, existing.height, Some(existing.id)))
  {
    IntOfIntToString(e);
  }

  /** A request carrying only a model checks the new model's height at the stored elevation and rack. */
  lemma ModelOnlyModification(model: int, existing: Existing, db: Db)
    requires existing.rack in db.racks && model in db.modelHeights
    ensures ValidateLocationModification(Modification(None, Some(model), None), existing, db)
      == AsRejection(ValidateInstanceLocation(db.racks[existing.rack], existing.elevation, db.modelHeights[model], Some(existing.id)))
  {
  }

  /** A request carrying only a rack checks the stored elevation and height in the new rack. */
  lemma RackOnlyModification(rack: int, existing: Existing, db: Db)
    requires existing.rack in db.racks && rack in db.racks
    ensures ValidateLocationModification(Modification(None, None, Some(rack)), existing, db)
      == AsRejection(ValidateInstanceLocation(db.racks[rack], existing.elevation, existing.height, Some(existing.id)))
  {
  }

  /** A request that carries all three fields ignores the stored placement except for the instance's id. */
  lemma FullModificationOverrides(e: int, model: int, rack: int, existing: Existing, db: Db)
    requires existing.rack in db.racks && model in db.modelHeights && rack in db.racks
    ensures ValidateLocationModification(Modification(Some(VStr(Strings.IntToString(e))), Some(model), Some(rack)), existing, db)
      == AsRejection(ValidateInstanceLocation(db.racks[rack], e, db.modelHeights[model], Some(existing.id)))
  {
    IntOfIntToString(e);
  }

  /**
   * One record of an import file: its rack id, its model's height (`None` when no model has that id),
   * elevation and hostname (`None` for an asset without one, which the database allows).
   */
  datatype ImportRecord = ImportRecord(rack: int, modelHeight: Option<int>, elevation: Value, hostname: Option<string>)

  /** The units claimed so far, rack by rack, each with the hostname of the record that claimed it. */
  type Occupancy = map<int, map<int, Option<string>>>

  function InfileConflictMessage(hostname: string, holder: string): string {
    "Instance '" + hostname + "' conflicts with instance '" + holder + "'. "
  }

  /**
   * The error of a record with `hostname` hitting a unit held by `holder`: the `LocationException`
   * naming both, or the `TypeError` of adding `None` to a string when either has no hostname.
   */
  function Conflict(hostname: Option<string>, holder: Option<string>): (e: Error)
    ensures e.Raised? <==> hostname.Some? && holder.Some?
    ensures e.Raised? ==> e.message == InfileConflictMessage(hostname.value, holder.value)
    ensures !e.Raised? ==> e == TypeError
  {
    if hostname.Some? && holder.Some? then Raised(InfileConflictMessage(hostname.value, holder.value))
    else TypeError
  }

  /** Claims `units` one by one for `hostname`; the first unit already claimed is a conflict with its holder. */
  function ClaimUnits(units: seq<int>, hostname: Option<string>, claimed: map<int, Option<string>>): Result<map<int, Option<string>>, Error> {
    if units == [] then Ok(claimed)
    else if units[0] in claimed then Err(Conflict(hostname, claimed[units[0]]))
    else ClaimUnits(units[1..], hostname, claimed[units[0] := hostname])
  }

  /** The loop of `no_infile_location_conflicts` from the current record on, given what earlier records claimed. */
  function Scan(records: seq<ImportRecord>, occupied: Occupancy): Option<Error> {
    if records == [] then None
    else
      var rec := records[0];
      if rec.modelHeight.None? then Some(ObjectDoesNotExist)
      else match Int(rec.elevation)
        case Err(e) => Some(e)
        case Ok(elevation) =>
          var claimed := if rec.rack in occupied then occupied[rec.rack] else map[];
          match ClaimUnits(Units(elevation, rec.modelHeight.value), rec.hostname, claimed)
          case Err(e) => Some(e)
          case Ok(c) => Scan(records[1..], occupied[rec.rack := c])
  }

  /** `no_infile_location_conflicts`: `None` when the file's records fit together, otherwise the exception raised. */
  method NoInfileLocationConflicts(records: seq<ImportRecord>) returns (error: Option<Error>)
    ensures error == Scan(records, map[])
  {
    var occupied: Occupancy := map[];
    var i := 0;
    while i < |records|
      invariant 0 <= i <= |records|
      invariant Scan(records, map[]) == Scan(records[i..], occupied)
    {
      var rec := records[i];
      assert records[i..][1..] == records[i + 1..];
      if rec.modelHeight.None? {
        return Some(ObjectDoesNotExist);
      }
      var elevation := Int(rec.elevation);
      if elevation.Err? {
        return Some(elevation.error);
      }
      var units := Units(elevation.value, rec.modelHeight.value);
      ghost var before := occupied;
      if rec.rack !in occupied {
        occupied := occupied[rec.rack := map[]];
      }
      ghost var start := occupied[rec.rack];
      var j := 0;
      while j < |units|
        invariant 0 <= j <= |units|
        invariant rec.rack in occupied
        invariant ClaimUnits(units, rec.hostname, start) == ClaimUnits(units[j..], rec.hostname, occupied[rec.rack])
        invariant occupied == before[rec.rack := occupied[rec.rack]]
      {
        assert units[j..][1..] == units[j + 1..];
        var location := units[j];
        if location in occupied[rec.rack] {
          return Some(Conflict(rec.hostname, occupied[rec.rack][location]));
        } else {
          occupied := occupied[rec.rack := occupied[rec.rack][location := rec.hostname]];
        }
        j := j + 1;
      }
      assert units[|units|..] == [];
      i := i + 1;
    }
    error := None;
  }

  /**
   * Two one-unit records on the same unit of one rack: the second is refused for the first, with
   * the message naming both hostnames, or with a `TypeError` when either record has no hostname;
   * in different racks they pass, hostnames or not.
   */
  lemma SameUnitConflict(first: Option<string>, second: Option<string>, rack: int, other: int, e: int)
    requires rack != other
    ensures Scan([ImportRecord(rack, Some(1), VInt(e), first), ImportRecord(rack, Some(1), VInt(e), second)], map[])
      == Some(Conflict(second, first))
    ensures Scan([ImportRecord(rack, Some(1), VInt(e), first), ImportRecord(other, Some(1), VInt(e), second)], map[]) == None
  {
    var units := Units(e, 1);
    assert units == [e];
    assert ClaimUnits(units, first, map[]) == Ok(map[e := first]);
    var occupied: Occupancy := map[rack := map[e := first]];
    var same := [ImportRecord(rack, Some(1), VInt(e), first), ImportRecord(rack, Some(1), VInt(e), second)];
    assert same[1..] == [same[1]];
    assert Scan(same, map[]) == Scan([same[1]], occupied);
    var apart := [ImportRecord(rack, Some(1), VInt(e), first), ImportRecord(other, Some(1), VInt(e), second)];
    assert apart[1..] == [apart[1]];
    assert Scan(apart, map[]) == Scan([apart[1]], occupied);
    assert other !in occupied;
    assert ClaimUnits(units, second, map[]) == Ok(map[e := second]);
    assert [apart[1]][1..] == [];
    assert Scan([apart[1]], occupied) == Scan([], occupied[other := map[e := second]]);
  }

  /** The message in full when both records have hostnames. */
  lemma InfileConflictExample()
    ensures Scan([ImportRecord(1, Some(1), VInt(5), Some("a")), ImportRecord(1, Some(1), VInt(5), Some("b"))], map[])
      == Some(Raised("Instance 'b' conflicts with instance 'a'. "))
  {
    SameUnitConflict(Some("a"), Some("b"), 1, 2, 5);
    ConflictMessageExample();
  }

  lemma ConflictMessageExample()
    ensures Conflict(Some("b"), Some("a")) == Raised("Instance 'b' conflicts with instance 'a'. ")
  {
    assert InfileConflictMessage("b", "a") == "Instance 'b' conflicts with instance 'a'. ";
  }

  /** A record the scan can place: its model exists and its elevation converts to an int. */
  predicate Placeable(rec: ImportRecord) {
    rec.modelHeight.Some? && Int(rec.elevation).Ok?
  }

  function ElevationOf(rec: ImportRecord): int
    requires Placeable(rec)
  {
    Int(rec.elevation).value
  }

  /** The units a placeable record occupies. */
  function RecordUnits(rec: ImportRecord): seq<int>
    requires Placeable(rec)
  {
    Units(ElevationOf(rec), rec.modelHeight.value)
  }

  /** The units the placeable records among `records` occupy in `rack`. */
  function ClaimedIn(records: seq<ImportRecord>, rack: int): set<int> {
    if records == [] then {}
    else
      var last := records[|records| - 1];
      ClaimedIn(records[..|records| - 1], rack)
        + (if last.rack == rack && Placeable(last) then set u | u in RecordUnits(last) else {})
  }

  /** The units claimed in `rack` so far. */
  function KeysIn(occupied: Occupancy, rack: int): set<int> {
    if rack in occupied then occupied[rack].Keys else {}
  }

  /** Claiming increasing units succeeds exactly when none is claimed yet. */
  lemma {:induction false} ClaimUnitsOk(units: seq<int>, hostname: Option<string>, claimed: map<int, Option<string>>)
    requires forall a, b :: 0 <= a < b < |units| ==> units[a] < units[b]
    ensures ClaimUnits(units, hostname, claimed).Ok? <==> forall k :: 0 <= k < |units| ==> units[k] !in claimed
  {
    if units != [] && units[0] !in claimed {
      var rest := units[1..];
      var next := claimed[units[0] := hostname];
      ClaimUnitsOk(rest, hostname, next);
      forall k | 0 <= k < |rest| ensures rest[k] !in next <==> rest[k] !in claimed {
        assert rest[k] == units[k + 1] && units[0] < units[k + 1];
      }
      assert (forall k :: 0 <= k < |units| ==> units[k] !in claimed) <==>
        (forall k :: 0 <= k < |rest| ==> rest[k] !in claimed) by {
        assert forall k :: 0 <= k < |rest| ==> rest[k] == units[k + 1];
      }
    }
  }

  /** A successful claim adds exactly the claimed units. */
  lemma {:induction false} ClaimUnitsKeys(units: seq<int>, hostname: Option<string>, claimed: map<int, Option<string>>)
    requires ClaimUnits(units, hostname, claimed).Ok?
    ensures ClaimUnits(units, hostname, claimed).value.Keys == claimed.Keys + set u | u in units
  {
    if units != [] {
      var rest := units[1..];
      var next := claimed[units[0] := hostname];
      ClaimUnitsKeys(rest, hostname, next);
      assert units == [units[0]] + rest;
      assert (set u | u in units) == {units[0]} + set u | u in rest;
    }
  }

  /** Index `j` of `rest` fits: it is placeable and clear of everything claimed in its rack before it. */
  predicate FitsAfter(done: seq<ImportRecord>, rest: seq<ImportRecord>, j: int)
    requires 0 <= j < |rest|
  {
    Placeable(rest[j]) && forall u :: u in RecordUnits(rest[j]) ==> u !in ClaimedIn(done + rest[..j], rest[j].rack)
  }

  /** The claimed units of the first remaining record against the occupancy before it. */
  function FirstClaim(rest: seq<ImportRecord>, occupied: Occupancy): Result<map<int, Option<string>>, Error>
    requires rest != [] && Placeable(rest[0])
  {
    var rec := rest[0];
    ClaimUnits(RecordUnits(rec), rec.hostname, if rec.rack in occupied then occupied[rec.rack] else map[])
  }

  /** The first record's claim succeeds exactly when it fits, and then the occupancy tracks one more record. */
  lemma FirstClaimFits(done: seq<ImportRecord>, rest: seq<ImportRecord>, occupied: Occupancy)
    requires rest != [] && Placeable(rest[0])
    requires forall r :: KeysIn(occupied, r) == ClaimedIn(done, r)
    ensures FirstClaim(rest, occupied).Ok? <==> FitsAfter(done, rest, 0)
    ensures FirstClaim(rest, occupied).Ok? ==>
      forall r :: KeysIn(occupied[rest[0].rack := FirstClaim(rest, occupied).value], r) == ClaimedIn(done + [rest[0]], r)
  {
    var rec := rest[0];
    var units := RecordUnits(rec);
    var claimed := if rec.rack in occupied then occupied[rec.rack] else map[];
    assert done + rest[..0] == done;
    assert claimed.Keys == ClaimedIn(done, rec.rack);
    ClaimUnitsOk(units, rec.hostname, claimed);
    if ClaimUnits(units, rec.hostname, claimed).Ok? {
      ClaimUnitsKeys(units, rec.hostname, claimed);
      var done' := done + [rec];
      assert done'[..|done'| - 1] == done;
    }
  }

  /** Fitting after one more record is fitting one place further along. */
  lemma FitsShift(done: seq<ImportRecord>, rest: seq<ImportRecord>, j: int)
    requires 0 <= j < |rest| - 1
    ensures FitsAfter(done + [rest[0]], rest[1..], j) <==> FitsAfter(done, rest, j + 1)
  {
    assert rest[1..][j] == rest[j + 1];
    assert (done + [rest[0]]) + rest[1..][..j] == done + rest[..j + 1];
  }

  /**
   * The scan succeeds exactly when every remaining record is placeable and clear of the units
   * claimed in its rack by the records before it.
   */
  lemma {:induction false} ScanSucceeds(done: seq<ImportRecord>, rest: seq<ImportRecord>, occupied: Occupancy)
    requires forall r :: KeysIn(occupied, r) == ClaimedIn(done, r)
    ensures Scan(rest, occupied).None? <==> forall j | 0 <= j < |rest| :: FitsAfter(done, rest, j)
    decreases |rest|
  {
    if rest != [] {
      if Placeable(rest[0]) {
        FirstClaimFits(done, rest, occupied);
        if FirstClaim(rest, occupied).Ok? {
          var occupied' := occupied[rest[0].rack := FirstClaim(rest, occupied).value];
          var done' := done + [rest[0]];
          assert Scan(rest, occupied) == Scan(rest[1..], occupied');
          ScanSucceeds(done', rest[1..], occupied');
          forall j | 0 <= j < |rest| - 1 ensures FitsAfter(done', rest[1..], j) <==> FitsAfter(done, rest, j + 1) {
            FitsShift(done, rest, j);
          }
          if FitsAfter(done, rest, 0) && forall j | 0 <= j < |rest| - 1 :: FitsAfter(done', rest[1..], j) {
            forall j | 0 <= j < |rest| ensures FitsAfter(done, rest, j) {
              if j > 0 { assert FitsAfter(done', rest[1..], j - 1); }
            }
          }
        } else {
          assert Scan(rest, occupied).Some?;
        }
      } else {
        assert Scan(rest, occupied).Some?;
        assert !FitsAfter(done, rest, 0);
      }
    }
  }

  /** A unit is claimed in a rack exactly when some placeable record in that rack occupies it. */
  lemma {:induction false} ClaimedInMembers(records: seq<ImportRecord>, rack: int, u: int)
    ensures u in ClaimedIn(records, rack) <==>
      exists i :: 0 <= i < |records| && records[i].rack == rack && Placeable(records[i]) && u in RecordUnits(records[i])
  {
    if records != [] {
      var init := records[..|records| - 1];
      ClaimedInMembers(init, rack, u);
      assert forall i :: 0 <= i < |init| ==> init[i] == records[i];
    }
  }

  /** Record `j` fits after the records before it exactly when it overlaps none of them in its rack. */
  lemma FitsIffNoOverlap(records: seq<ImportRecord>, j: int)
    requires 0 <= j < |records| && forall k | 0 <= k < |records| :: Placeable(records[k])
    ensures FitsAfter([], records, j) <==> forall i | 0 <= i < j && records[i].rack == records[j].rack ::
      !Overlap(ElevationOf(records[i]), records[i].modelHeight.value, ElevationOf(records[j]), records[j].modelHeight.value)
  {
    var rj := records[j];
    var before := records[..j];
    assert [] + before == before;
    if FitsAfter([], records, j) {
      forall i | 0 <= i < j && records[i].rack == rj.rack
        ensures !Overlap(ElevationOf(records[i]), records[i].modelHeight.value, ElevationOf(rj), rj.modelHeight.value)
      {
        var ri := records[i];
        OverlapUnits(ElevationOf(ri), ri.modelHeight.value, ElevationOf(rj), rj.modelHeight.value);
        if Overlap(ElevationOf(ri), ri.modelHeight.value, ElevationOf(rj), rj.modelHeight.value) {
          var u :| u in RecordUnits(ri) && u in RecordUnits(rj);
          assert before[i] == ri;
          ClaimedInMembers(before, rj.rack, u);
          assert false;
        }
      }
    } else {
      var u :| u in RecordUnits(rj) && u in ClaimedIn(before, rj.rack);
      ClaimedInMembers(before, rj.rack, u);
      var i :| 0 <= i < |before| && before[i].rack == rj.rack && Placeable(before[i]) && u in RecordUnits(before[i]);
      var ri := records[i];
      assert before[i] == ri;
      OverlapUnits(ElevationOf(ri), ri.modelHeight.value, ElevationOf(rj), rj.modelHeight.value);
    }
  }

  /**
   * When every record is placeable, the file passes exactly when no two records in the same rack
   * share a unit; records in different racks never conflict.
   */
  lemma NoConflictsIffDisjoint(records: seq<ImportRecord>)
    requires forall j | 0 <= j < |records| :: Placeable(records[j])
    ensures Scan(records, map[]).None? <==> forall i, j | 0 <= i < j < |records| && records[i].rack == records[j].rack ::
      !Overlap(ElevationOf(records[i]), records[i].modelHeight.value, ElevationOf(records[j]), records[j].modelHeight.value)
  {
    ScanSucceeds([], records, map[]);
    forall j | 0 <= j < |records| ensures FitsAfter([], records, j) <==> forall i | 0 <= i < j && records[i].rack == records[j].rack ::
      !Overlap(ElevationOf(records[i]), records[i].modelHeight.value, ElevationOf(records[j]), records[j].modelHeight.value)
    {
      FitsIffNoOverlap(records, j);
    }
  }
}
