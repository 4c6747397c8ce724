/**
 * The blade chassis picture: a fixed row of 14 slots, each showing the blade that claims it,
 * framed above and below by the slot numbers.
 */
module ChassisView {
  import opened Wrappers
  import opened Inventory
  import Js
  import Strings

  /** The number of slots of the chassis hardware the system manages. */
  const NUM_SLOTS: nat := 14

  /** A slot-number cell; `highlighted` is the border drawn around the current blade's slot. */
  datatype SlotNumber = SlotNumber(number: int, highlighted: bool)

  /** A slot cell: empty, or the blade shown in it with its colour, border and click target. */
  datatype Slot =
    | EmptySlot
    | BladeSlot(blade: AssetRef, color: Option<string>, highlighted: bool, target: AssetId)

  /** `currBladeSlot && parseInt(currBladeSlot) === i`. */
  predicate IsCurrentSlot(currBladeSlot: Option<string>, i: int) {
    Js.Truthy(currBladeSlot) && Js.ParseInt(currBladeSlot.value) == Some(i)
  }

  /** The colour of the frame `render` draws around the chassis: its own colour, or its model's otherwise. */
  function BorderColor(chassis: Asset): (c: Option<string>)
    ensures Js.Truthy(chassis.displayColor) ==> c == chassis.displayColor
    ensures !Js.Truthy(chassis.displayColor) ==> c == chassis.model.displayColor
  {
    DisplayColor(chassis)
  }

  /** `generateSlotNumbers`: the numbers 1..14, the current blade's slot highlighted. */
  method GenerateSlotNumbers(currBladeSlot: Option<string>) returns (cells: seq<SlotNumber>)
    ensures |cells| == NUM_SLOTS
    ensures forall k :: 0 <= k < |cells| ==>
      cells[k].number == k + 1 && (cells[k].highlighted <==> IsCurrentSlot(currBladeSlot, k + 1))
    ensures forall k, l :: 0 <= k < |cells| && 0 <= l < |cells| && cells[k].highlighted && cells[l].highlighted ==> k == l
  {
    cells := [];
    var current := if Js.Truthy(currBladeSlot) then Js.ParseInt(currBladeSlot.value) else None;
    var i := 1;
    while i < NUM_SLOTS + 1
      invariant 1 <= i <= NUM_SLOTS + 1
      invariant |cells| == i - 1 && NumbersSoFar(cells, current)
    {
      if current == Some(i) {
        NumbersSoFarAppend(cells, current, SlotNumber(i, true));
        cells := cells + [SlotNumber(i, true)];
      } else {
        NumbersSoFarAppend(cells, current, SlotNumber(i, false));
        cells := cells + [SlotNumber(i, false)];
      }
      i := i + 1;
    }
    CurrentSlotNumbers(cells, currBladeSlot, current);
  }

  /** `cells` holds the numbers 1..|cells|, each highlighted when it is `current`. */
  predicate NumbersSoFar(cells: seq<SlotNumber>, current: Option<int>) {
    forall k :: 0 <= k < |cells| ==> cells[k] == SlotNumber(k + 1, current == Some(k + 1))
  }

  /** Appending the next number keeps `NumbersSoFar`. */
  lemma NumbersSoFarAppend(cells: seq<SlotNumber>, current: Option<int>, cell: SlotNumber)
    requires NumbersSoFar(cells, current)
    requires cell == SlotNumber(|cells| + 1, current == Some(|cells| + 1))
    ensures NumbersSoFar(cells + [cell], current)
  {
    var next := cells + [cell];
    forall k | 0 <= k < |next| ensures next[k] == SlotNumber(k + 1, current == Some(k + 1)) {
      if k < |cells| {
        assert next[k] == cells[k];
      }
    }
  }

  /** With `current` parsed from the current blade's slot, the numbers highlight that slot, and only it. */
  lemma CurrentSlotNumbers(cells: seq<SlotNumber>, currBladeSlot: Option<string>, current: Option<int>)
    requires NumbersSoFar(cells, current)
    requires current == if Js.Truthy(currBladeSlot) then Js.ParseInt(currBladeSlot.value) else None
    ensures forall k :: 0 <= k < |cells| ==>
      cells[k].number == k + 1 && (cells[k].highlighted <==> IsCurrentSlot(currBladeSlot, k + 1))
    ensures forall k, l :: 0 <= k < |cells| && 0 <= l < |cells| && cells[k].highlighted && cells[l].highlighted ==> k == l
  {
    assert forall k :: IsCurrentSlot(currBladeSlot, k) <==> current == Some(k);
  }

  /** The slot a blade claims: `parseInt(chassis_slot)`, `None` for `NaN`. */
  function SlotOf(b: AssetRef): Option<int> {
    if b.asset.chassisSlot.Some? then Js.ParseInt(b.asset.chassisSlot.value) else None
  }

  /** `blades.filter(b => parseInt(b.chassis_slot) === i)`. */
  function BladesInSlot(blades: seq<AssetRef>, i: int): (r: seq<AssetRef>)
    ensures forall k :: 0 <= k < |r| ==> r[k] in blades && SlotOf(r[k]) == Some(i)
    ensures |r| == 0 <==> forall k :: 0 <= k < |blades| ==> SlotOf(blades[k]) != Some(i)
  {
    if blades == [] then []
    else (if SlotOf(blades[0]) == Some(i) then [blades[0]] else []) + BladesInSlot(blades[1..], i)
  }

  /** The cell of slot `i`: the first blade claiming it, coloured by `DisplayColor`. */
  function SlotFor(blades: seq<AssetRef>, i: int, currBladeSlot: Option<string>): Slot {
    var claiming := BladesInSlot(blades, i);
    if |claiming| > 0 then
      var blade := claiming[0];
      BladeSlot(blade, DisplayColor(blade.asset), IsCurrentSlot(currBladeSlot, i), NavigationId(blade))
    else EmptySlot
  }

  /** The cell of a claimed slot, written out the way the loop of `GenerateSlots` builds it. */
  lemma ClaimedSlot(blades: seq<AssetRef>, i: int, currBladeSlot: Option<string>)
    requires |BladesInSlot(blades, i)| > 0
    ensures var b := BladesInSlot(blades, i)[0];
      SlotFor(blades, i, currBladeSlot) == BladeSlot(b, Js.OrElse(b.asset.displayColor, b.asset.model.displayColor),
        IsCurrentSlot(currBladeSlot, i), if b.Planned? && b.relatedAsset.Some? then b.relatedAsset.value else b.asset.id)
  {
  }

  /** `slots` holds the cells of slots 1..|slots|. */
  predicate CellsSoFar(slots: seq<Slot>, blades: seq<AssetRef>, currBladeSlot: Option<string>) {
    forall k :: 0 <= k < |slots| ==> slots[k] == SlotFor(blades, k + 1, currBladeSlot)
  }

  /** Appending the next slot's cell keeps `CellsSoFar`. */
  lemma CellsSoFarAppend(slots: seq<Slot>, blades: seq<AssetRef>, currBladeSlot: Option<string>, cell: Slot)
    requires CellsSoFar(slots, blades, currBladeSlot)
    requires cell == SlotFor(blades, |slots| + 1, currBladeSlot)
    ensures CellsSoFar(slots + [cell], blades, currBladeSlot)
  {
    var next := slots + [cell];
    forall k | 0 <= k < |next| ensures next[k] == SlotFor(blades, k + 1, currBladeSlot) {
      if k < |slots| {
        assert next[k] == slots[k] == SlotFor(blades, k + 1, currBladeSlot);
      } else {
        assert k == |slots|;
        assert next[k] == cell;
      }
    }
  }

  /**
   * `generateSlots`: one cell per slot 1..14 when the chassis record carries its blades; the guard
   * inside the loop makes every iteration push nothing when it does not.
   */
  method GenerateSlots(chassis: Asset, currBladeSlot: Option<string>) returns (slots: seq<Slot>)
    ensures chassis.blades.None? ==> slots == []
    ensures chassis.blades.Some? ==> (|slots| == NUM_SLOTS
      && forall k :: 0 <= k < NUM_SLOTS ==> slots[k] == SlotFor(chassis.blades.value, k + 1, currBladeSlot))
  {
    slots := [];
    var i := 1;
    while i < NUM_SLOTS + 1
      invariant 1 <= i <= NUM_SLOTS + 1
      invariant chassis.blades.None? ==> slots == []
      invariant chassis.blades.Some? ==> |slots| == i - 1 && CellsSoFar(slots, chassis.blades.value, currBladeSlot)
    {
      if chassis.blades.Some? {
        var cell := SlotCell(chassis.blades.value, i, currBladeSlot);
        CellsSoFarAppend(slots, chassis.blades.value, currBladeSlot, cell);
        slots := slots + [cell];
      }
      i := i + 1;
    }
  }

  /** One iteration of the loop of `generateSlots`: the cell of slot `i`. */
  method SlotCell(blades: seq<AssetRef>, i: int, currBladeSlot: Option<string>) returns (cell: Slot)
    ensures cell == SlotFor(blades, i, currBladeSlot)
  {
    var claiming := BladesInSlot(blades, i);
    if |claiming| > 0 {
      var blade := claiming[0];
      var color := Js.OrElse(blade.asset.displayColor, blade.asset.model.displayColor);
      var highlighted := IsCurrentSlot(currBladeSlot, i);
      var bladeId := if blade.Planned? && blade.relatedAsset.Some? then blade.relatedAsset.value else blade.asset.id;
      ClaimedSlot(blades, i, currBladeSlot);
      cell := BladeSlot(blade, color, highlighted, bladeId);
    } else {
      cell := EmptySlot;
    }
  }

  /** Blade `k` claims slot `i` and no blade before it does. */
  predicate FirstClaimAt(blades: seq<AssetRef>, i: int, k: int) {
    0 <= k < |blades| && SlotOf(blades[k]) == Some(i)
    && forall j :: 0 <= j < k ==> SlotOf(blades[j]) != Some(i)
  }

  /** When blades claim the same slot, the first of them in list order is the one shown. */
  lemma {:induction false} FirstClaimWins(blades: seq<AssetRef>, i: int)
    requires |BladesInSlot(blades, i)| > 0
    ensures exists k :: FirstClaimAt(blades, i, k) && BladesInSlot(blades, i)[0] == blades[k]
  {
    var rest := blades[1..];
    if SlotOf(blades[0]) == Some(i) {
      assert BladesInSlot(blades, i) == [blades[0]] + BladesInSlot(rest, i);
      assert FirstClaimAt(blades, i, 0);
    } else {
      assert BladesInSlot(blades, i) == [] + BladesInSlot(rest, i);
      FirstClaimWins(rest, i);
      var k :| FirstClaimAt(rest, i, k) && BladesInSlot(rest, i)[0] == rest[k];
      assert rest[k] == blades[k + 1];
      forall j | 0 <= j < k + 1 ensures SlotOf(blades[j]) != Some(i) {
        if j > 0 { assert blades[j] == rest[j - 1]; }
      }
      assert FirstClaimAt(blades, i, k + 1);
    }
  }

  /** A slot is occupied exactly when some blade claims it. */
  lemma SlotOccupied(blades: seq<AssetRef>, i: int, currBladeSlot: Option<string>)
    ensures SlotFor(blades, i, currBladeSlot).BladeSlot? <==> exists k :: 0 <= k < |blades| && SlotOf(blades[k]) == Some(i)
    ensures SlotFor(blades, i, currBladeSlot).BladeSlot? ==>
      SlotOf(SlotFor(blades, i, currBladeSlot).blade) == Some(i)
      && SlotFor(blades, i, currBladeSlot).highlighted == IsCurrentSlot(currBladeSlot, i)
  {
  }

  /** A blade whose slot is not one of 1..14 appears in no cell of the grid. */
  lemma OutOfRangeBladeNotShown(chassis: Asset, currBladeSlot: Option<string>, slots: seq<Slot>, b: AssetRef)
    requires chassis.blades.Some? && |slots| == NUM_SLOTS
    requires forall k :: 0 <= k < NUM_SLOTS ==> slots[k] == SlotFor(chassis.blades.value, k + 1, currBladeSlot)
    requires SlotOf(b).None? || SlotOf(b).value < 1 || SlotOf(b).value > NUM_SLOTS
    ensures forall k :: 0 <= k < |slots| ==> !(slots[k].BladeSlot? && slots[k].blade == b)
  {
    forall k | 0 <= k < |slots| ensures !(slots[k].BladeSlot? && slots[k].blade == b) {
      SlotOccupied(chassis.blades.value, k + 1, currBladeSlot);
    }
  }

  /**
   * A chassis holding one blade in slot `n`, viewed from that blade: slot `n` shows it with a
   * border and every other slot is empty.
   */
  lemma OneBladeView(b: AssetRef, n: nat)
    requires b.asset.chassisSlot == Some(Strings.NatToString(n))
    ensures SlotFor([b], n, Some(Strings.NatToString(n))) == BladeSlot(b, DisplayColor(b.asset), true, NavigationId(b))
    ensures forall i :: i != n ==> SlotFor([b], i, Some(Strings.NatToString(n))) == EmptySlot
  {
    Js.ParseIntOfNatToString(n);
    assert SlotOf(b) == Some(n);
    assert BladesInSlot([b], n) == [b];
    forall i | i != n ensures SlotFor([b], i, Some(Strings.NatToString(n))) == EmptySlot {
      assert BladesInSlot([b], i) == [];
    }
  }
}
