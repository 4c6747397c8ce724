/**
 * The rack elevation: the rows a rack is drawn with, one per empty unit and one tall row per
 * mounted asset, listed from the top of the rack down; and the unit ruler beside it.
 */
module RackView {
  import opened Wrappers
  import opened Inventory
  import Strings
  import Lists
  import Js
  import ModelUtils

  /** One table row of the elevation. */
  datatype Row =
    | Empty
    | Occupied(units: Units, text: string, color: Option<string>, target: AssetId)

  /** The units a row covers: one for an empty row, the model height for an asset. */
  function Weight(r: Row): nat {
    if r.Occupied? then r.units else 1
  }

  function TotalWeight(rows: seq<Row>): nat {
    if rows == [] then 0 else Weight(rows[0]) + TotalWeight(rows[1..])
  }

  lemma {:induction false} TotalWeightAppend(a: seq<Row>, b: seq<Row>)
    ensures TotalWeight(a + b) == TotalWeight(a) + TotalWeight(b)
  {
    if a == [] {
      assert a + b == b;
    } else {
      assert (a + b)[1..] == a[1..] + b;
      TotalWeightAppend(a[1..], b);
    }
  }

  function BladeCount(a: Asset): nat {
    if a.blades.Some? then |a.blades.value| else 0
  }

  /**
   * The text of an asset's row: its hostname (a blank when it has none); for a blade chassis
   * followed by the number of blades and the vendor and model number.
   */
  function Label(a: Asset): (s: string)
    ensures Js.Truthy(a.hostname) ==> a.hostname.value <= s
    ensures !Js.Truthy(a.hostname) ==> " " <= s
    ensures a.model.modelType != ModelUtils.BladeChassis ==> s == HostText(a)
  {
    var host := if Js.Truthy(a.hostname) then a.hostname.value else " ";
    if a.model.modelType == ModelUtils.BladeChassis then ChassisText(host, BladeCount(a), a.model.vendor, a.model.modelNumber)
    else host
  }

  /** The text of a blade chassis with `n` blades, its hostname text first. */
  function ChassisText(host: string, n: nat, vendor: string, modelNumber: string): (s: string)
    ensures host <= s
  {
    host + " | " + Strings.NatToString(n) + BladeWord(n) + " | " + vendor + " " + modelNumber
  }

  /** The hostname shown for an asset, a blank when it has none. */
  function HostText(a: Asset): string {
    if Js.Truthy(a.hostname) then a.hostname.value else " "
  }

  /** The words after a blade chassis's count: singular for one blade, plural otherwise. */
  function BladeWord(n: nat): string {
    if n == 1 then " blade" else " blades"
  }

  /**
   * `s` is laid out as a blade chassis's text: the hostname text and " | ", then the number of
   * blades `n` in decimal and " blade" (exactly when there is one) or " blades", then " | " and
   * the vendor and model number.
   */
  predicate ReadsBackAsChassis(s: string, host: string, n: nat, vendor: string, modelNumber: string) {
    var head, tail := host + " | ", " | " + vendor + " " + modelNumber;
    && |head| + |tail| <= |s| && s[..|head|] == head && s[|s| - |tail|..] == tail
    && CountReadsBack(s[|head|..|s| - |tail|], n)
  }

  /** `middle` is the number `n` in decimal followed by its word: " blade" for one, " blades" otherwise. */
  predicate CountReadsBack(middle: string, n: nat) {
    var digits := Js.DigitPrefix(middle, false);
    digits != [] && Js.RadixValue(digits, false) == n && middle[|digits|..] == BladeWord(n)
  }

  /** A blade chassis's row text reads back as its hostname, its number of blades, and its vendor and model number. */
  lemma BladeChassisLabel(a: Asset)
    requires a.model.modelType == ModelUtils.BladeChassis
    ensures ReadsBackAsChassis(Label(a), HostText(a), BladeCount(a), a.model.vendor, a.model.modelNumber)
  {
    assert Label(a) == ChassisText(HostText(a), BladeCount(a), a.model.vendor, a.model.modelNumber);
    ChassisTextReadBack(HostText(a), BladeCount(a), a.model.vendor, a.model.modelNumber);
  }

  /** The text of a blade chassis reads back into its parts. */
  lemma ChassisTextReadBack(host: string, n: nat, vendor: string, modelNumber: string)
    ensures ReadsBackAsChassis(ChassisText(host, n, vendor, modelNumber), host, n, vendor, modelNumber)
  {
    var count, word := Strings.NatToString(n), BladeWord(n);
    var s := ChassisText(host, n, vendor, modelNumber);
    var head, tail := host + " | ", " | " + vendor + " " + modelNumber;
    assert s == host + " | " + count + word + " | " + vendor + " " + modelNumber;
    ChassisTextPieces(host, count, word, vendor, modelNumber);
    assert s[|head|..|s| - |tail|] == count + word;
    CountText(count + word, n);
  }

  /** The count part of a blade chassis's text reads back as the number of blades, followed by its word. */
  lemma CountText(middle: string, n: nat)
    requires middle == Strings.NatToString(n) + BladeWord(n)
    ensures CountReadsBack(middle, n)
  {
    var count, word := Strings.NatToString(n), BladeWord(n);
    assert !Strings.IsDigit(word[0]);
    Js.DigitPrefixOfDigits(count, word);
    Js.RadixValueDecimal(count);
    Strings.DigitsValueOfNatToString(n);
    assert middle[|count|..] == word;
  }

  /** Slicing the text of a blade chassis back into its hostname part, its count part and its model part. */
  lemma ChassisTextPieces(host: string, count: string, word: string, vendor: string, modelNumber: string)
    ensures var s, head, tail := host + " | " + count + word + " | " + vendor + " " + modelNumber,
                                 host + " | ", " | " + vendor + " " + modelNumber;
      |head| + |tail| <= |s| && s[..|head|] == head && s[|s| - |tail|..] == tail
      && s[|head|..|s| - |tail|] == count + word
  {
    var head, tail := host + " | ", " | " + vendor + " " + modelNumber;
    var body := head + count + word;
    var s := body + " | " + vendor + " " + modelNumber;
    Lists.AppendAssoc(body, " | ", vendor);
    Lists.AppendAssoc(body, " | " + vendor, " ");
    Lists.AppendAssoc(body, " | " + vendor + " ", modelNumber);
    assert s == body + tail;
    Lists.AppendAssoc(head, count, word);
    assert body == head + (count + word);
    assert s[..|body|] == body;
    assert s[|body|..] == tail;
    assert s[..|head|] == body[..|head|] == head;
    assert s[|head|..|s| - |tail|] == body[|head|..] == count + word;
  }

  /** The row drawn for an asset that fits where it claims to sit. */
  function AssetRow(r: AssetRef): (row: Row)
    ensures row.Occupied? && row.units == r.asset.model.height
    ensures row.color == DisplayColor(r.asset) && row.target == NavigationId(r)
  {
    Occupied(r.asset.model.height, Label(r.asset), DisplayColor(r.asset), NavigationId(r))
  }

  /**
   * The records the elevation can draw without failing: the click target of a change-plan copy
   * reads its related asset, and the label of a chassis reads its blade list.
   */
  predicate Drawable(r: AssetRef) {
    && (r.Planned? ==> r.relatedAsset.Some?)
    && (r.asset.model.modelType == ModelUtils.BladeChassis ==> r.asset.blades.Some?)
  }

  /**
   * The rows for units `cursor .. height-1` given the assets still queued, top row first. The head
   * of the queue is drawn when it starts at the cursor and fits below the top of the rack; otherwise
   * the unit is drawn empty and the head stays queued.
   */
  function Elevation(cursor: int, height: int, queue: seq<AssetRef>): seq<Row>
    decreases height - cursor
  {
    if cursor >= height then []
    else if |queue| > 0 && cursor == queue[0].asset.rackPosition - 1 then
      var w := queue[0].asset.model.height;
      if w + cursor > height then Elevation(cursor + 1, height, queue) + [Empty]
      else Elevation(cursor + w, height, queue[1..]) + [AssetRow(queue[0])]
    else Elevation(cursor + 1, height, queue) + [Empty]
  }

  /** How many queued assets the elevation draws. */
  ghost function Drawn(cursor: int, height: int, queue: seq<AssetRef>): (n: nat)
    ensures n <= |queue|
    decreases height - cursor
  {
    if cursor >= height then 0
    else if |queue| > 0 && cursor == queue[0].asset.rackPosition - 1 then
      if queue[0].asset.model.height + cursor > height then Drawn(cursor + 1, height, queue)
      else 1 + Drawn(cursor + queue[0].asset.model.height, height, queue[1..])
    else Drawn(cursor + 1, height, queue)
  }

  /**
   * `getRows`: walks the units bottom-up, consuming the queue of assets (sorted by rack position)
   * from its head and prepending each row, so the result reads top-down.
   */
  method GetRows(height: int, assets: seq<AssetRef>) returns (rows: seq<Row>)
    requires forall i :: 0 <= i < |assets| ==> Drawable(assets[i])
    ensures rows == Elevation(0, height, assets)
    ensures height >= 0 ==> TotalWeight(rows) == height
  {
    rows := [];
    var currHeight := 0;
    var queue := assets;
    while currHeight < height
      invariant currHeight == 0 || currHeight <= height
      invariant forall i :: 0 <= i < |queue| ==> Drawable(queue[i])
      invariant Elevation(0, height, assets) == Elevation(currHeight, height, queue) + rows
      decreases height - currHeight
    {
      var next, row, rest := NextRow(currHeight, height, queue);
      Lists.AppendAssoc(Elevation(next, height, rest), [row], rows);
      rows := [row] + rows;
      currHeight, queue := next, rest;
    }
    if height >= 0 {
      ElevationWeight(0, height, assets);
    }
  }

  /**
   * One pass of the `getRows` loop at unit `cursor`: the row drawn there, the unit the loop moves on
   * to, and the assets still queued.
   */
  method NextRow(cursor: int, height: int, queue: seq<AssetRef>) returns (next: int, row: Row, rest: seq<AssetRef>)
    requires cursor < height
    requires forall i :: 0 <= i < |queue| ==> Drawable(queue[i])
    ensures cursor < next <= height
    ensures forall i :: 0 <= i < |rest| ==> Drawable(rest[i])
    ensures Elevation(cursor, height, queue) == Elevation(next, height, rest) + [row]
  {
    if |queue| > 0 && cursor == queue[0].asset.rackPosition - 1 && queue[0].asset.model.height + cursor <= height {
      assert forall i :: 0 <= i < |queue| - 1 ==> queue[1..][i] == queue[i + 1];
      next, rest := queue[0].asset.model.height + cursor, queue[1..];
      row := BuildRow(queue[0]);
    } else {
      next, row, rest := cursor + 1, Empty, queue;
    }
  }

  /** The row `getRows` builds for an asset that fits: its height, text, colour and click target. */
  method BuildRow(asset: AssetRef) returns (row: Row)
    requires Drawable(asset)
    ensures row == AssetRow(asset)
  {
    var width := asset.asset.model.height;
    var id := match asset case Planned(_, related) => related.value case Live(a) => a.id;
    var display := RowLabel(asset.asset);
    var color := Js.OrElse(asset.asset.displayColor, asset.asset.model.displayColor);
    row := Occupied(width, display, color, id);
  }

  /** The text `getRows` builds for the asset of a row that fits; a chassis's blade list must be present. */
  method RowLabel(a: Asset) returns (display: string)
    requires a.model.modelType == ModelUtils.BladeChassis ==> a.blades.Some?
    ensures display == Label(a)
  {
    var hostname := if Js.Truthy(a.hostname) then a.hostname.value else " ";
    display := hostname;
    if a.model.modelType == ModelUtils.BladeChassis {
      var n := |a.blades.value|;
      if n == 1 {
        display := display + " | " + Strings.NatToString(n) + " blade";
      } else {
        display := display + " | " + Strings.NatToString(n) + " blades";
      }
      display := display + " | " + a.model.vendor + " " + a.model.modelNumber;
    }
  }

  /** The rows of an elevation cover exactly the units from the cursor to the top of the rack. */
  lemma {:induction false} ElevationWeight(cursor: int, height: int, queue: seq<AssetRef>)
    requires cursor <= height
    ensures TotalWeight(Elevation(cursor, height, queue)) == height - cursor
    decreases height - cursor
  {
    if cursor < height {
      if |queue| > 0 && cursor == queue[0].asset.rackPosition - 1 {
        var w := queue[0].asset.model.height;
        if w + cursor > height {
          assert Elevation(cursor, height, queue) == Elevation(cursor + 1, height, queue) + [Empty];
          ElevationWeight(cursor + 1, height, queue);
          TotalWeightAppend(Elevation(cursor + 1, height, queue), [Empty]);
          assert TotalWeight([Empty]) == 1;
        } else {
          assert Elevation(cursor, height, queue) == Elevation(cursor + w, height, queue[1..]) + [AssetRow(queue[0])];
          ElevationWeight(cursor + w, height, queue[1..]);
          TotalWeightAppend(Elevation(cursor + w, height, queue[1..]), [AssetRow(queue[0])]);
          assert TotalWeight([AssetRow(queue[0])]) == w;
        }
      } else {
        assert Elevation(cursor, height, queue) == Elevation(cursor + 1, height, queue) + [Empty];
        ElevationWeight(cursor + 1, height, queue);
        TotalWeightAppend(Elevation(cursor + 1, height, queue), [Empty]);
        assert TotalWeight([Empty]) == 1;
      }
    }
  }

  /** An empty rack is drawn as one empty row per unit. */
  lemma {:induction false} EmptyRack(cursor: int, height: int)
    requires cursor <= height
    ensures Elevation(cursor, height, []) == seq(height - cursor, _ => Empty)
    decreases height - cursor
  {
    if cursor < height {
      EmptyRack(cursor + 1, height);
    }
  }

  /**
   * A head that sits below the cursor or would stick out of the top of the rack is never drawn:
   * it stays at the head of the queue, every remaining unit is drawn empty, and no later asset is
   * drawn either.
   */
  lemma {:induction false} StuckHead(cursor: int, height: int, queue: seq<AssetRef>)
    requires |queue| > 0
    requires queue[0].asset.rackPosition - 1 < cursor
          || queue[0].asset.rackPosition - 1 + queue[0].asset.model.height > height
    ensures forall i :: 0 <= i < |Elevation(cursor, height, queue)| ==> Elevation(cursor, height, queue)[i] == Empty
    ensures Drawn(cursor, height, queue) == 0
    decreases height - cursor
  {
    if cursor < height {
      StuckHead(cursor + 1, height, queue);
    }
  }

  function OccupiedRows(rows: seq<Row>): seq<Row> {
    if rows == [] then []
    else (if rows[0].Occupied? then [rows[0]] else []) + OccupiedRows(rows[1..])
  }

  lemma {:induction false} OccupiedRowsAppend(a: seq<Row>, b: seq<Row>)
    ensures OccupiedRows(a + b) == OccupiedRows(a) + OccupiedRows(b)
  {
    if a == [] {
      assert a + b == b;
    } else {
      var head := if a[0].Occupied? then [a[0]] else [];
      assert (a + b)[0] == a[0];
      assert (a + b)[1..] == a[1..] + b;
      assert OccupiedRows(a + b) == head + OccupiedRows(a[1..] + b);
      OccupiedRowsAppend(a[1..], b);
      assert OccupiedRows(a) == head + OccupiedRows(a[1..]);
      Lists.AppendAssoc(head, OccupiedRows(a[1..]), OccupiedRows(b));
    }
  }

  /** The rows of the given assets, the last one first. */
  function TopDownRows(assets: seq<AssetRef>): seq<Row> {
    if assets == [] then [] else TopDownRows(assets[1..]) + [AssetRow(assets[0])]
  }

  /**
   * The asset rows of an elevation are the rows of a prefix of the queue, in queue order read
   * from the bottom: assets are only ever taken from the head of the queue.
   */
  lemma {:induction false} DrawnFromQueueHead(cursor: int, height: int, queue: seq<AssetRef>)
    ensures DrawnRows(cursor, height, queue)
    decreases height - cursor
  {
    if cursor < height {
      if |queue| > 0 && cursor == queue[0].asset.rackPosition - 1 && queue[0].asset.model.height + cursor <= height {
        DrawnFromQueueHead(cursor + queue[0].asset.model.height, height, queue[1..]);
        DrawnHeadStep(cursor, height, queue);
      } else {
        DrawnFromQueueHead(cursor + 1, height, queue);
        DrawnEmptyStep(cursor, height, queue);
      }
    } else {
      assert queue[..Drawn(cursor, height, queue)] == [];
    }
  }

  /** The asset rows of the elevation from `cursor` are the rows of the first assets drawn, read from the bottom. */
  ghost predicate DrawnRows(cursor: int, height: int, queue: seq<AssetRef>) {
    OccupiedRows(Elevation(cursor, height, queue)) == TopDownRows(queue[..Drawn(cursor, height, queue)])
  }

  /** Drawing the head of the queue at the cursor extends `DrawnRows` by that asset. */
  lemma DrawnHeadStep(cursor: int, height: int, queue: seq<AssetRef>)
    requires cursor < height && |queue| > 0 && cursor == queue[0].asset.rackPosition - 1
    requires queue[0].asset.model.height + cursor <= height
    requires DrawnRows(cursor + queue[0].asset.model.height, height, queue[1..])
    ensures DrawnRows(cursor, height, queue)
  {
    var w := queue[0].asset.model.height;
    var rest := queue[1..];
    var k := Drawn(cursor + w, height, rest);
    assert Elevation(cursor, height, queue) == Elevation(cursor + w, height, rest) + [AssetRow(queue[0])];
    assert Drawn(cursor, height, queue) == k + 1;
    OccupiedRowsAppend(Elevation(cursor + w, height, rest), [AssetRow(queue[0])]);
    assert queue[..k + 1][1..] == rest[..k];
    assert OccupiedRows([AssetRow(queue[0])]) == [AssetRow(queue[0])];
    assert TopDownRows(queue[..k + 1]) == TopDownRows(rest[..k]) + [AssetRow(queue[0])];
  }

  /** Drawing an empty unit at the cursor keeps `DrawnRows` as it is one unit up. */
  lemma DrawnEmptyStep(cursor: int, height: int, queue: seq<AssetRef>)
    requires cursor < height
    requires !(|queue| > 0 && cursor == queue[0].asset.rackPosition - 1 && queue[0].asset.model.height + cursor <= height)
    requires DrawnRows(cursor + 1, height, queue)
    ensures DrawnRows(cursor, height, queue)
  {
    assert Elevation(cursor, height, queue) == Elevation(cursor + 1, height, queue) + [Empty];
    assert Drawn(cursor, height, queue) == Drawn(cursor + 1, height, queue);
    OccupiedRowsAppend(Elevation(cursor + 1, height, queue), [Empty]);
    assert OccupiedRows([Empty]) == [];
  }

  /** The lowest unit (0-based) that row `i` covers, counting the rows below it. */
  function BottomUnit(rows: seq<Row>, cursor: int, i: nat): int
    requires i < |rows|
  {
    cursor + TotalWeight(rows[i + 1..])
  }

  /** Row `i` of `rows` is queued asset `j`'s row, standing at the unit the asset claims and inside the rack. */
  predicate RowOfAsset(rows: seq<Row>, cursor: int, height: int, queue: seq<AssetRef>, i: nat, j: int) {
    i < |rows| && 0 <= j < |queue|
    && rows[i] == AssetRow(queue[j])
    && queue[j].asset.rackPosition - 1 == BottomUnit(rows, cursor, i)
    && queue[j].asset.rackPosition - 1 + queue[j].asset.model.height <= height
  }

  /**
   * Every asset row stands exactly at the unit its asset claims, inside the rack, and is the row
   * of one of the queued assets.
   */
  lemma {:induction false} RowPlacement(cursor: int, height: int, queue: seq<AssetRef>, i: nat)
    requires i < |Elevation(cursor, height, queue)|
    requires Elevation(cursor, height, queue)[i].Occupied?
    ensures exists j :: RowOfAsset(Elevation(cursor, height, queue), cursor, height, queue, i, j)
    decreases height - cursor
  {
    var rows := Elevation(cursor, height, queue);
    var last := |rows| - 1;
    if |queue| > 0 && cursor == queue[0].asset.rackPosition - 1 && queue[0].asset.model.height + cursor <= height {
      var w := queue[0].asset.model.height;
      var below := Elevation(cursor + w, height, queue[1..]);
      assert rows == below + [AssetRow(queue[0])];
      if i == last {
        assert rows[i + 1..] == [];
        assert RowOfAsset(rows, cursor, height, queue, i, 0);
      } else {
        assert rows[i] == below[i];
        RowPlacement(cursor + w, height, queue[1..], i);
        var j :| RowOfAsset(below, cursor + w, height, queue[1..], i, j);
        PlacementBelowHead(cursor, height, queue, i, j);
      }
    } else {
      var below := Elevation(cursor + 1, height, queue);
      assert rows == below + [Empty];
      assert rows[i] == below[i];
      RowPlacement(cursor + 1, height, queue, i);
      var j :| RowOfAsset(below, cursor + 1, height, queue, i, j);
      PlacementBelowEmpty(cursor, height, queue, i, j);
    }
  }

  /** A row above the head of the queue keeps its asset, one place further along the queue. */
  lemma PlacementBelowHead(cursor: int, height: int, queue: seq<AssetRef>, i: nat, j: int)
    requires cursor < height && |queue| > 0 && cursor == queue[0].asset.rackPosition - 1
    requires queue[0].asset.model.height + cursor <= height
    requires RowOfAsset(Elevation(cursor + queue[0].asset.model.height, height, queue[1..]),
      cursor + queue[0].asset.model.height, height, queue[1..], i, j)
    ensures RowOfAsset(Elevation(cursor, height, queue), cursor, height, queue, i, j + 1)
  {
    var rows := Elevation(cursor, height, queue);
    var w := queue[0].asset.model.height;
    var below := Elevation(cursor + w, height, queue[1..]);
    assert rows == below + [AssetRow(queue[0])];
    Lists.SnocSlice(below, AssetRow(queue[0]), i);
    TotalWeightAppend(below[i + 1..], [AssetRow(queue[0])]);
    assert queue[1..][j] == queue[j + 1];
  }

  /** A row above an empty unit keeps its asset. */
  lemma PlacementBelowEmpty(cursor: int, height: int, queue: seq<AssetRef>, i: nat, j: int)
    requires cursor < height
    requires !(|queue| > 0 && cursor == queue[0].asset.rackPosition - 1 && queue[0].asset.model.height + cursor <= height)
    requires RowOfAsset(Elevation(cursor + 1, height, queue), cursor + 1, height, queue, i, j)
    ensures RowOfAsset(Elevation(cursor, height, queue), cursor, height, queue, i, j)
  {
    var rows := Elevation(cursor, height, queue);
    var below := Elevation(cursor + 1, height, queue);
    assert rows == below + [Empty];
    Lists.SnocSlice(below, Empty, i);
    TotalWeightAppend(below[i + 1..], [Empty]);
  }

  /** Rows are listed top-down: a row further down the list covers lower units. */
  lemma {:induction false} RowsReadTopDown(rows: seq<Row>, cursor: int, i: nat, j: nat)
    requires i < j < |rows|
    ensures BottomUnit(rows, cursor, j) + Weight(rows[j]) <= BottomUnit(rows, cursor, i)
    decreases j - i
  {
    assert rows[i + 1..][1..] == rows[i + 2..];
    if j > i + 1 {
      RowsReadTopDown(rows, cursor, i + 1, j);
    }
  }

  /** The first row of a rack's elevation covers its top unit. */
  lemma FirstRowIsTop(height: int, queue: seq<AssetRef>)
    requires height > 0
    ensures |Elevation(0, height, queue)| > 0
    ensures BottomUnit(Elevation(0, height, queue), 0, 0) + Weight(Elevation(0, height, queue)[0]) == height
  {
    var rows := Elevation(0, height, queue);
    ElevationWeight(0, height, queue);
    assert rows != [];
  }

  /** A 4U rack holding one 2U asset at unit 2 is drawn top-down as: empty, the asset, empty. */
  lemma FourUnitExample(r: AssetRef)
    requires r.asset.rackPosition == 2 && r.asset.model.height == 2
    ensures Elevation(0, 4, [r]) == [Empty, AssetRow(r), Empty]
  {
    assert Elevation(3, 4, []) == [Empty];
  }

  /** `getUnitRows`: the ruler beside the rack, the unit numbers from the top (`height`) down to 1. */
  method GetUnitRows(height: int) returns (labels: seq<int>)
    ensures |labels| == (if height > 0 then height else 0)
    ensures forall k :: 0 <= k < |labels| ==> labels[k] == height - k
  {
    labels := [];
    var i := 1;
    while i <= height
      invariant 1 <= i <= (if height >= 0 then height + 1 else 1)
      invariant |labels| == i - 1
      invariant forall k :: 0 <= k < |labels| ==> labels[k] == i - 1 - k
    {
      labels := [i] + labels;
      i := i + 1;
    }
  }
}
