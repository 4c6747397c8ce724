/**
 * The list view every element kind shares: the sort chips, the barcode selection of asset rows,
 * the column names taken from the data, and the detail page a row click opens.
 */
module ElementTable {
  import opened Wrappers
  import opened Inventory
  import Js
  import Strings
  import Lists

  /** One sort chip (`ITableSort`); its `id` is always the field name and is not kept apart. */
  datatype TableSort = TableSort(field: string, ascending: bool)

  /** The sort chips and the columns marked as sorted, which the two sort handlers update together. */
  datatype SortState = SortState(sortBy: seq<TableSort>, sortedCols: seq<string>)

  /** `sorts.filter(item => item.field !== field)`. */
  function Without(sorts: seq<TableSort>, field: string): (r: seq<TableSort>)
    ensures forall t :: t in r <==> t in sorts && t.field != field
  {
    if sorts == [] then []
    else
      assert sorts == [sorts[0]] + sorts[1..];
      (if sorts[0].field == field then [] else [sorts[0]]) + Without(sorts[1..], field)
  }

  /** `sorts.find(item => item.field === field)`. */
  function Find(sorts: seq<TableSort>, field: string): (r: Option<TableSort>)
    ensures r.Some? ==> r.value in sorts && r.value.field == field
    ensures r.None? ==> forall t :: t in sorts ==> t.field != field
  {
    if sorts == [] then None
    else if sorts[0].field == field then Some(sorts[0])
    else
      assert sorts == [sorts[0]] + sorts[1..];
      Find(sorts[1..], field)
  }

  /** The number of chips on `field`. */
  function Occurrences(sorts: seq<TableSort>, field: string): nat {
    if sorts == [] then 0
    else (if sorts[0].field == field then 1 else 0) + Occurrences(sorts[1..], field)
  }

  /**
   * The state the two sort handlers keep: no column is marked twice, every chip's column is
   * marked, and every marked column has exactly one chip.
   */
  predicate Consistent(s: SortState) {
    Lists.Distinct(s.sortedCols)
    && (forall t :: t in s.sortBy ==> t.field in s.sortedCols)
    && (forall c :: c in s.sortedCols ==> Occurrences(s.sortBy, c) == 1)
  }

  /**
   * `handleSort(field)`: a marked column's chip is flipped and moved to the end; an unmarked column
   * gets an ascending chip at the end and is marked. `None` where the column is marked but has no
   * chip: `find` returns `undefined` and reading its `ascending` throws.
   */
  function AfterSort(s: SortState, field: string): Option<SortState> {
    if field in s.sortedCols then
      match Find(s.sortBy, field)
      case None => None
      case Some(t) => Some(SortState(Without(s.sortBy, field) + [TableSort(field, !t.ascending)], s.sortedCols))
    else Some(SortState(s.sortBy + [TableSort(field, true)], s.sortedCols + [field]))
  }

  /** `removeSortItem(field)`: every chip on the field goes, and the column's first mark. */
  function AfterRemove(s: SortState, field: string): SortState {
    SortState(Without(s.sortBy, field), Lists.RemoveFirst(s.sortedCols, field))
  }

  lemma {:induction false} OccurrencesAppend(a: seq<TableSort>, b: seq<TableSort>, field: string)
    ensures Occurrences(a + b, field) == Occurrences(a, field) + Occurrences(b, field)
  {
    if a == [] {
      assert a + b == b;
    } else {
      assert (a + b)[1..] == a[1..] + b;
      OccurrencesAppend(a[1..], b, field);
    }
  }

  /** A field has no chip exactly when no chip is on it. */
  lemma {:induction false} OccurrencesZero(sorts: seq<TableSort>, field: string)
    ensures Occurrences(sorts, field) == 0 <==> forall t :: t in sorts ==> t.field != field
  {
    if sorts != [] {
      assert sorts == [sorts[0]] + sorts[1..];
      OccurrencesZero(sorts[1..], field);
    }
  }

  /** Filtering out one field leaves the counts of the others alone. */
  lemma {:induction false} OccurrencesWithout(sorts: seq<TableSort>, field: string, c: string)
    ensures Occurrences(Without(sorts, field), c) == if c == field then 0 else Occurrences(sorts, c)
  {
    if sorts != [] {
      OccurrencesWithout(sorts[1..], field, c);
      OccurrencesAppend(if sorts[0].field == field then [] else [sorts[0]], Without(sorts[1..], field), c);
    }
  }

  lemma {:induction false} WithoutAppend(a: seq<TableSort>, b: seq<TableSort>, field: string)
    ensures Without(a + b, field) == Without(a, field) + Without(b, field)
  {
    if a == [] {
      assert a + b == b;
    } else {
      assert (a + b)[1..] == a[1..] + b;
      WithoutAppend(a[1..], b, field);
    }
  }

  /** Filtering out a field no chip is on changes nothing. */
  lemma {:induction false} WithoutAbsent(sorts: seq<TableSort>, field: string)
    requires forall t :: t in sorts ==> t.field != field
    ensures Without(sorts, field) == sorts
  {
    if sorts != [] {
      assert sorts == [sorts[0]] + sorts[1..];
      WithoutAbsent(sorts[1..], field);
    }
  }

  /**
   * After a sort click on a consistent state the clicked field has exactly one chip, at the end,
   * and every other chip keeps its place relative to the rest.
   */
  lemma SortLeavesOneChip(s: SortState, field: string)
    requires Consistent(s)
    ensures AfterSort(s, field).Some?
    ensures var t := AfterSort(s, field).value.sortBy;
      Occurrences(t, field) == 1 && t[|t| - 1].field == field && Without(t, field) == Without(s.sortBy, field)
  {
    OccurrencesZero(s.sortBy, field);
    var chip := if field in s.sortedCols then TableSort(field, !Find(s.sortBy, field).value.ascending)
      else TableSort(field, true);
    var kept := if field in s.sortedCols then Without(s.sortBy, field) else s.sortBy;
    if field in s.sortedCols {
      OccurrencesZero(s.sortBy, field);
      OccurrencesWithout(s.sortBy, field, field);
      WithoutAbsent(kept, field);
    } else {
      OccurrencesZero(s.sortBy, field);
      WithoutAbsent(s.sortBy, field);
    }
    assert AfterSort(s, field).value.sortBy == kept + [chip];
    OccurrencesAppend(kept, [chip], field);
    WithoutAppend(kept, [chip], field);
    assert Without([chip], field) == [];
  }

  /** A sort click keeps the state consistent. */
  lemma SortKeepsConsistent(s: SortState, field: string)
    requires Consistent(s)
    ensures AfterSort(s, field).Some? && Consistent(AfterSort(s, field).value)
  {
    SortLeavesOneChip(s, field);
    if field in s.sortedCols {
      FlipKeepsConsistent(s, field);
    } else {
      MarkKeepsConsistent(s, field);
    }
  }

  /** A click on a marked column keeps the state consistent. */
  lemma FlipKeepsConsistent(s: SortState, field: string)
    requires Consistent(s) && field in s.sortedCols && Find(s.sortBy, field).Some?
    ensures AfterSort(s, field).Some? && Consistent(AfterSort(s, field).value)
  {
    var chip := TableSort(field, !Find(s.sortBy, field).value.ascending);
    var kept := Without(s.sortBy, field);
    var n := SortState(kept + [chip], s.sortedCols);
    assert AfterSort(s, field) == Some(n);
    forall t | t in n.sortBy ensures t.field in n.sortedCols {
      assert t in kept || t == chip;
    }
    forall c | c in n.sortedCols ensures Occurrences(n.sortBy, c) == 1 {
      OccurrencesAppend(kept, [chip], c);
      OccurrencesWithout(s.sortBy, field, c);
    }
  }

  /** A click on an unmarked column keeps the state consistent. */
  lemma MarkKeepsConsistent(s: SortState, field: string)
    requires Consistent(s) && field !in s.sortedCols
    ensures AfterSort(s, field).Some? && Consistent(AfterSort(s, field).value)
  {
    var chip := TableSort(field, true);
    var n := SortState(s.sortBy + [chip], s.sortedCols + [field]);
    assert AfterSort(s, field) == Some(n);
    Lists.AppendFreshDistinct(s.sortedCols, field);
    OccurrencesZero(s.sortBy, field);
    forall t | t in n.sortBy ensures t.field in n.sortedCols {
      assert t in s.sortBy || t == chip;
    }
    forall c | c in n.sortedCols ensures Occurrences(n.sortBy, c) == 1 {
      OccurrencesAppend(s.sortBy, [chip], c);
    }
  }

  /** Removing a chip keeps the state consistent, and leaves the field neither chipped nor marked. */
  lemma RemoveKeepsConsistent(s: SortState, field: string)
    requires Consistent(s)
    ensures Consistent(AfterRemove(s, field))
    ensures Occurrences(AfterRemove(s, field).sortBy, field) == 0
    ensures field !in AfterRemove(s, field).sortedCols
  {
    var n := AfterRemove(s, field);
    Lists.RemoveFirstDistinct(s.sortedCols, field);
    OccurrencesWithout(s.sortBy, field, field);
    forall t | t in n.sortBy ensures t.field in n.sortedCols {
      Lists.RemoveFirstMember(s.sortedCols, field, t.field);
    }
    forall c | c in n.sortedCols ensures Occurrences(n.sortBy, c) == 1 {
      Lists.RemoveFirstMember(s.sortedCols, field, c);
      OccurrencesWithout(s.sortBy, field, c);
    }
  }

  /** Sorting by a new column and then removing its chip restores the previous state exactly. */
  lemma SortThenRemove(s: SortState, field: string)
    requires Consistent(s) && field !in s.sortedCols
    ensures AfterSort(s, field).Some? && AfterRemove(AfterSort(s, field).value, field) == s
  {
    OccurrencesZero(s.sortBy, field);
    WithoutAbsent(s.sortBy, field);
    WithoutAppend(s.sortBy, [TableSort(field, true)], field);
    assert Without([TableSort(field, true)], field) == [];
    Lists.RemoveFirstAtIndex(s.sortedCols + [field], field);
    assert Lists.IndexOf(s.sortedCols + [field], field) == |s.sortedCols|;
  }

  /** A second click on the same column turns its chip back to the first direction. */
  lemma SortTwiceRestoresDirection(s: SortState, field: string)
    requires Consistent(s) && field in s.sortedCols
    ensures AfterSort(s, field).Some?
    ensures var once := AfterSort(s, field).value;
      AfterSort(once, field).Some?
      && Find(AfterSort(once, field).value.sortBy, field) == Find(s.sortBy, field)
  {
    SortKeepsConsistent(s, field);
    var once := AfterSort(s, field).value;
    SortLeavesOneChip(s, field);
    SortKeepsConsistent(once, field);
    var twice := AfterSort(once, field).value;
    SortLeavesOneChip(once, field);
    var t := Find(s.sortBy, field).value;
    var kept := Without(s.sortBy, field);
    assert once.sortBy == kept + [TableSort(field, !t.ascending)];
    OccurrencesZero(kept, field);
    FindAfter(kept, TableSort(field, !t.ascending));
    assert Find(once.sortBy, field) == Some(TableSort(field, !t.ascending));
    assert Without(once.sortBy, field) == kept;
    assert twice.sortBy == kept + [TableSort(field, t.ascending)];
    FindAfter(kept, TableSort(field, t.ascending));
    assert TableSort(field, t.ascending) == t;
  }

  /** The first chip on a field placed after chips on other fields is that chip. */
  lemma {:induction false} FindAfter(kept: seq<TableSort>, chip: TableSort)
    requires forall t :: t in kept ==> t.field != chip.field
    ensures Find(kept + [chip], chip.field) == Some(chip)
  {
    if kept == [] {
      assert kept + [chip] == [chip];
    } else {
      assert (kept + [chip])[1..] == kept[1..] + [chip];
      assert kept[0] in kept;
      FindAfter(kept[1..], chip);
    }
  }

  /** Clicking the checkbox of a row whose asset number is `n`: unselect it if selected, select it otherwise. */
  function Toggle(selected: seq<string>, n: string): seq<string> {
    if n in selected then Lists.RemoveFirst(selected, n) else selected + [n]
  }

  /** On a duplicate-free selection a click flips the row's membership and no other. */
  lemma ToggleFlips(selected: seq<string>, n: string)
    requires Lists.Distinct(selected)
    ensures Lists.Distinct(Toggle(selected, n))
    ensures n in Toggle(selected, n) <==> n !in selected
    ensures forall x :: x != n ==> (x in Toggle(selected, n) <==> x in selected)
  {
    if n in selected {
      Lists.RemoveFirstDistinct(selected, n);
      forall x | x != n ensures x in Toggle(selected, n) <==> x in selected {
        assert multiset(Toggle(selected, n))[x] == multiset(selected)[x];
      }
    } else {
      Lists.AppendFreshDistinct(selected, n);
    }
  }

  /** Two clicks on a row that was not selected give back the selection as it was. */
  lemma ToggleTwice(selected: seq<string>, n: string)
    requires n !in selected
    ensures Toggle(Toggle(selected, n), n) == selected
  {
    Lists.RemoveFirstAtIndex(selected + [n], n);
    assert Lists.IndexOf(selected + [n], n) == |selected|;
  }

  /** One item of a select-all click: a page item's asset number is added when turning on, removed when turning off. */
  function SelectAllStep(selected: seq<string>, n: Option<string>, on: bool): seq<string> {
    if Js.Truthy(n) then
      if n.value in selected && !on then Lists.RemoveFirst(selected, n.value)
      else if n.value !in selected && on then selected + [n.value]
      else selected
    else selected
  }

  /** A select-all click over the page's items in order; `numbers` holds their asset numbers, `None` for non-assets. */
  function SelectAll(selected: seq<string>, numbers: seq<Option<string>>, on: bool): seq<string>
    decreases |numbers|
  {
    if numbers == [] then selected
    else SelectAll(SelectAllStep(selected, numbers[0], on), numbers[1..], on)
  }

  /** The fold from item `i` on starts with item `i`'s step. */
  lemma SelectAllFrom(selected: seq<string>, numbers: seq<Option<string>>, i: nat, on: bool)
    requires i < |numbers|
    ensures SelectAll(selected, numbers[i..], on) == SelectAll(SelectAllStep(selected, numbers[i], on), numbers[i + 1..], on)
  {
    assert numbers[i..][1..] == numbers[i + 1..];
  }

  /** The loop of the select-all handler, which adds or removes each page item's asset number in turn. */
  method SelectAllLoop(selected: seq<string>, numbers: seq<Option<string>>, on: bool) returns (sel: seq<string>)
    ensures sel == SelectAll(selected, numbers, on)
  {
    sel := selected;
    for i := 0 to |numbers|
      invariant SelectAll(selected, numbers, on) == SelectAll(sel, numbers[i..], on)
    {
      SelectAllFrom(sel, numbers, i, on);
      var n := numbers[i];
      if Js.Truthy(n) {
        if n.value in sel && !on {
          sel := Lists.SpliceOut(sel, n.value);
        } else if n.value !in sel && on {
          sel := sel + [n.value];
        }
      }
    }
  }

  /** `x` is the asset number of some item on the page. */
  predicate OnPage(numbers: seq<Option<string>>, x: string) {
    x != "" && Some(x) in numbers
  }

  /** A select-all click keeps the selection duplicate-free. */
  lemma {:induction false} SelectAllDistinct(selected: seq<string>, numbers: seq<Option<string>>, on: bool)
    requires Lists.Distinct(selected)
    ensures Lists.Distinct(SelectAll(selected, numbers, on))
    decreases |numbers|
  {
    if numbers != [] {
      var n := numbers[0];
      if Js.Truthy(n) && n.value in selected && !on {
        Lists.RemoveFirstDistinct(selected, n.value);
      } else if Js.Truthy(n) && n.value !in selected && on {
        Lists.AppendFreshDistinct(selected, n.value);
      }
      SelectAllDistinct(SelectAllStep(selected, n, on), numbers[1..], on);
    }
  }

  /** Turning select-all on leaves every page item's asset number selected. */
  lemma {:induction false} SelectAllOn(selected: seq<string>, numbers: seq<Option<string>>, x: string)
    requires OnPage(numbers, x) || x in selected
    ensures x in SelectAll(selected, numbers, true)
    decreases |numbers|
  {
    if numbers != [] {
      var next := SelectAllStep(selected, numbers[0], true);
      assert x in next || OnPage(numbers[1..], x) by {
        if numbers[0] != Some(x) && !(x in selected) {
          assert Some(x) in numbers[1..];
        }
      }
      SelectAllOn(next, numbers[1..], x);
    }
  }

  /** One item of a select-all-off click keeps the selection duplicate-free, removes that item's number and adds none. */
  lemma SelectAllStepOff(selected: seq<string>, n: Option<string>, x: string)
    requires Lists.Distinct(selected)
    ensures Lists.Distinct(SelectAllStep(selected, n, false))
    ensures n == Some(x) && x != "" ==> x !in SelectAllStep(selected, n, false)
    ensures x !in selected ==> x !in SelectAllStep(selected, n, false)
  {
    if Js.Truthy(n) && n.value in selected {
      Lists.RemoveFirstDistinct(selected, n.value);
      assert multiset(SelectAllStep(selected, n, false))[x] <= multiset(selected)[x];
    }
  }

  /** Turning select-all off unselects every page item's asset number. */
  lemma {:induction false} SelectAllOff(selected: seq<string>, numbers: seq<Option<string>>, x: string)
    requires Lists.Distinct(selected)
    requires OnPage(numbers, x) || x !in selected
    ensures x !in SelectAll(selected, numbers, false)
    decreases |numbers|
  {
    if numbers != [] {
      var n := numbers[0];
      var next := SelectAllStep(selected, n, false);
      SelectAllStepOff(selected, n, x);
      if x in next {
        assert n != Some(x) && x in selected;
        assert Some(x) in numbers[1..];
      }
      SelectAllOff(next, numbers[1..], x);
    }
  }

  /** A select-all click leaves alone every selected number that is not on the page, and selects no other. */
  lemma {:induction false} SelectAllElsewhere(selected: seq<string>, numbers: seq<Option<string>>, on: bool, x: string)
    requires !OnPage(numbers, x)
    ensures x in SelectAll(selected, numbers, on) <==> x in selected
    decreases |numbers|
  {
    if numbers != [] {
      var n := numbers[0];
      var next := SelectAllStep(selected, n, on);
      assert n != Some(x) || x == "";
      assert x in next <==> x in selected by {
        if Js.Truthy(n) && n.value in selected && !on {
          assert multiset(next)[x] == multiset(selected)[x];
        }
      }
      assert !OnPage(numbers[1..], x);
      SelectAllElsewhere(next, numbers[1..], on, x);
    }
  }

  /** Which tab of the asset list the table shows. */
  datatype AssetTab = Racked | Stored | OtherTab

  /** The keys never shown as a column, and those the racked and stored tabs hide. */
  predicate Hidden(col: string, tab: AssetTab) {
    col in ["id", "decommissioned_id", "network_ports", "comment", "power_connections",
            "mac_addresses", "network_connections", "network_graph", "is_admin", "is_storage"]
    || (col == "offline_storage_site" && tab == Racked)
    || ((col == "datacenter" || col == "rack" || col == "rack_position") && tab == Stored)
  }

  /** The columns one key of the first item contributes. */
  function Columns(col: string, tab: AssetTab): seq<string> {
    if col == "model" then ["model__vendor", "model__model_number"]
    else if col == "chassis" then ["chassis__hostname"]
    else if !Hidden(col, tab) then [col]
    else []
  }

  /** The columns of a key list, key by key in order. */
  function FieldNames(keys: seq<string>, tab: AssetTab): seq<string> {
    if keys == [] then [] else FieldNames(keys[..|keys| - 1], tab) + Columns(keys[|keys| - 1], tab)
  }

  /** The loop of `setFieldNamesFromData` over the keys of the first item. */
  method FieldNamesLoop(keys: seq<string>, tab: AssetTab) returns (names: seq<string>)
    ensures names == FieldNames(keys, tab)
  {
    names := [];
    for i := 0 to |keys|
      invariant names == FieldNames(keys[..i], tab)
    {
      FieldNamesStep(keys, i, tab);
      var col := keys[i];
      if col == "model" {
        Lists.AppendAssoc(names, ["model__vendor"], ["model__model_number"]);
        names := names + ["model__vendor"];
        names := names + ["model__model_number"];
      } else if col == "chassis" {
        names := names + ["chassis__hostname"];
      } else if !Hidden(col, tab) {
        names := names + [col];
      } else {
        assert names + Columns(col, tab) == names;
      }
    }
    assert keys[..|keys|] == keys;
  }

  /** The column names of one more key are those before it and its own. */
  lemma FieldNamesStep(keys: seq<string>, i: nat, tab: AssetTab)
    requires i < |keys|
    ensures FieldNames(keys[..i + 1], tab) == FieldNames(keys[..i], tab) + Columns(keys[i], tab)
  {
    assert keys[..i + 1][..i] == keys[..i];
  }

  /** A key taken over as it is. */
  predicate Shown(col: string, tab: AssetTab) {
    col != "model" && col != "chassis" && !Hidden(col, tab)
  }

  /** The column names derived from two stretches of keys are those of each, one after the other. */
  lemma {:induction false} FieldNamesAppend(a: seq<string>, b: seq<string>, tab: AssetTab)
    ensures FieldNames(a + b, tab) == FieldNames(a, tab) + FieldNames(b, tab)
  {
    if b == [] {
      assert a + b == a;
    } else {
      var b' := b[..|b| - 1];
      assert (a + b)[..|a + b| - 1] == a + b';
      assert (a + b)[|a + b| - 1] == b[|b| - 1];
      FieldNamesAppend(a, b', tab);
    }
  }

  /**
   * A name is a column exactly when it is a shown key, or a model or chassis column whose key is
   * present.
   */
  lemma {:induction false} FieldNamesMembers(keys: seq<string>, tab: AssetTab, f: string)
    ensures f in FieldNames(keys, tab) <==>
      (f in keys && Shown(f, tab))
      || ((f == "model__vendor" || f == "model__model_number") && "model" in keys)
      || (f == "chassis__hostname" && "chassis" in keys)
  {
    if keys != [] {
      var init, last := keys[..|keys| - 1], keys[|keys| - 1];
      FieldNamesMembers(init, tab, f);
      assert FieldNames(keys, tab) == FieldNames(init, tab) + Columns(last, tab);
      ColumnsMembers(last, tab, f);
      assert keys == init + [last];
      assert f in keys <==> f in init || f == last;
      assert "model" in keys <==> "model" in init || last == "model";
      assert "chassis" in keys <==> "chassis" in init || last == "chassis";
    }
  }

  /** The columns of one key: itself when shown, the two model columns for `model`, the host for `chassis`. */
  lemma ColumnsMembers(col: string, tab: AssetTab, f: string)
    ensures f in Columns(col, tab) <==>
      (f == col && Shown(f, tab))
      || ((f == "model__vendor" || f == "model__model_number") && col == "model")
      || (f == "chassis__hostname" && col == "chassis")
  {
  }

  /** `routeToDetailView`: the detail page of a row; the dashboard route and the table kind are inputs. */
  function DetailRoute(dashboard: string, tableType: string, item: AssetRef): (route: string)
    ensures |dashboard| + |tableType| + 2 <= |route|
    ensures route[..|dashboard| + |tableType| + 2] == dashboard + "/" + tableType + "/"
    ensures Js.ParseInt(route[|dashboard| + |tableType| + 2..]) == Some(NavigationId(item))
  {
    var prefix := dashboard + "/" + tableType + "/";
    var route := prefix + Strings.NatToString(NavigationId(item));
    Js.ParseIntOfNatToString(NavigationId(item));
    assert route[|prefix|..] == Strings.NatToString(NavigationId(item));
    route
  }

  /** The component state of one table. */
  class Table {
    var sortBy: seq<TableSort>
    var sortedCols: seq<string>
    var selected: seq<string>
    var selectedAll: bool
    var fields: seq<string>

    /** The initial state: nothing sorted, nothing selected, no columns. */
    constructor ()
      ensures sortBy == [] && sortedCols == [] && selected == [] && !selectedAll && fields == []
      ensures Valid()
    {
      sortBy := [];
      sortedCols := [];
      selected := [];
      selectedAll := false;
      fields := [];
    }

    function Sorts(): SortState
      reads this
    {
      SortState(sortBy, sortedCols)
    }

    /** What the handlers keep: consistent sort chips and a duplicate-free selection. */
    ghost predicate Valid()
      reads this
    {
      Consistent(Sorts()) && Lists.Distinct(selected)
    }

    /** `handleSort`; `ok` is false where the handler throws before changing anything. */
    method HandleSort(field: string) returns (ok: bool)
      modifies this
      ensures AfterSort(old(Sorts()), field) == (if ok then Some(Sorts()) else None)
      ensures !ok ==> sortBy == old(sortBy) && sortedCols == old(sortedCols)
      ensures selected == old(selected) && selectedAll == old(selectedAll) && fields == old(fields)
      ensures old(Valid()) ==> ok && Valid()
    {
      if old(Valid()) {
        SortKeepsConsistent(Sorts(), field);
      }
      var ascending: bool;
      var sorts := sortBy;
      if field in sortedCols {
        var found := Find(sortBy, field);
        if found.None? {
          return false;
        }
        ascending := !found.value.ascending;
        sorts := Without(sorts, field);
        sortBy := sorts;
      } else {
        ascending := true;
        sortedCols := sortedCols + [field];
      }
      sorts := sorts + [TableSort(field, ascending)];
      sortBy := sorts;
      ok := true;
    }

    /** `removeSortItem`. */
    method RemoveSortItem(field: string)
      modifies this
      ensures Sorts() == AfterRemove(old(Sorts()), field)
      ensures selected == old(selected) && selectedAll == old(selectedAll) && fields == old(fields)
      ensures old(Valid()) ==> Valid()
    {
      if Valid() {
        RemoveKeepsConsistent(Sorts(), field);
      }
      var cols := Lists.SpliceOut(sortedCols, field);
      sortBy := Without(sortBy, field);
      sortedCols := cols;
    }

    /** The row checkbox of an item whose asset number is `assetNumber`. */
    method ToggleRow(assetNumber: Option<string>)
      modifies this
      ensures Js.Truthy(assetNumber) ==> (selected == Toggle(old(selected), assetNumber.value)
        && selectedAll == (old(selectedAll) && assetNumber.value !in old(selected)))
      ensures !Js.Truthy(assetNumber) ==> selected == old(selected) && selectedAll == old(selectedAll)
      ensures sortBy == old(sortBy) && sortedCols == old(sortedCols) && fields == old(fields)
      ensures old(Valid()) ==> Valid()
    {
      if Js.Truthy(assetNumber) {
        var n := assetNumber.value;
        var sel := selected;
        if n in sel {
          if Lists.Distinct(sel) {
            Lists.RemoveFirstDistinct(sel, n);
          }
          if selectedAll {
            selectedAll := false;
          }
          sel := Lists.SpliceOut(sel, n);
        } else {
          if Lists.Distinct(sel) {
            Lists.AppendFreshDistinct(sel, n);
          }
          sel := sel + [n];
        }
        selected := sel;
      }
    }

    /** The select-all checkbox over the page's items, given by their asset numbers (`None` for non-assets). */
    method ToggleAll(numbers: seq<Option<string>>)
      modifies this
      ensures selectedAll == !old(selectedAll)
      ensures selected == SelectAll(old(selected), numbers, selectedAll)
      ensures sortBy == old(sortBy) && sortedCols == old(sortedCols) && fields == old(fields)
      ensures old(Valid()) ==> Valid()
    {
      if Valid() {
        SelectAllDistinct(selected, numbers, !selectedAll);
      }
      var on := !selectedAll;
      var sel := SelectAllLoop(selected, numbers, on);
      selectedAll := on;
      selected := sel;
    }

    /** `setFieldNamesFromData`: `items` holds the keys of each item, in the order `Object.keys` lists them. */
    method SetFieldNamesFromData(items: seq<seq<string>>, tab: AssetTab)
      modifies this
      ensures fields == if items == [] then [] else FieldNames(items[0], tab)
      ensures sortBy == old(sortBy) && sortedCols == old(sortedCols)
      ensures selected == old(selected) && selectedAll == old(selectedAll)
    {
      var names: seq<string> := [];
      if |items| > 0 {
        names := FieldNamesLoop(items[0], tab);
      }
      fields := names;
    }
  }
}
