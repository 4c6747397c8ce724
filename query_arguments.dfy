/**
 * `get_sort_arguments` and `get_filter_arguments`: turning the `sort_by` and `filters` lists of a
 * table request into ORM ordering strings and lookup arguments.
 */
module QueryArguments {
  import opened Wrappers
  import opened Python
  import Strings
  import ElementTable

  const MISSING_SORT_FIELDS := "Must specify 'field' and 'ascending' fields."
  const FIELD_NOT_STRING := "Field 'field' must be of type string."
  const ASCENDING_NOT_BOOL := "Field 'ascending' must be of type bool."
  const MISSING_FILTER_FIELDS := "Must specify 'field', 'filter_type', and 'filter' fields."
  const FILTER_TYPE_NOT_STRING := "Field 'filter_type' must be of type string."
  const FILTER_NOT_DICT := "Field 'filter' must be of type dict."
  const UNKNOWN_FILTER_TYPE := "String field 'filter_type' must be either 'text', 'numeric', or 'rack_range'."
  const INVALID_RACK_RANGE := "Invalid rack_range filter: "

  /** Prefix the items of a successful result; an error stays as it is. */
  function Prepend<T>(done: seq<T>, r: Result<seq<T>, Error>): Result<seq<T>, Error> {
    match r
    case Ok(rest) => Ok(done + rest)
    case Err(e) => Err(e)
  }

  lemma PrependNothing<T>(r: Result<seq<T>, Error>)
    ensures Prepend([], r) == r
  {
    if r.Ok? {
      assert [] + r.value == r.value;
    }
  }

  lemma PrependAssoc<T>(a: seq<T>, b: seq<T>, r: Result<seq<T>, Error>)
    ensures Prepend(a, Prepend(b, r)) == Prepend(a + b, r)
  {
    if r.Ok? {
      assert a + (b + r.value) == (a + b) + r.value;
    }
  }

  // ---------------------------------------------------------------- sorting

  /** The ordering string of one `sort_by` entry: `-field` for a descending sort, `field` otherwise. */
  function SortArgument(sort: Value): Result<string, Error> {
    match In("field", sort)
    case Err(e) => Err(e)
    case Ok(hasField) =>
      if !hasField then Err(Raised(MISSING_SORT_FIELDS))
      else match In("ascending", sort)
        case Err(e) => Err(e)
        case Ok(hasAscending) =>
          if !hasAscending then Err(Raised(MISSING_SORT_FIELDS))
          else match GetItem(sort, "field")
            case Err(e) => Err(e)
            case Ok(field) =>
              if !field.VStr? then Err(Raised(FIELD_NOT_STRING))
              else match GetItem(sort, "ascending")
                case Err(e) => Err(e)
                case Ok(ascending) =>
                  if !ascending.VBool? then Err(Raised(ASCENDING_NOT_BOOL))
                  else Ok((if ascending.b then "" else "-") + field.s)
  }

  /** The ordering strings of the entries in order; the first entry that fails decides the error. */
  function SortArguments(sorts: seq<Value>): Result<seq<string>, Error> {
    if sorts == [] then Ok([])
    else match SortArgument(sorts[0])
      case Err(e) => Err(e)
      case Ok(arg) => Prepend([arg], SortArguments(sorts[1..]))
  }

  /** One entry of `SortArguments` unfolded at position `i`. */
  lemma SortArgumentsStep(sorts: seq<Value>, i: nat)
    requires i < |sorts|
    ensures SortArguments(sorts[i..])
         == match SortArgument(sorts[i])
            case Err(e) => Err(e)
            case Ok(arg) => Prepend([arg], SortArguments(sorts[i + 1..]))
  {
    assert sorts[i..][0] == sorts[i];
    assert sorts[i..][1..] == sorts[i + 1..];
  }

  /** The ordering strings of a request: none without `sort_by`, otherwise one per entry it iterates. */
  function SortRequest(data: Value): Result<seq<string>, Error> {
    match In("sort_by", data)
    case Err(e) => Err(e)
    case Ok(present) =>
      if !present then Ok([])
      else match GetItem(data, "sort_by")
        case Err(e) => Err(e)
        case Ok(sortBy) =>
          match Iter(sortBy)
          case Err(e) => Err(e)
          case Ok(sorts) => SortArguments(sorts)
  }

  /** `get_sort_arguments`: `sort_args` grows by one string per entry; an exception ends the call. */
  method GetSortArguments(data: Value) returns (r: Result<seq<string>, Error>)
    ensures r == SortRequest(data)
  {
    var present := In("sort_by", data);
    if present.Err? { return Err(present.error); }
    var sortArgs: seq<string> := [];
    if present.value {
      var sortBy := GetItem(data, "sort_by");
      if sortBy.Err? { return Err(sortBy.error); }
      var items := Iter(sortBy.value);
      if items.Err? { return Err(items.error); }
      var sorts := items.value;
      var i := 0;
      PrependNothing(SortArguments(sorts));
      assert sorts[0..] == sorts;
      while i < |sorts|
        invariant 0 <= i <= |sorts|
        invariant SortArguments(sorts) == Prepend(sortArgs, SortArguments(sorts[i..]))
      {
        var sort := sorts[i];
        SortArgumentsStep(sorts, i);
        var arg := SortArgument(sort);
        if arg.Err? {
          assert SortArguments(sorts[i..]) == Err(arg.error);
          return Err(arg.error);
        }
        assert SortArguments(sorts[i..]) == Prepend([arg.value], SortArguments(sorts[i + 1..]));
        PrependAssoc(sortArgs, [arg.value], SortArguments(sorts[i + 1..]));
        sortArgs := sortArgs + [arg.value];
        i := i + 1;
      }
      assert sorts[i..] == [];
      assert sortArgs + [] == sortArgs;
    }
    return Ok(sortArgs);
  }

  /** How the table sends a sort chip: its field and direction (the `id` the chip also carries is not read). */
  function EncodeSort(chip: ElementTable.TableSort): Value {
    VDict([("field", VStr(chip.field)), ("ascending", VBool(chip.ascending)), ("id", VStr(chip.field))])
  }

  /** The ordering string the back end should derive from a chip. */
  function OrderingOf(chip: ElementTable.TableSort): string {
    (if chip.ascending then "" else "-") + chip.field
  }

  lemma SortArgumentOfChip(chip: ElementTable.TableSort)
    ensures SortArgument(EncodeSort(chip)) == Ok(OrderingOf(chip))
  {
    var m := EncodeSort(chip).entries;
    assert OccursKey(m, "field", 0);
    assert OccursKey(m, "ascending", 1);
  }

  /** Each sort entry gives exactly one ordering string, in entry order, or the call fails at an entry that fails. */
  lemma OneArgumentPerSort(sorts: seq<Value>)
    ensures SortArguments(sorts).Ok? <==> forall k | 0 <= k < |sorts| :: SortArgument(sorts[k]).Ok?
    ensures SortArguments(sorts).Ok? ==> |SortArguments(sorts).value| == |sorts|
    ensures SortArguments(sorts).Ok? ==>
      forall k | 0 <= k < |sorts| :: SortArguments(sorts).value[k] == SortArgument(sorts[k]).value
  {
    SortsSucceedIffEach(sorts);
    if SortArguments(sorts).Ok? {
      SortsValuesInOrder(sorts);
    }
  }

  /** The call succeeds exactly when every entry does. */
  lemma {:induction false} SortsSucceedIffEach(sorts: seq<Value>)
    ensures SortArguments(sorts).Ok? <==> forall k | 0 <= k < |sorts| :: SortArgument(sorts[k]).Ok?
  {
    if sorts != [] {
      var tail := sorts[1..];
      SortsSucceedIffEach(tail);
      if SortArgument(sorts[0]).Err? {
        assert SortArguments(sorts).Err?;
      } else if SortArguments(tail).Err? {
        assert SortArguments(sorts).Err?;
        var j :| 0 <= j < |tail| && !SortArgument(tail[j]).Ok?;
        assert sorts[j + 1] == tail[j];
      } else {
        assert SortArguments(sorts).Ok?;
        forall k | 0 <= k < |sorts| ensures SortArgument(sorts[k]).Ok? {
          if k > 0 {
            assert sorts[k] == tail[k - 1];
          }
        }
      }
    }
  }

  /** On success there is one ordering string per entry, in entry order. */
  lemma {:induction false} SortsValuesInOrder(sorts: seq<Value>)
    requires SortArguments(sorts).Ok?
    ensures |SortArguments(sorts).value| == |sorts|
    ensures forall k | 0 <= k < |sorts| ::
      SortArgument(sorts[k]).Ok? && SortArguments(sorts).value[k] == SortArgument(sorts[k]).value
  {
    if sorts != [] {
      var tail := sorts[1..];
      var first := SortArgument(sorts[0]);
      assert first.Ok? && SortArguments(tail).Ok?;
      SortsValuesInOrder(tail);
      var rest := SortArguments(tail).value;
      var whole := [first.value] + rest;
      assert SortArguments(sorts) == Ok(whole);
      forall k | 0 <= k < |sorts| ensures SortArgument(sorts[k]).Ok? && whole[k] == SortArgument(sorts[k]).value {
        if k > 0 {
          assert sorts[k] == tail[k - 1];
          assert whole[k] == rest[k - 1];
        }
      }
    }
  }

  /** The table's sort chips, sent as `sort_by`, come back as one ordering string each, in chip order. */
  lemma SortChipsRoundTrip(chips: seq<ElementTable.TableSort>, sorts: seq<Value>)
    requires |sorts| == |chips| && forall k | 0 <= k < |chips| :: sorts[k] == EncodeSort(chips[k])
    ensures SortArguments(sorts).Ok?
    ensures |SortArguments(sorts).value| == |chips|
    ensures forall k | 0 <= k < |chips| :: SortArguments(sorts).value[k] == OrderingOf(chips[k])
  {
    forall k | 0 <= k < |chips| ensures SortArgument(sorts[k]) == Ok(OrderingOf(chips[k])) {
      SortArgumentOfChip(chips[k]);
    }
    OneArgumentPerSort(sorts);
  }

  /** A sort entry without `ascending` is refused with the missing-fields message. */
  lemma SortWithoutDirection(field: string)
    ensures SortArgument(VDict([("field", VStr(field))])) == Err(Raised(MISSING_SORT_FIELDS))
  {
    var m := [("field", VStr(field))];
    assert OccursKey(m, "field", 0);
    assert !HasKey(m, "ascending");
  }

  /** `ascending` must be a real `bool`: `1` is refused even though `1 == True`. */
  lemma SortWithNumericDirection(field: string)
    ensures SortArgument(VDict([("field", VStr(field)), ("ascending", VInt(1))])) == Err(Raised(ASCENDING_NOT_BOOL))
  {
    var m := [("field", VStr(field)), ("ascending", VInt(1))];
    assert OccursKey(m, "field", 0);
    assert OccursKey(m, "ascending", 1);
  }

  // ---------------------------------------------------------------- filtering

  /** The value of a lookup argument: a given value, an inclusive pair of numbers, or an inclusive pair of row letters. */
  datatype FilterValue =
    | Given(v: Value)
    | Between(lo: int, hi: int)
    | RowsBetween(first: string, last: string)

  /** One `{lookup: value}` dict of the result. */
  datatype FilterArg = FilterArg(lookup: string, value: FilterValue)

  /** What the rack-range serializer makes of a filter dict. */
  datatype RackRangeCheck =
    | Invalid(errors: string)
    | Valid(numbers: (int, int), rows: (string, string))

  /** The lookup arguments of one `filters` entry, with the checks applied in the order `get_filter_arguments` applies them. */
  function FilterArgument(filter: Value, rackRange: Value -> RackRangeCheck): Result<seq<FilterArg>, Error> {
    match HasFilterFields(filter)
    case Err(e) => Err(e)
    case Ok(complete) =>
      if !complete then Err(Raised(MISSING_FILTER_FIELDS))
      else match GetItem(filter, "field")
        case Err(e) => Err(e)
        case Ok(field) =>
          if !field.VStr? then Err(Raised(FIELD_NOT_STRING))
          else match GetItem(filter, "filter_type")
            case Err(e) => Err(e)
            case Ok(filterType) =>
              if !filterType.VStr? then Err(Raised(FILTER_TYPE_NOT_STRING))
              else match GetItem(filter, "filter")
                case Err(e) => Err(e)
                case Ok(filterDict) =>
                  if !filterDict.VDict? then Err(Raised(FILTER_NOT_DICT))
                  else Lookups(field.s, filterType.s, filterDict, rackRange)
  }

  /** `'field' in f and 'filter_type' in f and 'filter' in f`, evaluated left to right. */
  function HasFilterFields(filter: Value): Result<bool, Error> {
    match In("field", filter)
    case Err(e) => Err(e)
    case Ok(a) =>
      if !a then Ok(false)
      else match In("filter_type", filter)
        case Err(e) => Err(e)
        case Ok(b) =>
          if !b then Ok(false)
          else In("filter", filter)
  }

  /** The lookups of a checked filter, by filter type. */
  function Lookups(field: string, filterType: string, filterDict: Value, rackRange: Value -> RackRangeCheck): Result<seq<FilterArg>, Error>
    requires filterDict.VDict?
  {
    if filterType == "text" then
      match GetItem(filterDict, "match_type")
      case Err(e) => Err(e)
      case Ok(matchType) =>
        if Eq(matchType, VStr("exact")) then
          match GetItem(filterDict, "value")
          case Err(e) => Err(e)
          case Ok(v) => Ok([FilterArg(field, Given(v))])
        else if Eq(matchType, VStr("contains")) then
          match GetItem(filterDict, "value")
          case Err(e) => Err(e)
          case Ok(v) => Ok([FilterArg(field + "__icontains", Given(v))])
        else Ok([])
    else if filterType == "numeric" then
      match IntItem(filterDict, "min")
      case Err(e) => Err(e)
      case Ok(lo) =>
        match IntItem(filterDict, "max")
        case Err(e) => Err(e)
        case Ok(hi) => Ok([FilterArg(field + "__range", Between(lo, hi))])
    else if filterType == "rack_range" then
      match rackRange(filterDict)
      case Invalid(errors) => Err(Raised(INVALID_RACK_RANGE + errors))
      case Valid(numbers, rows) =>
        Ok([FilterArg("rack__rack_num__range", Between(numbers.0, numbers.1)),
            FilterArg("rack__row_letter__range", RowsBetween(rows.0, rows.1))])
    else Err(Raised(UNKNOWN_FILTER_TYPE))
  }

  /** `int(d[key])`. */
  function IntItem(d: Value, key: string): Result<int, Error> {
    match GetItem(d, key)
    case Err(e) => Err(e)
    case Ok(v) => Int(v)
  }

  /** The lookups of the entries in order; the first entry that fails decides the error. */
  function FilterArguments(filters: seq<Value>, rackRange: Value -> RackRangeCheck): Result<seq<FilterArg>, Error> {
    if filters == [] then Ok([])
    else match FilterArgument(filters[0], rackRange)
      case Err(e) => Err(e)
      case Ok(args) => Prepend(args, FilterArguments(filters[1..], rackRange))
  }

  /** One entry of `FilterArguments` unfolded at position `i`. */
  lemma FilterArgumentsStep(entries: seq<Value>, rackRange: Value -> RackRangeCheck, i: nat)
    requires i < |entries|
    ensures FilterArguments(entries[i..], rackRange)
         == match FilterArgument(entries[i], rackRange)
            case Err(e) => Err(e)
            case Ok(args) => Prepend(args, FilterArguments(entries[i + 1..], rackRange))
  {
    assert entries[i..][0] == entries[i];
    assert entries[i..][1..] == entries[i + 1..];
  }

  /** The lookups of a request: none without `filters`, otherwise those of each entry it iterates. */
  function FilterRequest(data: Value, rackRange: Value -> RackRangeCheck): Result<seq<FilterArg>, Error> {
    match In("filters", data)
    case Err(e) => Err(e)
    case Ok(present) =>
      if !present then Ok([])
      else match GetItem(data, "filters")
        case Err(e) => Err(e)
        case Ok(filters) =>
          match Iter(filters)
          case Err(e) => Err(e)
          case Ok(entries) => FilterArguments(entries, rackRange)
  }

  /** `get_filter_arguments`: `filter_args` grows by the lookups of each entry; an exception ends the call. */
  method GetFilterArguments(data: Value, rackRange: Value -> RackRangeCheck) returns (r: Result<seq<FilterArg>, Error>)
    ensures r == FilterRequest(data, rackRange)
  {
    var present := In("filters", data);
    if present.Err? { return Err(present.error); }
    var filterArgs: seq<FilterArg> := [];
    if present.value {
      var filters := GetItem(data, "filters");
      if filters.Err? { return Err(filters.error); }
      var items := Iter(filters.value);
      if items.Err? { return Err(items.error); }
      var entries := items.value;
      var i := 0;
      PrependNothing(FilterArguments(entries, rackRange));
      assert entries[0..] == entries;
      while i < |entries|
        invariant 0 <= i <= |entries|
        invariant FilterArguments(entries, rackRange) == Prepend(filterArgs, FilterArguments(entries[i..], rackRange))
      {
        FilterArgumentsStep(entries, rackRange, i);
        var args := FilterArgument(entries[i], rackRange);
        if args.Err? {
          assert FilterArguments(entries[i..], rackRange) == Err(args.error);
          return Err(args.error);
        }
        assert FilterArguments(entries[i..], rackRange) == Prepend(args.value, FilterArguments(entries[i + 1..], rackRange));
        PrependAssoc(filterArgs, args.value, FilterArguments(entries[i + 1..], rackRange));
        filterArgs := filterArgs + args.value;
        i := i + 1;
      }
      assert entries[i..] == [];
      assert filterArgs + [] == filterArgs;
    }
    return Ok(filterArgs);
  }

  /** A filter entry as the table sends it. */
  function FilterEntry(field: string, filterType: string, filterDict: seq<(string, Value)>): Value {
    VDict([("field", VStr(field)), ("filter_type", VStr(filterType)), ("filter", VDict(filterDict))])
  }

  /** The checks of a well-formed entry pass, and its lookups are those of its type. */
  lemma WellFormedFilter(field: string, filterType: string, filterDict: seq<(string, Value)>, rackRange: Value -> RackRangeCheck)
    ensures FilterArgument(FilterEntry(field, filterType, filterDict), rackRange)
         == Lookups(field, filterType, VDict(filterDict), rackRange)
  {
    EntryFields(field, filterType, filterDict);
  }

  /** A filter entry as the table sends it has the three keys, holding its field, type and dict. */
  lemma EntryFields(field: string, filterType: string, filterDict: seq<(string, Value)>)
    ensures var f := FilterEntry(field, filterType, filterDict);
      && HasFilterFields(f) == Ok(true)
      && GetItem(f, "field") == Ok(VStr(field))
      && GetItem(f, "filter_type") == Ok(VStr(filterType))
      && GetItem(f, "filter") == Ok(VDict(filterDict))
  {
    var a, b, c := ("field", VStr(field)), ("filter_type", VStr(filterType)), ("filter", VDict(filterDict));
    LookupOfThree(a, b, c, "field");
    LookupOfThree(a, b, c, "filter_type");
    LookupOfThree(a, b, c, "filter");
  }

  /** A text filter matching exactly looks the field up by the given value. */
  lemma TextExact(field: string, v: Value, rackRange: Value -> RackRangeCheck)
    ensures FilterArgument(FilterEntry(field, "text", [("match_type", VStr("exact")), ("value", v)]), rackRange)
         == Ok([FilterArg(field, Given(v))])
  {
    var a, b := ("match_type", VStr("exact")), ("value", v);
    WellFormedFilter(field, "text", [a, b], rackRange);
    TextItems("exact", v);
    TextLookups(field, VDict([a, b]), "exact", v, rackRange);
  }

  /** A text filter matching by substring uses the case-insensitive `__icontains` lookup. */
  lemma TextContains(field: string, v: Value, rackRange: Value -> RackRangeCheck)
    ensures FilterArgument(FilterEntry(field, "text", [("match_type", VStr("contains")), ("value", v)]), rackRange)
         == Ok([FilterArg(field + "__icontains", Given(v))])
  {
    var a, b := ("match_type", VStr("contains")), ("value", v);
    WellFormedFilter(field, "text", [a, b], rackRange);
    TextItems("contains", v);
    TextLookups(field, VDict([a, b]), "contains", v, rackRange);
  }

  /** A text filter with any other match type adds no lookup. */
  lemma TextOtherMatch(field: string, matchType: string, v: Value, rackRange: Value -> RackRangeCheck)
    requires matchType != "exact" && matchType != "contains"
    ensures FilterArgument(FilterEntry(field, "text", [("match_type", VStr(matchType)), ("value", v)]), rackRange) == Ok([])
  {
    var a, b := ("match_type", VStr(matchType)), ("value", v);
    WellFormedFilter(field, "text", [a, b], rackRange);
    TextItems(matchType, v);
    TextLookups(field, VDict([a, b]), matchType, v, rackRange);
  }

  /** A text filter's dict as the table sends it holds its match type and its value. */
  lemma TextItems(matchType: string, v: Value)
    ensures GetItem(VDict([("match_type", VStr(matchType)), ("value", v)]), "match_type") == Ok(VStr(matchType))
    ensures GetItem(VDict([("match_type", VStr(matchType)), ("value", v)]), "value") == Ok(v)
  {
    var a, b := ("match_type", VStr(matchType)), ("value", v);
    LookupOfTwo(a, b, "match_type");
    LookupOfTwo(a, b, "value");
  }

  /** The text branch: `exact` looks the field up, `contains` uses `__icontains`, any other match type adds nothing. */
  lemma TextLookups(field: string, filterDict: Value, matchType: string, v: Value, rackRange: Value -> RackRangeCheck)
    requires GetItem(filterDict, "match_type") == Ok(VStr(matchType)) && GetItem(filterDict, "value") == Ok(v)
    ensures Lookups(field, "text", filterDict, rackRange)
         == if matchType == "exact" then Ok([FilterArg(field, Given(v))])
            else if matchType == "contains" then Ok([FilterArg(field + "__icontains", Given(v))])
            else Ok([])
  {
    assert Eq(VStr(matchType), VStr("exact")) <==> matchType == "exact";
    assert Eq(VStr(matchType), VStr("contains")) <==> matchType == "contains";
  }

  /** A numeric filter gives an inclusive `__range` on the numbers `min` and `max`, also when they arrive as text. */
  lemma NumericRange(field: string, lo: int, hi: int, rackRange: Value -> RackRangeCheck)
    ensures FilterArgument(FilterEntry(field, "numeric", [("min", VStr(Strings.IntToString(lo))), ("max", VInt(hi))]), rackRange)
         == Ok([FilterArg(field + "__range", Between(lo, hi))])
  {
    var a, b := ("min", VStr(Strings.IntToString(lo))), ("max", VInt(hi));
    WellFormedFilter(field, "numeric", [a, b], rackRange);
    RangeBounds(lo, hi);
    NumericLookups(field, VDict([a, b]), lo, hi, rackRange);
  }

  /** `min` sent as text and `max` sent as a number both read as their numbers. */
  lemma RangeBounds(lo: int, hi: int)
    ensures IntItem(VDict([("min", VStr(Strings.IntToString(lo))), ("max", VInt(hi))]), "min") == Ok(lo)
    ensures IntItem(VDict([("min", VStr(Strings.IntToString(lo))), ("max", VInt(hi))]), "max") == Ok(hi)
  {
    var a, b := ("min", VStr(Strings.IntToString(lo))), ("max", VInt(hi));
    assert "min"[1] != "max"[1];
    LookupOfTwo(a, b, "min");
    LookupOfTwo(a, b, "max");
    IntOfIntToString(lo);
  }

  /** The numeric branch: bounds that read as numbers give the inclusive `__range` lookup. */
  lemma NumericLookups(field: string, filterDict: Value, lo: int, hi: int, rackRange: Value -> RackRangeCheck)
    requires IntItem(filterDict, "min") == Ok(lo) && IntItem(filterDict, "max") == Ok(hi)
    ensures Lookups(field, "numeric", filterDict, rackRange) == Ok([FilterArg(field + "__range", Between(lo, hi))])
  {
    assert "numeric" != "text";
  }

  /** Any filter type other than the three known ones is refused. */
  lemma UnknownFilterType(field: string, filterType: string, filterDict: seq<(string, Value)>, rackRange: Value -> RackRangeCheck)
    requires filterType != "text" && filterType != "numeric" && filterType != "rack_range"
    ensures FilterArgument(FilterEntry(field, filterType, filterDict), rackRange) == Err(Raised(UNKNOWN_FILTER_TYPE))
  {
    WellFormedFilter(field, filterType, filterDict, rackRange);
  }

  /** The list's lookups exist exactly when every entry's do, and then they are the entries' lookups in entry order. */
  lemma {:induction false} FilterArgumentsEach(filters: seq<Value>, rackRange: Value -> RackRangeCheck)
    ensures FilterArguments(filters, rackRange).Ok? <==> forall k | 0 <= k < |filters| :: FilterArgument(filters[k], rackRange).Ok?
    ensures FilterArguments(filters, rackRange).Ok? ==>
      FilterArguments(filters, rackRange).value == ConcatLookups(filters, rackRange)
  {
    if filters != [] {
      FilterArgumentsEach(filters[1..], rackRange);
      assert forall k | 1 <= k < |filters| :: filters[k] == filters[1..][k - 1];
    }
  }

  /** The lookups of each entry, one after the other, for entries that all pass. */
  function ConcatLookups(filters: seq<Value>, rackRange: Value -> RackRangeCheck): seq<FilterArg>
    requires forall k | 0 <= k < |filters| :: FilterArgument(filters[k], rackRange).Ok?
  {
    if filters == [] then []
    else
      assert forall k | 1 <= k < |filters| :: filters[k] == filters[1..][k - 1];
      FilterArgument(filters[0], rackRange).value + ConcatLookups(filters[1..], rackRange)
  }
}
