/**
 * The PWR trends pipeline (src/utils/pwr_trends.py): reconcile the staff roles
 * of the queried rows (overwriting `staff_role` and adding its shorthand),
 * then prepare the WTE-by-contract chart data: group-sum WTE by fiscal year,
 * fiscal month and contract, label each group with its period, split
 * substantive from other contracts and name the fiscal months.
 */
module PwrTrends {
  import opened Wrappers
  import opened Frames
  import opened FuzzyMatch
  import opened Strings

  /** A row returned by the PWR query (the columns the modelled code reads). */
  datatype PwrRow = PwrRow(
    finYear: string,
    finMonth: int,
    contract: string,
    staffRole: string,
    wte: real)

  /** A row after reconciliation: `staff_role` now holds the front name (or null) and its shorthand is added. */
  datatype PwrRecord = PwrRecord(
    finYear: string,
    finMonth: int,
    contract: string,
    staffRole: Option<string>,
    staffRoleShorthand: Option<string>,
    wte: real)

  // ---------------------------------------------------------------------------
  // Role reconciliation

  /**
   * Builds `sr_map` and `sr_shorthand_map` in one pass over the lookup rows:
   * matched roles are (re)assigned the row's front name, and the front name is
   * (re)assigned the row's shorthand whether or not anything matched.
   */
  method BuildRoleMaps(roles: seq<string>, lookup: seq<LookupRow>)
    returns (srMap: map<string, string>, srShorthandMap: map<string, string>)
    requires LiteralLookup(lookup)
    ensures forall v :: v in srMap <==> v in roles && LastMatch(v, lookup).Some?
    ensures forall v :: v in srMap ==> srMap[v] == LastMatch(v, lookup).value
    ensures forall f :: f in srShorthandMap <==> LastShorthand(f, lookup).Some?
    ensures forall f :: f in srShorthandMap ==> srShorthandMap[f] == LastShorthand(f, lookup).value
  {
    srMap, srShorthandMap := map[], map[];
    var i := 0;
    while i < |lookup|
      invariant 0 <= i <= |lookup|
      invariant forall v :: v in srMap <==> v in roles && LastMatch(v, lookup[..i]).Some?
      invariant forall v :: v in srMap ==> srMap[v] == LastMatch(v, lookup[..i]).value
      invariant forall f :: f in srShorthandMap <==> LastShorthand(f, lookup[..i]).Some?
      invariant forall f :: f in srShorthandMap ==> srShorthandMap[f] == LastShorthand(f, lookup[..i]).value
    {
      var fuzzyName := lookup[i].fragment;
      var frontName := lookup[i].frontName;
      var frontShort := lookup[i].shorthand;
      var srValues := FuzzySearch(roles, fuzzyName);
      ghost var before := srMap;
      var j := 0;
      while j < |srValues|
        invariant 0 <= j <= |srValues|
        invariant forall v :: v in srMap <==> v in before || v in srValues[..j]
        invariant forall v :: v in srMap ==> srMap[v] == if v in srValues[..j] then frontName else before[v]
      {
        assert srValues[..j + 1] == srValues[..j] + [srValues[j]];
        srMap := srMap[srValues[j] := frontName];
        j := j + 1;
      }
      assert srValues[..j] == srValues;
      forall v
        ensures v in srMap <==> v in roles && LastMatch(v, lookup[..i + 1]).Some?
        ensures v in srMap ==> srMap[v] == LastMatch(v, lookup[..i + 1]).value
      {
        LastMatchStep(v, lookup, i);
      }
      srShorthandMap := srShorthandMap[frontName := frontShort];
      forall f
        ensures f in srShorthandMap <==> LastShorthand(f, lookup[..i + 1]).Some?
        ensures f in srShorthandMap ==> srShorthandMap[f] == LastShorthand(f, lookup[..i + 1]).value
      {
        LastShorthandStep(f, lookup, i);
      }
      i := i + 1;
    }
    assert lookup[..i] == lookup;
  }

  /** The `staff_role` field of a row. */
  function StaffRoleOf(row: PwrRow): string { row.staffRole }

  /** `staff_role.map(sr_shorthand_map)`: a null role stays null. */
  function ShorthandOf(role: Option<string>, lookup: seq<LookupRow>): Option<string> {
    if role.None? then None else LastShorthand(role.value, lookup)
  }

  /** A row with its role replaced by `role` and the shorthand `short` added. */
  function Remapped(row: PwrRow, role: Option<string>, short: Option<string>): PwrRecord {
    PwrRecord(row.finYear, row.finMonth, row.contract, role, short, row.wte)
  }

  /**
   * `nwfs_staff_role_fuzzy_mapping` of the PWR pipeline: each row's role
   * becomes the front name of the last lookup row whose fragment it contains
   * (null if none), and its shorthand is that front name's shorthand.
   */
  method StaffRoleFuzzyMapping(rows: seq<PwrRow>, lookup: seq<LookupRow>) returns (out: seq<PwrRecord>)
    requires LiteralLookup(lookup)
    ensures |out| == |rows|
    ensures forall i :: 0 <= i < |rows| ==>
      var role := LastMatch(rows[i].staffRole, lookup);
      out[i] == Remapped(rows[i], role, ShorthandOf(role, lookup))
  {
    var srMap, srShorthandMap := BuildRoleMaps(Column(rows, StaffRoleOf), lookup);
    var roles := seq(|rows|, i requires 0 <= i < |rows| =>
      if rows[i].staffRole in srMap then Some(srMap[rows[i].staffRole]) else None);
    out := seq(|rows|, i requires 0 <= i < |rows| =>
      var short := if roles[i].Some? && roles[i].value in srShorthandMap
        then Some(srShorthandMap[roles[i].value]) else None;
      Remapped(rows[i], roles[i], short));
  }

  /** After mapping, the shorthand is null exactly when the role is null. */
  lemma {:induction false} ShorthandNullIffRoleNull(role: string, lookup: seq<LookupRow>)
    ensures ShorthandOf(LastMatch(role, lookup), lookup).None? <==> LastMatch(role, lookup).None?
  {
    if LastMatch(role, lookup).Some? {
      MatchedRoleHasShorthand(role, lookup);
    }
  }

  // ---------------------------------------------------------------------------
  // Group-by sum of WTE

  /** The group-by key `(fin_year, fin_month, contract)`. */
  datatype GroupKey = GroupKey(finYear: string, finMonth: int, contract: string)

  function KeyOf(row: PwrRecord): GroupKey {
    GroupKey(row.finYear, row.finMonth, row.contract)
  }

  /** The order in which the group-by lists its keys: lexicographic on the three columns. */
  predicate KeyLess(a: GroupKey, b: GroupKey) {
    || StrLess(a.finYear, b.finYear)
    || (a.finYear == b.finYear && a.finMonth < b.finMonth)
    || (a.finYear == b.finYear && a.finMonth == b.finMonth && StrLess(a.contract, b.contract))
  }

  lemma KeyLessIrreflexive(a: GroupKey)
    ensures !KeyLess(a, a)
  {
    StrLessIrreflexive(a.finYear);
    StrLessIrreflexive(a.contract);
  }

  lemma KeyLessTransitive(a: GroupKey, b: GroupKey, c: GroupKey)
    requires KeyLess(a, b) && KeyLess(b, c)
    ensures KeyLess(a, c)
  {
    StrLessIrreflexive(a.finYear);
    StrLessIrreflexive(b.finYear);
    if StrLess(a.finYear, b.finYear) && StrLess(b.finYear, c.finYear) {
      StrLessTransitive(a.finYear, b.finYear, c.finYear);
    }
    if a.finYear == b.finYear == c.finYear && a.finMonth == b.finMonth == c.finMonth {
      StrLessTransitive(a.contract, b.contract, c.contract);
    }
  }

  lemma KeyLessTotal(a: GroupKey, b: GroupKey)
    requires a != b
    ensures KeyLess(a, b) || KeyLess(b, a)
  {
    if a.finYear != b.finYear {
      StrLessTotal(a.finYear, b.finYear);
    } else if a.finMonth == b.finMonth {
      StrLessTotal(a.contract, b.contract);
    }
  }

  predicate StrictlySorted(ks: seq<GroupKey>) {
    forall i, j :: 0 <= i < j < |ks| ==> KeyLess(ks[i], ks[j])
  }

  /** Adds a key to a strictly sorted key list unless it is already there. */
  function InsertKey(ks: seq<GroupKey>, k: GroupKey): (r: seq<GroupKey>)
    requires StrictlySorted(ks)
    ensures StrictlySorted(r)
    ensures forall x :: x in r <==> x in ks || x == k
  {
    if ks == [] then [k]
    else if k == ks[0] then ks
    else if KeyLess(k, ks[0]) then
      assert forall j :: 0 <= j < |ks| ==> KeyLess(k, ks[j]) by {
        forall j | 0 < j < |ks| ensures KeyLess(k, ks[j]) {
          KeyLessTransitive(k, ks[0], ks[j]);
        }
      }
      [k] + ks
    else
      KeyLessTotal(k, ks[0]);
      var rest := InsertKey(ks[1..], k);
      assert forall x :: x in rest ==> KeyLess(ks[0], x);
      [ks[0]] + rest
  }

  /** The distinct group keys of the rows, in ascending key order. */
  function SortedKeys(rows: seq<PwrRecord>): (ks: seq<GroupKey>)
    ensures StrictlySorted(ks)
    ensures forall k :: k in ks <==> exists i :: 0 <= i < |rows| && KeyOf(rows[i]) == k
  {
    if rows == [] then []
    else
      var n := |rows| - 1;
      var ks := InsertKey(SortedKeys(rows[..n]), KeyOf(rows[n]));
      assert forall i :: 0 <= i < n ==> rows[..n][i] == rows[i];
      ks
  }

  /** The mask "the row belongs to group `k`". */
  function HasKey(k: GroupKey): PwrRecord -> bool {
    row => KeyOf(row) == k
  }

  function RecordWte(row: PwrRecord): real { row.wte }

  /** The WTE of group `k`: the sum over the rows that carry that key. */
  function SumFor(rows: seq<PwrRecord>, k: GroupKey): real {
    Sum(Filter(rows, HasKey(k)), RecordWte)
  }

  /** One aggregated row: a key and its summed WTE (`as_index=False`). */
  datatype AggRow = AggRow(key: GroupKey, wte: real)

  function AggWte(row: AggRow): real { row.wte }

  /**
   * `groupby(['fin_year', 'fin_month', 'contract'], as_index=False)['wte'].sum()`:
   * one row per distinct key present, in ascending key order, carrying the
   * sum of WTE over that key.
   */
  function GroupSum(rows: seq<PwrRecord>): (r: seq<AggRow>)
    ensures |r| == |SortedKeys(rows)|
    ensures forall i :: 0 <= i < |r| ==> r[i].key == SortedKeys(rows)[i]
    ensures forall i :: 0 <= i < |r| ==> r[i].wte == SumFor(rows, r[i].key)
  {
    var ks := SortedKeys(rows);
    seq(|ks|, i requires 0 <= i < |ks| => AggRow(ks[i], SumFor(rows, ks[i])))
  }

  /** The group-by emits each key present in the input exactly once, and no other key, in ascending order. */
  lemma GroupSumKeys(rows: seq<PwrRecord>)
    ensures forall i, j :: 0 <= i < j < |GroupSum(rows)| ==> KeyLess(GroupSum(rows)[i].key, GroupSum(rows)[j].key)
    ensures forall i, j :: 0 <= i < j < |GroupSum(rows)| ==> GroupSum(rows)[i].key != GroupSum(rows)[j].key
    ensures forall i :: 0 <= i < |GroupSum(rows)| ==>
      exists j :: 0 <= j < |rows| && KeyOf(rows[j]) == GroupSum(rows)[i].key
    ensures forall j :: 0 <= j < |rows| ==>
      exists i :: 0 <= i < |GroupSum(rows)| && GroupSum(rows)[i].key == KeyOf(rows[j])
  {
    var ks := SortedKeys(rows);
    var r := GroupSum(rows);
    SortedHasNoDup(ks);
    forall i | 0 <= i < |r| ensures exists j :: 0 <= j < |rows| && KeyOf(rows[j]) == r[i].key {
      assert r[i].key == ks[i] && ks[i] in ks;
    }
    forall j | 0 <= j < |rows| ensures exists i :: 0 <= i < |r| && r[i].key == KeyOf(rows[j]) {
      assert KeyOf(rows[j]) in ks;
      var i :| 0 <= i < |ks| && ks[i] == KeyOf(rows[j]);
      assert r[i].key == ks[i];
    }
  }

  /** No key occurs twice in a strictly sorted key list. */
  lemma SortedHasNoDup(ks: seq<GroupKey>)
    requires StrictlySorted(ks)
    ensures NoDup(ks)
  {
    forall i, j | 0 <= i < j < |ks| ensures ks[i] != ks[j] {
      KeyLessIrreflexive(ks[i]);
    }
  }

  /** The group sums of a key list, added up. */
  function SumOverKeys(ks: seq<GroupKey>, rows: seq<PwrRecord>): real {
    if ks == [] then 0.0 else SumOverKeys(ks[..|ks| - 1], rows) + SumFor(rows, ks[|ks| - 1])
  }

  lemma SumForSnoc(rows: seq<PwrRecord>, x: PwrRecord, k: GroupKey)
    ensures SumFor(rows + [x], k) == SumFor(rows, k) + if KeyOf(x) == k then x.wte else 0.0
  {
    FilterConcat(rows, [x], HasKey(k));
    assert [x][..0] == [];
    if KeyOf(x) == k {
      SumSnoc(Filter(rows, HasKey(k)), x, RecordWte);
    } else {
      assert Filter(rows, HasKey(k)) + [] == Filter(rows, HasKey(k));
    }
  }

  lemma {:induction false} SumOverKeysSnoc(ks: seq<GroupKey>, rows: seq<PwrRecord>, x: PwrRecord)
    requires NoDup(ks)
    ensures SumOverKeys(ks, rows + [x]) == SumOverKeys(ks, rows) + if KeyOf(x) in ks then x.wte else 0.0
  {
    if ks != [] {
      var n := |ks| - 1;
      SumOverKeysSnoc(ks[..n], rows, x);
      SumForSnoc(rows, x, ks[n]);
      assert ks == ks[..n] + [ks[n]];
      assert KeyOf(x) in ks[..n] ==> KeyOf(x) != ks[n];
    }
  }

  /** Summing the group sums over a duplicate-free list holding every key gives the total WTE. */
  lemma {:induction false} SumOverKeysIsTotal(ks: seq<GroupKey>, rows: seq<PwrRecord>)
    requires NoDup(ks)
    requires forall i :: 0 <= i < |rows| ==> KeyOf(rows[i]) in ks
    ensures SumOverKeys(ks, rows) == Sum(rows, RecordWte)
  {
    if rows == [] {
      assert forall k :: SumFor(rows, k) == 0.0;
      SumOverKeysOfEmpty(ks);
    } else {
      var n := |rows| - 1;
      assert rows == rows[..n] + [rows[n]];
      SumOverKeysIsTotal(ks, rows[..n]);
      SumOverKeysSnoc(ks, rows[..n], rows[n]);
    }
  }

  lemma {:induction false} SumOverKeysOfEmpty(ks: seq<GroupKey>)
    ensures SumOverKeys(ks, []) == 0.0
  {
    if ks != [] {
      SumOverKeysOfEmpty(ks[..|ks| - 1]);
    }
  }

  lemma {:induction false} AggSumIsKeySum(agg: seq<AggRow>, ks: seq<GroupKey>, rows: seq<PwrRecord>)
    requires |agg| == |ks|
    requires forall i :: 0 <= i < |agg| ==> agg[i].key == ks[i] && agg[i].wte == SumFor(rows, ks[i])
    ensures Sum(agg, AggWte) == SumOverKeys(ks, rows)
  {
    if agg != [] {
      var n := |agg| - 1;
      AggSumIsKeySum(agg[..n], ks[..n], rows);
    }
  }

  /** The group-by preserves the total WTE. */
  lemma GroupSumPreservesTotal(rows: seq<PwrRecord>)
    ensures Sum(GroupSum(rows), AggWte) == Sum(rows, RecordWte)
  {
    var ks := SortedKeys(rows);
    var agg := GroupSum(rows);
    SortedHasNoDup(ks);
    AggSumIsKeySum(agg, ks, rows);
    SumOverKeysIsTotal(ks, rows);
  }

  // ---------------------------------------------------------------------------
  // Period label, contract split and month names

  /** An aggregated row with its `period` label. */
  datatype PeriodRow = PeriodRow(key: GroupKey, wte: real, period: string)

  function PeriodWte(row: PeriodRow): real { row.wte }

  /**
   * `fin_year + "_" + str(fin_month)`: the fiscal year, an underscore, and
   * text that reads back as the fiscal month and holds no underscore.
   */
  function Period(k: GroupKey): (r: string)
    ensures |r| > |k.finYear| && r[..|k.finYear|] == k.finYear && r[|k.finYear|] == '_'
    ensures ParseDecimal(r[|k.finYear| + 1..]) == Some(k.finMonth)
    ensures '_' !in r[|k.finYear| + 1..]
  {
    var r := k.finYear + "_" + Decimal(k.finMonth);
    assert r[|k.finYear| + 1..] == Decimal(k.finMonth);
    DecimalRoundTrip(k.finMonth);
    r
  }

  /** The separator is the last underscore of a period label: none follows it. */
  lemma LastUnderscore(k: GroupKey, j: int)
    requires |k.finYear| < j < |Period(k)|
    ensures Period(k)[j] != '_'
  {
    assert Period(k)[j] == Period(k)[|k.finYear| + 1..][j - |k.finYear| - 1];
  }

  /** Distinct (year, month) pairs get distinct period labels, whatever the fiscal years contain. */
  lemma PeriodInjective(a: GroupKey, b: GroupKey)
    requires Period(a) == Period(b)
    ensures a.finYear == b.finYear && a.finMonth == b.finMonth
  {
    if |a.finYear| < |b.finYear| {
      LastUnderscore(a, |b.finYear|);
    } else if |b.finYear| < |a.finYear| {
      LastUnderscore(b, |a.finYear|);
    }
    assert a.finYear == Period(a)[..|a.finYear|];
  }

  /** Adds the `period` column to the aggregated rows. */
  function AddPeriod(agg: seq<AggRow>): (r: seq<PeriodRow>)
    ensures |r| == |agg|
    ensures forall i :: 0 <= i < |agg| ==> r[i] == PeriodRow(agg[i].key, agg[i].wte, Period(agg[i].key))
  {
    seq(|agg|, i requires 0 <= i < |agg| => PeriodRow(agg[i].key, agg[i].wte, Period(agg[i].key)))
  }

  lemma {:induction false} AddPeriodKeepsTotal(agg: seq<AggRow>)
    ensures Sum(AddPeriod(agg), PeriodWte) == Sum(agg, AggWte)
  {
    if agg != [] {
      var n := |agg| - 1;
      AddPeriodKeepsTotal(agg[..n]);
      assert AddPeriod(agg)[..n] == AddPeriod(agg[..n]);
    }
  }

  const SubstantiveContract := "Substantive"

  function IsSubstantive(row: PeriodRow): bool { row.key.contract == SubstantiveContract }
  function NotSubstantive(row: PeriodRow): bool { row.key.contract != SubstantiveContract }

  /** `df_sub` and `df_temp`: the substantive rows and all other rows, each in aggregated order. */
  function SplitByContract(agg: seq<PeriodRow>): (r: (seq<PeriodRow>, seq<PeriodRow>))
    ensures multiset(r.0) + multiset(r.1) == multiset(agg)
    ensures forall row :: row in r.0 ==> row.key.contract == SubstantiveContract
    ensures forall row :: row in r.1 ==> row.key.contract != SubstantiveContract
  {
    FilterCount(agg, IsSubstantive);
    FilterCount(agg, NotSubstantive);
    (Filter(agg, IsSubstantive), Filter(agg, NotSubstantive))
  }

  /** Both series keep the aggregated order: splitting a concatenation splits each part. */
  lemma SplitKeepsOrder(a: seq<PeriodRow>, b: seq<PeriodRow>)
    ensures SplitByContract(a + b).0 == SplitByContract(a).0 + SplitByContract(b).0
    ensures SplitByContract(a + b).1 == SplitByContract(a).1 + SplitByContract(b).1
  {
    FilterConcat(a, b, IsSubstantive);
    FilterConcat(a, b, NotSubstantive);
  }

  /** Fiscal month number to month abbreviation; month 1 is April. */
  const MonthMap: map<int, string> := map[
    1 := "Apr", 2 := "May", 3 := "Jun", 4 := "Jul",
    5 := "Aug", 6 := "Sep", 7 := "Oct", 8 := "Nov",
    9 := "Dec", 10 := "Jan", 11 := "Feb", 12 := "Mar"]

  /** The calendar months in calendar order. */
  const CalendarMonths: seq<string> :=
    ["Jan", "Feb", "Mar", "Apr", "May", "Jun", "Jul", "Aug", "Sep", "Oct", "Nov", "Dec"]

  /** `month_map[m]`: a month outside 1..12 raises a KeyError carrying that month. */
  function MonthName(m: int): (r: Result<string, int>)
    ensures r.Ok? <==> 1 <= m <= 12
    ensures r.Err? ==> r.error == m
  {
    if m in MonthMap then Ok(MonthMap[m]) else Err(m)
  }

  /** Fiscal month m is calendar month ((m + 2) mod 12) + 1: the fiscal year starts in April. */
  lemma MonthNameIsFiscalCalendar(m: int)
    requires 1 <= m <= 12
    ensures MonthName(m) == Ok(CalendarMonths[(m + 2) % 12])
  {
  }

  /** The twelve abbreviations are pairwise different. */
  lemma CalendarMonthsDistinct()
    ensures NoDup(CalendarMonths)
  {
  }

  /** The month map is defined on exactly the fiscal months 1..12. */
  lemma MonthMapDomain()
    ensures forall m :: m in MonthMap <==> 1 <= m <= 12
  {
  }

  /** Every month abbreviation is the name of some fiscal month. */
  lemma MonthMapOnto()
    ensures forall i :: 0 <= i < 12 ==> CalendarMonths[i] in MonthMap.Values
  {
    forall i | 0 <= i < 12 ensures CalendarMonths[i] in MonthMap.Values {
      var m := (i + 9) % 12 + 1;
      MonthNameIsFiscalCalendar(m);
      assert (m + 2) % 12 == i;
    }
  }

  /** No two fiscal months share a name. */
  lemma MonthMapInjective()
    ensures forall a, b :: a in MonthMap && b in MonthMap && MonthMap[a] == MonthMap[b] ==> a == b
  {
  }

  /** The `fin_month` field of a labelled row. */
  function MonthOf(row: PeriodRow): int { row.key.finMonth }

  /**
   * `[month_map[item] for item in months]`: the month names in order, or the
   * KeyError of the first month outside 1..12.
   */
  function MonthLabels(months: seq<int>): (r: Result<seq<string>, int>)
    ensures r.Ok? <==> forall i :: 0 <= i < |months| ==> 1 <= months[i] <= 12
    ensures r.Ok? ==> |r.value| == |months|
    ensures r.Ok? ==> forall i :: 0 <= i < |months| ==> MonthName(months[i]) == Ok(r.value[i])
    ensures r.Err? ==> exists i :: 0 <= i < |months| && months[i] == r.error &&
                                 !(1 <= months[i] <= 12) && forall j :: 0 <= j < i ==> 1 <= months[j] <= 12
  {
    if months == [] then Ok([])
    else match MonthName(months[0])
      case Err(m) => Err(m)
      case Ok(name) =>
        var rest := MonthLabels(months[1..]);
        if rest.Err? then
          ghost var i :| 0 <= i < |months[1..]| && months[1..][i] == rest.error &&
            !(1 <= months[1..][i] <= 12) && forall j :: 0 <= j < i ==> 1 <= months[1..][j] <= 12;
          assert months[i + 1] == rest.error;
          Err(rest.error)
        else
          Ok([name] + rest.value)
  }

  /** The data behind the WTE-by-contract chart. */
  datatype ContractSeries = ContractSeries(sub: seq<PeriodRow>, temp: seq<PeriodRow>, xticksMonths: seq<string>)

  /**
   * The chart series from `df_sub` and `df_temp`: the month labels of the
   * substantive series, or the KeyError of its first month outside 1..12.
   */
  function SeriesOf(sub: seq<PeriodRow>, temp: seq<PeriodRow>): (r: Result<ContractSeries, int>)
    ensures r.Ok? <==> forall i :: 0 <= i < |sub| ==> 1 <= sub[i].key.finMonth <= 12
    ensures r.Ok? ==> r.value.sub == sub && r.value.temp == temp
    ensures r.Ok? ==> |r.value.xticksMonths| == |sub|
    ensures r.Ok? ==> forall i :: 0 <= i < |sub| ==> MonthName(sub[i].key.finMonth) == Ok(r.value.xticksMonths[i])
    ensures r.Err? ==> exists i :: (0 <= i < |sub| && sub[i].key.finMonth == r.error &&
      !(1 <= r.error <= 12) && forall j :: 0 <= j < i ==> 1 <= sub[j].key.finMonth <= 12)
  {
    match MonthLabels(Column(sub, MonthOf))
    case Err(m) => Err(m)
    case Ok(xticksMonths) => Ok(ContractSeries(sub, temp, xticksMonths))
  }

  /** `df_sub` and `df_temp` of the queried rows: group-sum, period label, contract split. */
  function ChartSplit(rows: seq<PwrRecord>): (seq<PeriodRow>, seq<PeriodRow>) {
    SplitByContract(AddPeriod(GroupSum(rows)))
  }

  /**
   * The data steps of `plot_wte_by_contract`: group-sum, period label,
   * contract split and the month names of the substantive series.
   */
  function WteByContract(rows: seq<PwrRecord>): (r: Result<ContractSeries, int>)
    ensures var sub := ChartSplit(rows).0;
      r.Ok? <==> forall i :: 0 <= i < |sub| ==> 1 <= sub[i].key.finMonth <= 12
    ensures r.Ok? ==> r.value.sub == ChartSplit(rows).0 && r.value.temp == ChartSplit(rows).1
    ensures r.Ok? ==> |r.value.xticksMonths| == |r.value.sub|
    ensures r.Ok? ==> forall i :: 0 <= i < |r.value.sub| ==>
      MonthName(r.value.sub[i].key.finMonth) == Ok(r.value.xticksMonths[i])
    ensures var sub := ChartSplit(rows).0;
      r.Err? ==> exists i :: (0 <= i < |sub| && sub[i].key.finMonth == r.error &&
        !(1 <= r.error <= 12) && forall j :: 0 <= j < i ==> 1 <= sub[j].key.finMonth <= 12)
  {
    var split := ChartSplit(rows);
    SeriesOf(split.0, split.1)
  }

  /** Between them the two chart series carry all of the input WTE. */
  lemma WteByContractKeepsTotal(rows: seq<PwrRecord>)
    requires WteByContract(rows).Ok?
    ensures Sum(WteByContract(rows).value.sub, PeriodWte) + Sum(WteByContract(rows).value.temp, PeriodWte)
      == Sum(rows, RecordWte)
  {
    var agg := GroupSum(rows);
    GroupSumPreservesTotal(rows);
    AddPeriodKeepsTotal(agg);
    SumMaskSplit(AddPeriod(agg), IsSubstantive, NotSubstantive, PeriodWte);
  }
}
