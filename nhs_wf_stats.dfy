/**
 * The NHS Workforce Statistics pipeline (src/utils/nhs_wf_stats.py): after the
 * extract files are concatenated, keep six columns under canonical names, keep
 * the configured organisations and the allied-health staff group, then attach
 * the reconciled front-end role name to every row.
 */
module NhsWfStats {
  import opened Wrappers
  import opened Frames
  import opened FuzzyMatch

  /** A cell of a raw extract, as read from CSV: text, or a number. */
  datatype Cell = Text(text: string) | Number(number: real)

  /** The concatenated raw extract: its column names and one name-to-cell map per row. */
  datatype RawTable = RawTable(columns: set<string>, rows: seq<map<string, Cell>>)

  /** Every row has exactly the table's columns. */
  predicate WellFormed(t: RawTable) {
    forall i :: 0 <= i < |t.rows| ==> t.rows[i].Keys == t.columns
  }

  /** The part of the run-time settings the pipeline reads. */
  datatype Settings = Settings(
    orgCodes: seq<string>,
    colAhp: string,
    colRole: string,
    colBand: string)

  const DateColumn := "Date"
  const OrgColumn := "Org code"
  const FteColumn := "Total FTE"

  /** The fragment that marks an allied-health staff group. */
  const AlliedFragment := "_Allied"

  /** The six source columns kept, in selection order. */
  function SourceColumns(cfg: Settings): seq<string> {
    [DateColumn, OrgColumn, cfg.colAhp, cfg.colRole, cfg.colBand, FteColumn]
  }

  /** The row has all six source columns. */
  predicate HasSourceColumns(row: map<string, Cell>, cfg: Settings) {
    DateColumn in row && OrgColumn in row && cfg.colAhp in row &&
    cfg.colRole in row && cfg.colBand in row && FteColumn in row
  }

  /** Text columns hold text and the FTE column holds a number, wherever they are present. */
  predicate RowTyped(row: map<string, Cell>, cfg: Settings) {
    && (DateColumn in row ==> row[DateColumn].Text?)
    && (OrgColumn in row ==> row[OrgColumn].Text?)
    && (cfg.colAhp in row ==> row[cfg.colAhp].Text?)
    && (cfg.colRole in row ==> row[cfg.colRole].Text?)
    && (cfg.colBand in row ==> row[cfg.colBand].Text?)
    && (FteColumn in row ==> row[FteColumn].Number?)
  }

  /** Every row is typed as above. */
  predicate Typed(t: RawTable, cfg: Settings) {
    forall i :: 0 <= i < |t.rows| ==> RowTyped(t.rows[i], cfg)
  }

  /** A row after selection and renaming. */
  datatype NwfsRow = NwfsRow(
    period: string,
    orgCode: string,
    staffGroup2: string,
    staffRole: string,
    afcBand: string,
    wte: real)

  /** A row after the staff-group column is dropped. */
  datatype AhpRow = AhpRow(
    period: string,
    orgCode: string,
    staffRole: string,
    afcBand: string,
    wte: real)

  /** A row after reconciliation: the raw role is kept and `mapped` holds the front name or null. */
  datatype NwfsRecord = NwfsRecord(
    period: string,
    orgCode: string,
    staffRole: string,
    afcBand: string,
    wte: real,
    mapped: Option<string>)

  /** The requested columns the extract lacks, in selection order (what the KeyError lists). */
  function MissingColumns(t: RawTable, cfg: Settings): (r: seq<string>)
    ensures forall c :: c in r <==> c in SourceColumns(cfg) && c !in t.columns
  {
    Filter(SourceColumns(cfg), c => c !in t.columns)
  }

  /** One raw row under the canonical column names. */
  function ProjectRow(row: map<string, Cell>, cfg: Settings): NwfsRow
    requires HasSourceColumns(row, cfg) && RowTyped(row, cfg)
  {
    NwfsRow(
      period := row[DateColumn].text,
      orgCode := row[OrgColumn].text,
      staffGroup2 := row[cfg.colAhp].text,
      staffRole := row[cfg.colRole].text,
      afcBand := row[cfg.colBand].text,
      wte := row[FteColumn].number)
  }

  /**
   * Select the six columns and rename them. A requested column that the
   * extract lacks raises a KeyError naming the missing columns.
   */
  function Project(t: RawTable, cfg: Settings): (r: Result<seq<NwfsRow>, seq<string>>)
    requires WellFormed(t) && Typed(t, cfg) && NoDup(SourceColumns(cfg))
    ensures r.Err? <==> MissingColumns(t, cfg) != []
    ensures r.Err? ==> r.error == MissingColumns(t, cfg)
    ensures r.Ok? ==> |r.value| == |t.rows|
    ensures r.Ok? ==> forall i :: 0 <= i < |t.rows| ==> HasSourceColumns(t.rows[i], cfg)
    ensures r.Ok? ==> forall i :: 0 <= i < |t.rows| ==>
      && r.value[i].period == t.rows[i][DateColumn].text
      && r.value[i].orgCode == t.rows[i][OrgColumn].text
      && r.value[i].staffGroup2 == t.rows[i][cfg.colAhp].text
      && r.value[i].staffRole == t.rows[i][cfg.colRole].text
      && r.value[i].afcBand == t.rows[i][cfg.colBand].text
      && r.value[i].wte == t.rows[i][FteColumn].number
  {
    var missing := MissingColumns(t, cfg);
    if missing != [] then Err(missing)
    else
      assert forall c :: c in SourceColumns(cfg) ==> c in t.columns;
      assert forall i :: 0 <= i < |t.rows| ==> HasSourceColumns(t.rows[i], cfg);
      Ok(seq(|t.rows|, i requires 0 <= i < |t.rows| => ProjectRow(t.rows[i], cfg)))
  }

  /** The mask `org_code.isin(codes)`. */
  function InOrgs(codes: seq<string>): NwfsRow -> bool {
    (row: NwfsRow) => row.orgCode in codes
  }

  /** Keep the rows of the configured organisations. */
  function OrgFilter(rows: seq<NwfsRow>, codes: seq<string>): (r: seq<NwfsRow>)
    ensures forall row :: multiset(r)[row] == if row.orgCode in codes then multiset(rows)[row] else 0
  {
    FilterCount(rows, InOrgs(codes));
    Filter(rows, InOrgs(codes))
  }

  /** The organisation filter keeps rows in their original relative order. */
  lemma OrgFilterKeepsOrder(a: seq<NwfsRow>, b: seq<NwfsRow>, codes: seq<string>)
    ensures OrgFilter(a + b, codes) == OrgFilter(a, codes) + OrgFilter(b, codes)
  {
    FilterConcat(a, b, InOrgs(codes));
  }

  /** The `staff_group_2` field of a row. */
  function StaffGroupOf(row: NwfsRow): string { row.staffGroup2 }

  /** The mask `staff_group_2.isin(values)`. */
  function GroupIn(values: seq<string>): NwfsRow -> bool {
    (row: NwfsRow) => row.staffGroup2 in values
  }

  /** The mask "staff group contains the allied-health fragment". */
  function IsAllied(row: NwfsRow): bool {
    Contains(row.staffGroup2, AlliedFragment)
  }

  /** Drop the `staff_group_2` column. */
  function DropStaffGroup(rows: seq<NwfsRow>): (r: seq<AhpRow>)
    ensures |r| == |rows|
    ensures forall i :: 0 <= i < |rows| ==>
      r[i] == AhpRow(rows[i].period, rows[i].orgCode, rows[i].staffRole, rows[i].afcBand, rows[i].wte)
  {
    seq(|rows|, i requires 0 <= i < |rows| =>
      AhpRow(rows[i].period, rows[i].orgCode, rows[i].staffRole, rows[i].afcBand, rows[i].wte))
  }

  /** Membership in the `_Allied` search result is containment of `_Allied`. */
  lemma AlliedSearchIsContainment(rows: seq<NwfsRow>)
    ensures Filter(rows, GroupIn(FuzzySearch(Column(rows, StaffGroupOf), AlliedFragment))) == Filter(rows, IsAllied)
  {
    var sg2Values := FuzzySearch(Column(rows, StaffGroupOf), AlliedFragment);
    forall row | row in rows
      ensures GroupIn(sg2Values)(row) == IsAllied(row)
    {
      var i :| 0 <= i < |rows| && rows[i] == row;
      assert Column(rows, StaffGroupOf)[i] == row.staffGroup2;
    }
    FilterCongruent(rows, GroupIn(sg2Values), IsAllied);
  }

  /**
   * Keep the rows whose staff group is among the search hits for `_Allied`,
   * then drop that column: exactly the allied-health rows, in order.
   */
  function AhpFilter(rows: seq<NwfsRow>): (r: seq<AhpRow>)
    ensures r == DropStaffGroup(Filter(rows, IsAllied))
  {
    var sg2Values := FuzzySearch(Column(rows, StaffGroupOf), AlliedFragment);
    AlliedSearchIsContainment(rows);
    DropStaffGroup(Filter(rows, GroupIn(sg2Values)))
  }

  /**
   * Builds `sr_map`: for each lookup row in order, every distinct role
   * containing its fragment is (re)assigned the row's front name.
   */
  method BuildRoleMap(roles: seq<string>, lookup: seq<LookupRow>) returns (srMap: map<string, string>)
    requires LiteralLookup(lookup)
    ensures forall v :: v in srMap <==> v in roles && LastMatch(v, lookup).Some?
    ensures forall v :: v in srMap ==> srMap[v] == LastMatch(v, lookup).value
  {
    srMap := map[];
    var i := 0;
    while i < |lookup|
      invariant 0 <= i <= |lookup|
      invariant forall v :: v in srMap <==> v in roles && LastMatch(v, lookup[..i]).Some?
      invariant forall v :: v in srMap ==> srMap[v] == LastMatch(v, lookup[..i]).value
    {
      var fuzzyName := lookup[i].fragment;
      var frontName := lookup[i].frontName;
      var srValues := FuzzySearch(roles, fuzzyName);
      ghost var before := srMap;
      var j := 0;
      while j < |srValues|
        invariant 0 <= j <= |srValues|
        invariant forall v :: v in srMap <==> v in before || v in srValues[..j]
        invariant forall v :: v in srMap ==> srMap[v] == if v in srValues[..j] then frontName else before[v]
      {
        assert srValues[..j + 1] == srValues[..j] + [srValues[j]];
        srMap := srMap[srValues[j] := frontName];
        j := j + 1;
      }
      assert srValues[..j] == srValues;
      forall v
        ensures v in srMap <==> v in roles && LastMatch(v, lookup[..i + 1]).Some?
        ensures v in srMap ==> srMap[v] == LastMatch(v, lookup[..i + 1]).value
      {
        LastMatchStep(v, lookup, i);
      }
      i := i + 1;
    }
    assert lookup[..i] == lookup;
  }

  /** The `staff_role` field of a row. */
  function StaffRoleOf(row: AhpRow): string { row.staffRole }

  /** A row with its `mapped` value attached; every other column is carried over. */
  function WithMapped(row: AhpRow, mapped: Option<string>): NwfsRecord {
    NwfsRecord(row.period, row.orgCode, row.staffRole, row.afcBand, row.wte, mapped)
  }

  /**
   * `nwfs_staff_role_fuzzy_mapping`: adds the `mapped` column; row count,
   * order and the raw `staff_role` values are unchanged.
   */
  method StaffRoleFuzzyMapping(rows: seq<AhpRow>, lookup: seq<LookupRow>) returns (out: seq<NwfsRecord>)
    requires LiteralLookup(lookup)
    ensures |out| == |rows|
    ensures forall i :: 0 <= i < |rows| ==> out[i] == WithMapped(rows[i], LastMatch(rows[i].staffRole, lookup))
  {
    var srMap := BuildRoleMap(Column(rows, StaffRoleOf), lookup);
    out := seq(|rows|, i requires 0 <= i < |rows| =>
      WithMapped(rows[i], if rows[i].staffRole in srMap then Some(srMap[rows[i].staffRole]) else None));
  }

  /** The rows that survive both filters, before reconciliation. */
  function Kept(projected: seq<NwfsRow>, cfg: Settings): seq<AhpRow> {
    AhpFilter(OrgFilter(projected, cfg.orgCodes))
  }

  /** The mask of both filters at once. */
  function InScope(codes: seq<string>): NwfsRow -> bool {
    (row: NwfsRow) => row.orgCode in codes && IsAllied(row)
  }

  /** A projected row is kept exactly when its organisation is configured and its staff group is allied-health. */
  lemma KeptIsInScope(projected: seq<NwfsRow>, cfg: Settings)
    ensures Kept(projected, cfg) == DropStaffGroup(Filter(projected, InScope(cfg.orgCodes)))
  {
    FilterFilter(projected, InOrgs(cfg.orgCodes), IsAllied, InScope(cfg.orgCodes));
  }

  /**
   * `load_nwfs_data` from the concatenated extract on: projection, the two
   * filters and reconciliation. The source ends without returning the table;
   * the model returns it.
   */
  method LoadNwfsData(t: RawTable, cfg: Settings, lookup: seq<LookupRow>)
    returns (res: Result<seq<NwfsRecord>, seq<string>>)
    requires WellFormed(t) && Typed(t, cfg) && NoDup(SourceColumns(cfg))
    requires LiteralLookup(lookup)
    ensures res.Err? <==> Project(t, cfg).Err?
    ensures res.Err? ==> res.error == MissingColumns(t, cfg)
    ensures res.Ok? ==> |res.value| == |Kept(Project(t, cfg).value, cfg)|
    ensures res.Ok? ==> forall i :: 0 <= i < |res.value| ==>
      var row := Kept(Project(t, cfg).value, cfg)[i];
      res.value[i] == WithMapped(row, LastMatch(row.staffRole, lookup))
  {
    var projected := Project(t, cfg);
    if projected.Err? {
      return Err(projected.error);
    }
    var dfSrc := OrgFilter(projected.value, cfg.orgCodes);
    var ahp := AhpFilter(dfSrc);
    var mapped := StaffRoleFuzzyMapping(ahp, lookup);
    return Ok(mapped);
  }
}
