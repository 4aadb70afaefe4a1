/**
 * Substring search over a column and the role-reconciliation rule built on it.
 * Both pipeline files (nhs_wf_stats.py and pwr_trends.py) carry the same
 * `fuzzy_search`; it is defined once here.
 */
module FuzzyMatch {
  import opened Wrappers
  import opened Frames

  /** One row of the role lookup table: raw-name fragment, front-end name, shorthand code. */
  datatype LookupRow = LookupRow(fragment: string, frontName: string, shorthand: string)

  /**
   * `frag` occurs somewhere in `s` as a contiguous run (case-sensitive,
   * unanchored): it is a prefix of some suffix of `s`.
   */
  predicate Contains(s: string, frag: string): (r: bool)
    ensures r <==> exists i :: 0 <= i <= |s| && frag <= s[i..]
  {
    if frag <= s then
      assert frag <= s[0..];
      true
    else if s == [] then
      false
    else
      var rest := Contains(s[1..], frag);
      assert forall i :: 1 <= i <= |s| ==> s[i..] == s[1..][i - 1..];
      rest
  }

  /** Characters a regular expression treats specially. */
  const RegexMeta: string := ".^$*+?{}[]\\|()"

  /**
   * Fragments are handed to a regular-expression search; a fragment free of
   * metacharacters matches exactly where it occurs literally.
   */
  predicate NoRegexMeta(frag: string) {
    forall i :: 0 <= i < |frag| ==> frag[i] !in RegexMeta
  }

  /** Every fragment of the lookup table is a literal pattern. */
  predicate LiteralLookup(lookup: seq<LookupRow>) {
    forall i :: 0 <= i < |lookup| ==> NoRegexMeta(lookup[i].fragment)
  }

  /** The mask `column.str.contains(target)` as a predicate on one value. */
  function HasFragment(target: string): string -> bool {
    v => Contains(v, target)
  }

  /** `fuzzy_search`: the distinct values of `column` containing `target`, first-seen first. */
  function FuzzySearch(column: seq<string>, target: string): (r: seq<string>)
    requires NoRegexMeta(target)
    ensures forall v :: v in r <==> v in column && Contains(v, target)
    ensures NoDup(r)
  {
    Distinct(Filter(column, HasFragment(target)))
  }

  /** The values `FuzzySearch` returns are listed in order of their first appearance in the column. */
  lemma FuzzySearchFirstSeen(column: seq<string>, target: string)
    requires NoRegexMeta(target)
    ensures forall i, j :: 0 <= i < j < |FuzzySearch(column, target)| ==>
      FirstIndex(column, FuzzySearch(column, target)[i]) < FirstIndex(column, FuzzySearch(column, target)[j])
  {
    var hits := Filter(column, HasFragment(target));
    var r := FuzzySearch(column, target);
    DistinctFirstSeen(hits);
    forall i, j | 0 <= i < j < |r|
      ensures FirstIndex(column, r[i]) < FirstIndex(column, r[j])
    {
      FilterFirstSeen(column, HasFragment(target), r[i], r[j]);
    }
  }

  /**
   * The front name a raw role receives when the lookup rows are applied in
   * order and each match overwrites the previous one: the front name of the
   * last row whose fragment the role contains, or None.
   */
  function LastMatch(role: string, lookup: seq<LookupRow>): Option<string> {
    if lookup == [] then None
    else
      var n := |lookup| - 1;
      if Contains(role, lookup[n].fragment) then Some(lookup[n].frontName)
      else LastMatch(role, lookup[..n])
  }

  /** Applying one more lookup row: it wins if its fragment occurs, otherwise the earlier rows decide. */
  lemma LastMatchStep(role: string, lookup: seq<LookupRow>, i: nat)
    requires i < |lookup|
    ensures LastMatch(role, lookup[..i + 1]) ==
      if Contains(role, lookup[i].fragment) then Some(lookup[i].frontName) else LastMatch(role, lookup[..i])
  {
    assert lookup[..i + 1][..i] == lookup[..i];
  }

  /** The shorthand counterpart of `LastMatchStep`. */
  lemma LastShorthandStep(front: string, lookup: seq<LookupRow>, i: nat)
    requires i < |lookup|
    ensures LastShorthand(front, lookup[..i + 1]) ==
      if lookup[i].frontName == front then Some(lookup[i].shorthand) else LastShorthand(front, lookup[..i])
  {
    assert lookup[..i + 1][..i] == lookup[..i];
  }

  /** A role is left unmapped exactly when no lookup fragment occurs in it. */
  lemma {:induction false} LastMatchNoneIff(role: string, lookup: seq<LookupRow>)
    ensures LastMatch(role, lookup).None? <==>
      forall i :: 0 <= i < |lookup| ==> !Contains(role, lookup[i].fragment)
  {
    if lookup != [] {
      var n := |lookup| - 1;
      LastMatchNoneIff(role, lookup[..n]);
      assert forall i :: 0 <= i < n ==> lookup[..n][i] == lookup[i];
    }
  }

  /** Last write wins: the role takes the front name of the last row whose fragment it contains. */
  lemma {:induction false} LastMatchIsLastRow(role: string, lookup: seq<LookupRow>, k: nat)
    requires k < |lookup| && Contains(role, lookup[k].fragment)
    requires forall j :: k < j < |lookup| ==> !Contains(role, lookup[j].fragment)
    ensures LastMatch(role, lookup) == Some(lookup[k].frontName)
  {
    var n := |lookup| - 1;
    if k < n {
      assert lookup[..n][k] == lookup[k];
      LastMatchIsLastRow(role, lookup[..n], k);
    }
  }

  /** A matched role is always mapped to the front name of some lookup row. */
  lemma {:induction false} LastMatchIsFrontName(role: string, lookup: seq<LookupRow>)
    requires LastMatch(role, lookup).Some?
    ensures exists i :: 0 <= i < |lookup| && lookup[i].frontName == LastMatch(role, lookup).value
  {
    var n := |lookup| - 1;
    if !Contains(role, lookup[n].fragment) {
      LastMatchIsFrontName(role, lookup[..n]);
      var i :| 0 <= i < n && lookup[..n][i].frontName == LastMatch(role, lookup[..n]).value;
      assert lookup[i] == lookup[..n][i];
    }
  }

  /** The shorthand recorded for a front name: that of the last lookup row carrying it. */
  function LastShorthand(front: string, lookup: seq<LookupRow>): Option<string> {
    if lookup == [] then None
    else
      var n := |lookup| - 1;
      if lookup[n].frontName == front then Some(lookup[n].shorthand)
      else LastShorthand(front, lookup[..n])
  }

  /** A front name has a shorthand exactly when some lookup row carries it, matched or not. */
  lemma {:induction false} LastShorthandSomeIff(front: string, lookup: seq<LookupRow>)
    ensures LastShorthand(front, lookup).Some? <==>
      exists i :: 0 <= i < |lookup| && lookup[i].frontName == front
  {
    if lookup != [] {
      var n := |lookup| - 1;
      LastShorthandSomeIff(front, lookup[..n]);
      if exists i :: 0 <= i < |lookup| && lookup[i].frontName == front {
        var i :| 0 <= i < |lookup| && lookup[i].frontName == front;
        if i < n { assert lookup[..n][i] == lookup[i]; }
      }
    }
  }

  /** For a repeated front name the last row's shorthand wins. */
  lemma {:induction false} LastShorthandIsLastRow(front: string, lookup: seq<LookupRow>, k: nat)
    requires k < |lookup| && lookup[k].frontName == front
    requires forall j :: k < j < |lookup| ==> lookup[j].frontName != front
    ensures LastShorthand(front, lookup) == Some(lookup[k].shorthand)
  {
    var n := |lookup| - 1;
    if k < n {
      assert lookup[..n][k] == lookup[k];
      LastShorthandIsLastRow(front, lookup[..n], k);
    }
  }

  /** A role that some fragment matched always finds a shorthand for its front name. */
  lemma {:induction false} MatchedRoleHasShorthand(role: string, lookup: seq<LookupRow>)
    requires LastMatch(role, lookup).Some?
    ensures LastShorthand(LastMatch(role, lookup).value, lookup).Some?
  {
    LastMatchIsFrontName(role, lookup);
    LastShorthandSomeIff(LastMatch(role, lookup).value, lookup);
  }

  /** A lookup row ("Physio", "Physiotherapist", "PT") maps the raw role "Senior Physiotherapist". */
  lemma PhysioExample()
    ensures LastMatch("Senior Physiotherapist", [LookupRow("Physio", "Physiotherapist", "PT")])
      == Some("Physiotherapist")
    ensures LastShorthand("Physiotherapist", [LookupRow("Physio", "Physiotherapist", "PT")]) == Some("PT")
  {
    var role := "Senior Physiotherapist";
    assert "Physio" <= role[7..];
  }
}
