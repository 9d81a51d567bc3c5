/**
 * Projection of a frame onto a feature list (Code-Files/CSV-Filter.py,
 * filter_csv lines 99-104): keep the listed columns that exist, in list
 * order, then drop every column that holds no value at all.
 */
module Projector {
  import opened Sequences
  import opened Tables

  /** `[col for col in features if col in columns]`. */
  function SelectedNames(features: seq<string>, columns: set<string>): (r: seq<string>)
    ensures forall x :: x in r <==> x in features && x in columns
    ensures IsSubsequence(r, features)
    ensures NoDuplicates(features) ==> NoDuplicates(r)
  {
    if features == [] then []
    else
      var rest := SelectedNames(features[1..], columns);
      assert forall x :: x in features ==> x == features[0] || x in features[1..];
      NoDuplicatesCons(features[0], features[1..]);
      assert [features[0]] + features[1..] == features;
      if features[0] in columns then
        assert ([features[0]] + rest)[1..] == rest;
        NoDuplicatesCons(features[0], rest);
        [features[0]] + rest
      else
        rest
  }

  /** The first column labelled `name`. */
  function Lookup(cols: seq<Column>, name: string): (c: Column)
    requires name in Names(cols)
    ensures c in cols && c.name == name
  {
    if cols[0].name == name then cols[0] else Lookup(cols[1..], name)
  }

  /** `df[names]`: the columns with the given labels, in the order of `names`. */
  function SelectColumns(names: seq<string>, cols: seq<Column>): (r: seq<Column>)
    requires forall n :: n in names ==> n in Names(cols)
    ensures Names(r) == names
    ensures forall i :: 0 <= i < |r| ==> r[i] in cols
  {
    if names == [] then []
    else [Lookup(cols, names[0])] + SelectColumns(names[1..], cols)
  }

  /** `dropna(axis=1, how="all")`: keep the columns that hold some value, in order. */
  function DropEmpty(cols: seq<Column>): (r: seq<Column>)
    ensures forall c :: c in r <==> c in cols && HasValue(c)
    ensures IsSubsequence(r, cols)
  {
    if cols == [] then []
    else
      var rest := DropEmpty(cols[1..]);
      assert forall c :: c in cols ==> c == cols[0] || c in cols[1..];
      if HasValue(cols[0]) then
        assert ([cols[0]] + rest)[1..] == rest;
        [cols[0]] + rest
      else
        rest
  }

  /**
   * Selection followed by the drop of empty columns; rows are untouched. A
   * repeated feature would repeat its column, as pandas does, so the result is
   * well formed when the feature list is duplicate-free.
   */
  function Project(features: seq<string>, t: Table): (r: Table)
    requires WellFormed(t)
    ensures NoDuplicates(features) ==> WellFormed(r)
    ensures r.rowCount == t.rowCount
    ensures IsSubsequence(Names(r.columns), features)
    ensures forall c :: c in r.columns <==> c in t.columns && c.name in features && HasValue(c)
  {
    var selected := SelectedNames(features, NameSet(t.columns));
    var picked := SelectColumns(selected, t.columns);
    var kept := DropEmpty(picked);
    NamesSubsequence(kept, picked);
    SubsequenceTransitive(Names(kept), selected, features);
    assert NoDuplicates(features) ==> NoDuplicates(Names(kept)) by {
      if NoDuplicates(features) {
        SubsequenceNoDuplicates(Names(kept), selected);
      }
    }
    SelectColumnsCoversLabels(selected, t.columns);
    Table(kept, t.rowCount)
  }

  /** With unique labels, every column whose label is selected is the one picked for it. */
  lemma SelectColumnsCoversLabels(selected: seq<string>, cols: seq<Column>)
    requires NoDuplicates(Names(cols))
    requires forall n :: n in selected ==> n in Names(cols)
    ensures forall c :: c in cols && c.name in selected ==> c in SelectColumns(selected, cols)
  {
    var picked := SelectColumns(selected, cols);
    forall c | c in cols && c.name in selected ensures c in picked {
      var i :| 0 <= i < |selected| && selected[i] == c.name;
      assert Names(picked)[i] == c.name;
      LabelDeterminesColumn(cols, picked[i], c);
    }
  }

  /** Selecting the features present in a subsequence of the (duplicate-free) list gives it back. */
  lemma {:induction false} SelectedNamesOfSubsequence(s: seq<string>, features: seq<string>)
    requires IsSubsequence(s, features) && NoDuplicates(features)
    ensures SelectedNames(features, set x | x in s) == s
    decreases |features|
  {
    var present := set x | x in s;
    if features != [] {
      NoDuplicatesCons(features[0], features[1..]);
      assert [features[0]] + features[1..] == features;
      SubsequenceMembers(s, features);
      if s != [] && s[0] == features[0] && IsSubsequence(s[1..], features[1..]) {
        SelectedNamesOfSubsequence(s[1..], features[1..]);
        SelectedNamesAgree(features[1..], present, set x | x in s[1..]);
      } else {
        SubsequenceMembers(s, features[1..]);
        SelectedNamesOfSubsequence(s, features[1..]);
      }
    }
  }

  /** Selection only looks at the candidates' own membership. */
  lemma {:induction false} SelectedNamesAgree(features: seq<string>, a: set<string>, b: set<string>)
    requires forall x :: x in features ==> (x in a <==> x in b)
    ensures SelectedNames(features, a) == SelectedNames(features, b)
  {
    if features != [] {
      SelectedNamesAgree(features[1..], a, b);
    }
  }

  /** Picking a table's own labels, when unique, gives back its columns. */
  lemma SelectOwnNames(cols: seq<Column>)
    requires NoDuplicates(Names(cols))
    ensures SelectColumns(Names(cols), cols) == cols
  {
    var r := SelectColumns(Names(cols), cols);
    forall i | 0 <= i < |cols| ensures r[i] == cols[i] {
      assert Names(r)[i] == cols[i].name;
      LabelDeterminesColumn(cols, r[i], cols[i]);
    }
  }

  /** Columns that all hold a value survive the drop unchanged. */
  lemma {:induction false} DropEmptyKeepsFull(cols: seq<Column>)
    requires forall c :: c in cols ==> HasValue(c)
    ensures DropEmpty(cols) == cols
  {
    if cols != [] {
      DropEmptyKeepsFull(cols[1..]);
      assert [cols[0]] + cols[1..] == cols;
    }
  }

  /** Projecting an already projected frame with the same features changes nothing. */
  lemma ProjectIdempotent(features: seq<string>, t: Table)
    requires WellFormed(t) && NoDuplicates(features)
    ensures Project(features, Project(features, t)) == Project(features, t)
  {
    var p := Project(features, t);
    SelectedNamesOfSubsequence(Names(p.columns), features);
    assert NameSet(p.columns) == set x | x in Names(p.columns);
    SelectOwnNames(p.columns);
    DropEmptyKeepsFull(p.columns);
  }
}
