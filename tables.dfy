/**
 * The abstract data frame the pipeline works on: an ordered list of named
 * columns of nullable cells, all of the same length.
 */
module Tables {
  import opened Wrappers
  import opened Sequences

  /** The text of a cell as the parser produced it; a missing (NaN) cell is `None`. */
  type Value = string

  datatype Column = Column(name: string, cells: seq<Option<Value>>)

  /** `rowCount` is kept separately so that a table without columns still has rows. */
  datatype Table = Table(columns: seq<Column>, rowCount: nat)

  /** The column labels of `cols`, in order (a frame's `columns`). */
  function Names(cols: seq<Column>): (r: seq<string>)
    ensures |r| == |cols|
    ensures forall i :: 0 <= i < |cols| ==> r[i] == cols[i].name
  {
    if cols == [] then [] else [cols[0].name] + Names(cols[1..])
  }

  /** The set of column labels (`set(df.columns)`). */
  function NameSet(cols: seq<Column>): (r: set<string>)
    ensures forall n :: n in r <==> exists c :: c in cols && c.name == n
    ensures forall n :: n in r <==> n in Names(cols)
  {
    forall n | n in Names(cols) ensures exists c :: c in cols && c.name == n {
      var i :| 0 <= i < |cols| && Names(cols)[i] == n;
      assert cols[i] in cols;
    }
    set n | n in Names(cols)
  }

  /** A column has at least one non-missing cell: not all of its cells are NaN. */
  predicate HasValue(c: Column): (b: bool)
    ensures b <==> !(forall x :: x in c.cells ==> x.None?)
  {
    var b := exists i :: 0 <= i < |c.cells| && c.cells[i].Some?;
    assert b <==> !(forall x :: x in c.cells ==> x.None?) by {
      if b {
        var i :| 0 <= i < |c.cells| && c.cells[i].Some?;
        assert c.cells[i] in c.cells;
      }
      if !(forall x :: x in c.cells ==> x.None?) {
        var x :| x in c.cells && x.Some?;
        var i :| 0 <= i < |c.cells| && c.cells[i] == x;
      }
    }
    b
  }

  /** What every parsed frame satisfies: unique labels and a rectangular shape. */
  ghost predicate WellFormed(t: Table) {
    NoDuplicates(Names(t.columns)) &&
    forall c :: c in t.columns ==> |c.cells| == t.rowCount
  }

  /** With unique labels, a label determines its column. */
  lemma LabelDeterminesColumn(cols: seq<Column>, c: Column, d: Column)
    requires NoDuplicates(Names(cols))
    requires c in cols && d in cols && c.name == d.name
    ensures c == d
  {
    var names := Names(cols);
    var i :| 0 <= i < |cols| && cols[i] == c;
    var j :| 0 <= j < |cols| && cols[j] == d;
    assert names[i] == names[j];
    assert i == j;
  }

  /** Keeping a subsequence of the columns keeps a subsequence of the labels. */
  lemma {:induction false} NamesSubsequence(cs: seq<Column>, ds: seq<Column>)
    requires IsSubsequence(cs, ds)
    ensures IsSubsequence(Names(cs), Names(ds))
    decreases |ds|
  {
    if cs != [] {
      assert Names(cs)[1..] == Names(cs[1..]);
      assert Names(ds)[1..] == Names(ds[1..]);
      if cs[0] == ds[0] && IsSubsequence(cs[1..], ds[1..]) {
        NamesSubsequence(cs[1..], ds[1..]);
      } else {
        NamesSubsequence(cs, ds[1..]);
      }
    }
  }
}
