/** What a column walk is for: the readable rows of a column, and the first of them in OID order. */
module Rows {
  import opened Oid
  import opened Pdu
  import opened Agent

  /** The readable rows of a column. */
  ghost function ReadableRows(mib: Mib, column: string): set<string> {
    set o | o in mib && Under(column, o) && Reading(mib, o).Some?
  }

  /** The readable rows at or before a position; the column root is before all of them. */
  ghost function Upto(mib: Mib, column: string, position: string): set<string> {
    set o | o in ReadableRows(mib, column) && CompareOIDs(o, position) <= 0
  }

  /** The first `cap` readable rows: those with at most `cap` readable rows up to and including themselves. */
  ghost function FirstRows(mib: Mib, column: string, cap: nat): set<string> {
    set o | o in ReadableRows(mib, column) && |Upto(mib, column, o)| <= cap
  }

  /** The row index of a row of the column. */
  function IndexOf(column: string, oid: string): string {
    var index := RowIndex(column, oid);
    if index.Some? then index.value else ""
  }

  ghost function Indexes(column: string, rows: set<string>): set<string> {
    set o | o in rows :: IndexOf(column, o)
  }

  ghost function RowValue(mib: Mib, oid: string): Value
    requires oid in mib && Reading(mib, oid).Some?
  {
    Reading(mib, oid).value
  }

  /** The store's form of some rows: values keyed by row index. */
  ghost function RowMap(mib: Mib, column: string, rows: set<string>): map<string, Value>
    requires Proper(mib) && Canonical(column) && rows <= ReadableRows(mib, column)
  {
    IndexesCompleteRows(mib, column, rows);
    map k | k in Indexes(column, rows) :: RowValue(mib, column + "." + k)
  }

  lemma IndexesCompleteRows(mib: Mib, column: string, rows: set<string>)
    requires Proper(mib) && Canonical(column) && rows <= ReadableRows(mib, column)
    ensures forall k :: k in Indexes(column, rows) ==> column + "." + k in rows
    ensures forall o :: o in rows ==> column + "." + IndexOf(column, o) == o
  {
    hide Canonical, RowIndex;
    forall o | o in rows
      ensures column + "." + IndexOf(column, o) == o
    {
      RowIndexIsArcPrefix(column, o);
    }
  }

  lemma RowMapOfNone(mib: Mib, column: string)
    requires Proper(mib) && Canonical(column)
    ensures RowMap(mib, column, {}) == map[]
  {
  }

  lemma RowMapAdd(mib: Mib, column: string, rows: set<string>, o: string)
    requires Proper(mib) && Canonical(column) && rows <= ReadableRows(mib, column)
    requires o in ReadableRows(mib, column)
    ensures RowMap(mib, column, rows + {o}) == RowMap(mib, column, rows)[IndexOf(column, o) := RowValue(mib, o)]
  {
    hide Canonical, RowIndex, Decode;
    IndexesCompleteRows(mib, column, rows + {o});
    assert Indexes(column, rows + {o}) == Indexes(column, rows) + {IndexOf(column, o)};
  }

  /** As many entries as rows, because an index names one row. */
  lemma {:induction false} RowMapSize(mib: Mib, column: string, rows: set<string>)
    requires Proper(mib) && Canonical(column) && rows <= ReadableRows(mib, column)
    ensures |RowMap(mib, column, rows)| == |rows|
  {
    hide Canonical, RowIndex, Decode;
    if rows == {} {
      RowMapOfNone(mib, column);
    } else {
      var o :| o in rows;
      var rest := rows - {o};
      RowMapSize(mib, column, rest);
      RowMapAdd(mib, column, rest, o);
      assert rows == rest + {o};
      IndexesCompleteRows(mib, column, rows);
      IndexesCompleteRows(mib, column, rest);
      assert IndexOf(column, o) !in Indexes(column, rest);
    }
  }

  // ----- moving the position -----

  /** Nothing of the column lies between the position and the row `s`. */
  ghost predicate IsNextRow(mib: Mib, column: string, position: string, s: string) {
    && s in mib && Under(column, s) && OIDLess(position, s)
    && forall o :: o in mib && Under(column, o) && OIDLess(o, s) ==> CompareOIDs(o, position) <= 0
  }

  lemma UptoRoot(mib: Mib, column: string)
    requires Proper(mib) && Canonical(column)
    ensures Upto(mib, column, column) == {}
  {
    hide Canonical, CompareOIDs, RowIndex, Decode;
    forall o | o in ReadableRows(mib, column)
      ensures CompareOIDs(o, column) > 0
    {
      RootBeforeRows(column, o);
      OrderIsTotal(column, o);
    }
  }

  lemma UptoWithin(mib: Mib, column: string, position: string)
    ensures Upto(mib, column, position) <= ReadableRows(mib, column)
  {
  }

  lemma UptoNextRow(mib: Mib, column: string, position: string, s: string)
    requires Proper(mib) && Canonical(column) && Canonical(position) && IsNextRow(mib, column, position, s)
    ensures Upto(mib, column, s) == Upto(mib, column, position) + if Reading(mib, s).Some? then {s} else {}
    ensures s !in Upto(mib, column, position)
  {
    hide Canonical, CompareOIDs, RowIndex, Decode;
    OrderIsTotal(s, s);
    OrderIsTotal(position, s);
    forall o | o in ReadableRows(mib, column)
      ensures CompareOIDs(o, s) <= 0 <==> CompareOIDs(o, position) <= 0 || o == s
    {
      OrderIsTotal(o, s);
      if CompareOIDs(o, position) <= 0 {
        OrderIsTransitive(o, position, s);
      }
    }
  }

  lemma UptoMonotone(mib: Mib, column: string, a: string, b: string)
    requires Proper(mib) && Canonical(a) && Canonical(b) && CompareOIDs(a, b) <= 0
    ensures Upto(mib, column, a) <= Upto(mib, column, b)
  {
    hide Canonical, CompareOIDs, RowIndex, Decode;
    forall o | o in Upto(mib, column, a)
      ensures CompareOIDs(o, b) <= 0
    {
      OrderIsTransitive(o, a, b);
    }
  }

  lemma SubsetSize<T>(a: set<T>, b: set<T>)
    requires a <= b
    ensures |a| <= |b|
  {
    assert b == a + (b - a);
  }

  /** With no row after the position, the rows so far are all rows, and they fit the cap. */
  lemma WholeColumn(mib: Mib, column: string, position: string, cap: nat)
    requires Proper(mib) && |Upto(mib, column, position)| <= cap
    requires forall o :: o in mib && Under(column, o) ==> CompareOIDs(o, position) <= 0
    ensures Upto(mib, column, position) == ReadableRows(mib, column) == FirstRows(mib, column, cap)
    ensures |ReadableRows(mib, column)| <= cap
  {
    hide Canonical, CompareOIDs, RowIndex, Decode;
    assert Upto(mib, column, position) == ReadableRows(mib, column);
    forall o | o in ReadableRows(mib, column)
      ensures |Upto(mib, column, o)| <= cap
    {
      SubsetSize(Upto(mib, column, o), ReadableRows(mib, column));
    }
  }

  /** With the cap reached and a further readable row, the rows so far are the first `cap` of more than `cap`. */
  lemma FullColumn(mib: Mib, column: string, position: string, s: string, cap: nat)
    requires Proper(mib) && Canonical(column) && Canonical(position) && IsNextRow(mib, column, position, s)
    requires Reading(mib, s).Some? && |Upto(mib, column, position)| == cap
    ensures Upto(mib, column, position) == FirstRows(mib, column, cap)
    ensures |ReadableRows(mib, column)| > cap
  {
    hide Canonical, CompareOIDs, RowIndex, Decode;
    var first := Upto(mib, column, position);
    OrderIsTotal(position, s);
    assert s in ReadableRows(mib, column) && s !in first;
    SubsetSize(first + {s}, ReadableRows(mib, column));
    forall o | o in ReadableRows(mib, column)
      ensures |Upto(mib, column, o)| <= cap <==> o in first
    {
      OrderIsTotal(o, position);
      OrderIsTotal(o, o);
      if o in first {
        UptoMonotone(mib, column, o, position);
        SubsetSize(Upto(mib, column, o), first);
      } else {
        UptoMonotone(mib, column, position, o);
        SubsetSize(first + {o}, Upto(mib, column, o));
      }
    }
  }

  // ----- FirstRows is what its name says -----

  /** No readable row outside `rows` precedes one of them. */
  ghost predicate Initial(mib: Mib, column: string, rows: set<string>) {
    forall o, p :: o in rows && p in ReadableRows(mib, column) && CompareOIDs(p, o) <= 0 ==> p in rows
  }

  lemma FirstRowsAreInitial(mib: Mib, column: string, cap: nat)
    requires Proper(mib)
    ensures Initial(mib, column, FirstRows(mib, column, cap))
  {
    hide Canonical, CompareOIDs, RowIndex, Decode;
    forall o, p | o in FirstRows(mib, column, cap) && p in ReadableRows(mib, column) && CompareOIDs(p, o) <= 0
      ensures p in FirstRows(mib, column, cap)
    {
      UptoMonotone(mib, column, p, o);
      SubsetSize(Upto(mib, column, p), Upto(mib, column, o));
    }
  }

  /** There are min(n, cap) first rows. */
  lemma {:induction false} FirstRowsCount(mib: Mib, column: string, cap: nat)
    requires Proper(mib)
    ensures FirstRows(mib, column, cap) <= ReadableRows(mib, column)
    ensures |FirstRows(mib, column, cap)| == if |ReadableRows(mib, column)| <= cap then |ReadableRows(mib, column)| else cap
  {
    hide FirstRows, ReadableRows, Canonical, CompareOIDs;
    FirstRowsWithin(mib, column, cap);
    var rows := ReadableRows(mib, column);
    if cap == 0 {
      NoFirstRows(mib, column);
    } else {
      FirstRowsCount(mib, column, cap - 1);
      var first := FirstRows(mib, column, cap - 1);
      SubsetSize(first, rows);
      if first == rows {
        WiderCap(mib, column, cap - 1);
        assert cap - 1 + 1 == cap && FirstRows(mib, column, cap) == rows;
      } else {
        assert rows == first + (rows - first);
        var m := LeastOid(rows - first);
        NextFirstRow(mib, column, cap - 1, m);
      }
    }
  }

  lemma FirstRowsWithin(mib: Mib, column: string, cap: nat)
    requires Proper(mib)
    ensures FirstRows(mib, column, cap) <= ReadableRows(mib, column)
    ensures forall o :: o in ReadableRows(mib, column) ==> Canonical(o)
  {
  }

  lemma NoFirstRows(mib: Mib, column: string)
    requires Proper(mib)
    ensures FirstRows(mib, column, 0) == {}
  {
    hide Canonical, CompareOIDs, RowIndex, Decode;
    forall o | o in ReadableRows(mib, column)
      ensures o in Upto(mib, column, o)
    {
      OrderIsTotal(o, o);
    }
  }

  lemma WiderCap(mib: Mib, column: string, cap: nat)
    ensures FirstRows(mib, column, cap) <= FirstRows(mib, column, cap + 1)
  {
  }

  lemma NextFirstRow(mib: Mib, column: string, cap: nat, m: string)
    requires Proper(mib) && m in ReadableRows(mib, column) - FirstRows(mib, column, cap)
    requires forall o :: o in ReadableRows(mib, column) - FirstRows(mib, column, cap) ==> CompareOIDs(m, o) <= 0
    requires |FirstRows(mib, column, cap)| == cap
    ensures FirstRows(mib, column, cap + 1) == FirstRows(mib, column, cap) + {m}
  {
    hide Canonical, CompareOIDs, RowIndex, Decode;
    FirstRowsAreInitial(mib, column, cap);
    var first := FirstRows(mib, column, cap);
    forall o | o in ReadableRows(mib, column)
      ensures o in Upto(mib, column, m) <==> o in first || o == m
    {
      OrderIsTotal(o, m);
      OrderIsTotal(m, o);
    }
    assert Upto(mib, column, m) == first + {m};
    forall o | o in ReadableRows(mib, column) && o !in first && o != m
      ensures |Upto(mib, column, o)| > cap + 1
    {
      OrderIsTotal(o, m);
      OrderIsTotal(o, o);
      UptoMonotone(mib, column, m, o);
      SubsetSize(first + {m} + {o}, Upto(mib, column, o));
    }
  }
}
