/** consume and longestMatch of internal/snmp/fetch.go: one response applied to the walk state. */
module Walk {
  import opened Wrappers
  import opened Order
  import opened Oid
  import opened Pdu
  import opened Agent
  import opened Rows

  /** The positions of the columns still walking, the rows stored so far, and the columns cut off by the row cap. */
  datatype Walk = Walk(next: map<string, string>, columns: map<string, map<string, Value>>, truncated: seq<string>) {
    ghost predicate Keyed() {
      next.Keys <= columns.Keys
    }

    function End(column: string): Walk {
      this.(next := next - {column})
    }
  }

  /** The walk within one packet, with consume's two local variables. */
  datatype Pass = Pass(walk: Walk, answered: set<string>, progressed: bool)

  /** The requested column a name is attributed to: the longest that contains it. */
  function LongestMatch(columns: seq<string>, oid: string): Option<string> {
    if columns == [] then None
    else
      var best, candidate := LongestMatch(columns[..|columns| - 1], oid), columns[|columns| - 1];
      if Under(candidate, oid) && (best.None? || |candidate| > |best.value|) then Some(candidate) else best
  }

  function StoreRow(w: Walk, cap: nat, column: string, oid: string, value: Value): Walk
    requires column in w.columns
  {
    if |w.columns[column]| >= cap then w.End(column).(truncated := w.truncated + [column])
    else w.(columns := w.columns[column := w.columns[column][IndexOf(column, oid) := value]],
            next := w.next[column := oid])
  }

  /** One variable of the packet, already attributed to a column that still walks. */
  function AcceptVariable(cap: nat, p: Pass, column: string, v: Variable): Pass
    requires column in p.walk.next && column in p.walk.columns
  {
    var oid, position := CanonicalOID(v.name), p.walk.next[column];
    var q := p.(answered := p.answered + {column});
    if position != column && CompareOIDs(oid, position) <= 0 then q   // no step back, no standing still
    else match Decode(v)
      case Some(value) =>
        var w := StoreRow(p.walk, cap, column, oid, value);
        q.(walk := w, progressed := p.progressed || |p.walk.columns[column]| < cap)
      case None =>
        q.(walk := p.walk.(next := p.walk.next[column := oid]), progressed := true)
  }

  function ApplyVariable(chunk: seq<string>, cap: nat, p: Pass, v: Variable): (q: Pass)
    requires p.walk.Keyed()
    ensures q.walk.Keyed()
  {
    match LongestMatch(chunk, CanonicalOID(v.name))
    case None => p
    case Some(column) => if column in p.walk.next then AcceptVariable(cap, p, column, v) else p
  }

  function ApplyVariables(chunk: seq<string>, cap: nat, p: Pass, vars: seq<Variable>): (q: Pass)
    requires p.walk.Keyed()
    ensures q.walk.Keyed()
    decreases |vars|
  {
    if vars == [] then p else ApplyVariables(chunk, cap, ApplyVariable(chunk, cap, p, vars[0]), vars[1..])
  }

  /** The columns of the chunk that the packet did not mention. */
  function Unanswered(chunk: seq<string>, answered: set<string>): set<string> {
    set c | c in chunk && c !in answered
  }

  function Consumed(chunk: seq<string>, cap: nat, w: Walk, vars: seq<Variable>): (q: Pass)
    requires w.Keyed()
    ensures q.walk.Keyed()
  {
    var p := ApplyVariables(chunk, cap, Pass(w, {}, false), vars);
    p.(walk := p.walk.(next := p.walk.next - Unanswered(chunk, p.answered)))
  }

  // ----- attribution -----

  lemma {:induction false} LongestMatchIsLongest(columns: seq<string>, oid: string)
    ensures var m := LongestMatch(columns, oid);
      && (m.None? <==> forall c :: c in columns ==> !Under(c, oid))
      && (m.Some? ==> m.value in columns && Under(m.value, oid))
      && (m.Some? ==> forall c :: c in columns && Under(c, oid) ==> |c| <= |m.value|)
  {
    hide Under;
    if columns != [] {
      var n := |columns| - 1;
      LongestMatchIsLongest(columns[..n], oid);
      assert columns == columns[..n] + [columns[n]];
    }
  }

  ghost predicate NonNested(columns: set<string>) {
    forall c, d :: c in columns && d in columns ==> !Under(c, d)
  }

  /** Columns that do not nest share no rows, so attribution does not depend on the chunk. */
  lemma MatchIsTheColumn(columns: seq<string>, all: set<string>, c: string, oid: string)
    requires NonNested(all) && c in columns && (forall d :: d in columns ==> d in all)
    requires (forall d :: d in all ==> Canonical(d)) && Canonical(oid) && Under(c, oid)
    ensures LongestMatch(columns, oid) == Some(c)
  {
    hide Canonical, RowIndex, LongestMatch;
    LongestMatchIsLongest(columns, oid);
    var d := LongestMatch(columns, oid).value;
    SharedRowMeansNested(c, d, oid);
  }

  // ----- the walk against a correct device -----

  /** A walking column holds exactly its readable rows up to its position; an ended one its first `cap` rows. */
  ghost predicate ColumnOk(mib: Mib, cap: nat, w: Walk, c: string)
    requires Proper(mib) && Canonical(c) && c in w.columns
  {
    if c in w.next then
      var position := w.next[c];
      && (position == c || (position in mib && Under(c, position)))
      && w.columns[c] == RowMap(mib, c, Upto(mib, c, position))
      && |Upto(mib, c, position)| <= cap
      && c !in w.truncated
    else
      && w.columns[c] == RowMap(mib, c, FirstRows(mib, c, cap))
      && (c in w.truncated <==> |ReadableRows(mib, c)| > cap)
  }

  ghost predicate WalkOk(mib: Mib, cap: nat, w: Walk)
    requires Proper(mib)
  {
    && w.Keyed()
    && (forall c :: c in w.columns ==> Canonical(c))
    && NonNested(w.columns.Keys)
    && (forall c :: c in w.columns ==> ColumnOk(mib, cap, w, c))
    && Distinct(w.truncated)
    && (forall c :: c in w.truncated ==> c in w.columns)
  }

  /** No row of the column follows the position. */
  ghost predicate AtEnd(mib: Mib, column: string, position: string) {
    forall o :: o in mib && Under(column, o) ==> CompareOIDs(o, position) <= 0
  }

  lemma PositionIsCanonical(mib: Mib, cap: nat, w: Walk, c: string)
    requires Proper(mib) && WalkOk(mib, cap, w) && c in w.next
    ensures Canonical(c) && Canonical(w.next[c])
    ensures w.next[c] == c || (w.next[c] in mib && Under(c, w.next[c]))
  {
    hide Canonical, CompareOIDs, RowIndex;
    assert ColumnOk(mib, cap, w, c);
  }

  /** Ending columns that have no further rows leaves them complete. */
  lemma EndIsOk(mib: Mib, cap: nat, w: Walk, ended: set<string>)
    requires Proper(mib) && WalkOk(mib, cap, w)
    requires forall c :: c in ended && c in w.next ==> AtEnd(mib, c, w.next[c])
    ensures WalkOk(mib, cap, w.(next := w.next - ended))
  {
    hide Canonical, CompareOIDs, RowIndex, RowMap, ReadableRows, Upto, FirstRows, Distinct, AtEnd;
    var v := w.(next := w.next - ended);
    forall c | c in v.columns
      ensures ColumnOk(mib, cap, v, c)
    {
      assert ColumnOk(mib, cap, w, c);
      if c in ended && c in w.next {
        NoFurtherRows(mib, cap, c, w.next[c]);
      }
    }
  }

  lemma NoFurtherRows(mib: Mib, cap: nat, c: string, position: string)
    requires Proper(mib) && AtEnd(mib, c, position) && |Upto(mib, c, position)| <= cap
    ensures Upto(mib, c, position) == FirstRows(mib, c, cap) && |ReadableRows(mib, c)| <= cap
  {
    WholeColumn(mib, c, position, cap);
  }

  lemma OthersUntouched(mib: Mib, cap: nat, w: Walk, v: Walk, c: string)
    requires Proper(mib) && WalkOk(mib, cap, w) && v.columns.Keys == w.columns.Keys
    requires forall d :: d in w.columns && d != c ==>
      && v.columns[d] == w.columns[d]
      && (d in v.next <==> d in w.next)
      && (d in w.next ==> v.next[d] == w.next[d])
      && (d in v.truncated <==> d in w.truncated)
    ensures forall d :: d in v.columns && d != c ==> Canonical(d) && ColumnOk(mib, cap, v, d)
  {
    hide Canonical, RowIndex, RowMap, ReadableRows, Upto, FirstRows, Distinct;
    forall d | d in v.columns && d != c
      ensures ColumnOk(mib, cap, v, d)
    {
      assert ColumnOk(mib, cap, w, d);
    }
  }

  lemma AcceptedColumnIsOk(mib: Mib, cap: nat, p: Pass, c: string, s: string)
    requires Proper(mib) && p.walk.Keyed() && c in p.walk.next && Canonical(c) && Canonical(p.walk.next[c])
    requires ColumnOk(mib, cap, p.walk, c) && s in mib && IsNextRow(mib, c, p.walk.next[c], s)
    ensures ColumnOk(mib, cap, AcceptVariable(cap, p, c, At(mib, s)).walk, c)
  {
    hide Canonical, CanonicalOID, RowIndex, RowMap, ReadableRows, Upto, FirstRows, IsNextRow, CompareOIDs, Decode;
    var position := p.walk.next[c];
    NextRowFacts(mib, c, position, s);
    UptoNextRow(mib, c, position, s);
    UptoWithin(mib, c, position);
    RowMapSize(mib, c, Upto(mib, c, position));
    if Reading(mib, s).Some? {
      if |p.walk.columns[c]| >= cap {
        FullColumn(mib, c, position, s, cap);
      } else {
        RowMapAdd(mib, c, Upto(mib, c, position), s);
      }
    }
  }

  /** Accepting a variable touches nothing but its own column. */
  lemma AcceptTouchesOne(cap: nat, p: Pass, c: string, v: Variable)
    requires p.walk.Keyed() && c in p.walk.next
    ensures var q := AcceptVariable(cap, p, c, v).walk;
      && q.Keyed() && q.columns.Keys == p.walk.columns.Keys
      && (q.truncated == p.walk.truncated || (q.truncated == p.walk.truncated + [c] && c !in q.next))
      && forall d :: d in p.walk.columns && d != c ==>
        && q.columns[d] == p.walk.columns[d]
        && (d in q.next <==> d in p.walk.next)
        && (d in p.walk.next ==> q.next[d] == p.walk.next[d])
        && (d in q.truncated <==> d in p.walk.truncated)
  {
    hide CanonicalOID, CompareOIDs, Decode, IndexOf;
  }

  /** Moving a column to its next row keeps it exact, or ends it as truncated when the cap is reached. */
  lemma AcceptIsOk(mib: Mib, cap: nat, p: Pass, c: string, s: string)
    requires Proper(mib) && WalkOk(mib, cap, p.walk) && c in p.walk.next
    requires s in mib && IsNextRow(mib, c, p.walk.next[c], s)
    ensures WalkOk(mib, cap, AcceptVariable(cap, p, c, At(mib, s)).walk)
  {
    PositionIsCanonical(mib, cap, p.walk, c);
    assert ColumnOk(mib, cap, p.walk, c) && c !in p.walk.truncated;
    hide Proper, ColumnOk, Canonical, IsNextRow, AcceptVariable, Distinct;
    AcceptedColumnIsOk(mib, cap, p, c, s);
    AcceptTouchesOne(cap, p, c, At(mib, s));
    var q := AcceptVariable(cap, p, c, At(mib, s)).walk;
    AppendDistinct(p.walk.truncated, c);
    OthersUntouched(mib, cap, p.walk, q, c);
  }

  lemma AppendDistinct(s: seq<string>, c: string)
    requires Distinct(s) && c !in s
    ensures Distinct(s + [c])
  {
  }

  lemma NextRowFacts(mib: Mib, c: string, position: string, s: string)
    requires Proper(mib) && Canonical(c) && Canonical(position) && IsNextRow(mib, c, position, s)
    ensures s in mib && Under(c, s) && Canonical(s) && CompareOIDs(s, position) > 0
    ensures CanonicalOID(At(mib, s).name) == s
    ensures Reading(mib, s).Some? ==> s in ReadableRows(mib, c)
  {
    hide RowIndex, CompareOIDs;
    CanonicalOIDFixes(s);
    OrderIsTotal(position, s);
  }

  // ----- one packet -----

  /** What a traversal from `from` to `to` has met of column `c` lies at or before the position. */
  ghost predicate Passed(mib: Mib, c: string, from: string, to: string, position: string) {
    forall o :: o in mib && Under(c, o) && OIDLess(from, o) && CompareOIDs(o, to) <= 0 ==> CompareOIDs(o, position) <= 0
  }

  /** A request position of a column, and where its traversal has got to. */
  ghost predicate Traversal(mib: Mib, column: string, from: string, to: string) {
    && (from == column || (from in mib && Under(column, from)))
    && (to == from || (to in mib && OIDLess(from, to)))
  }

  /**
   * The frontier invariant, while the variables of one packet are applied. `from` are the requested positions of the
   * chunk and `at` where their traversals stand. Whatever any of the traversals has met of a column that still walks,
   * its own or another's by overshoot, the column's position has passed.
   */
  ghost predicate PassOk(mib: Mib, cap: nat, chunk: seq<string>, from: seq<string>, at: seq<string>, p: Pass)
    requires Proper(mib)
  {
    && WalkOk(mib, cap, p.walk)
    && |chunk| == |from| == |at|
    && (forall k :: 0 <= k < |chunk| ==> chunk[k] in p.walk.columns && Traversal(mib, chunk[k], from[k], at[k]))
    && (forall k, c :: 0 <= k < |chunk| && c in chunk && c in p.walk.next ==>
          Passed(mib, c, from[k], at[k], p.walk.next[c]))
    && (forall k :: 0 <= k < |chunk| && chunk[k] in p.walk.next ==>
          CompareOIDs(from[k], p.walk.next[chunk[k]]) <= 0)
    && (forall k :: 0 <= k < |chunk| && chunk[k] in p.walk.next && (chunk[k] !in p.answered || !p.progressed) ==>
          p.walk.next[chunk[k]] == from[k])
  }

  lemma TraversalFacts(mib: Mib, column: string, from: string, to: string)
    requires Proper(mib) && Canonical(column) && Traversal(mib, column, from, to)
    ensures Canonical(from) && Canonical(to) && CompareOIDs(from, to) <= 0
  {
    hide CompareOIDs, RowIndex;
    OrderIsTotal(from, to);
  }

  /** A row of a walking column that a traversal requested: it can only be that column's own position. */
  lemma RequestedRow(mib: Mib, cap: nat, chunk: seq<string>, from: seq<string>, at: seq<string>, p: Pass, k: nat, c: string)
    requires Proper(mib) && PassOk(mib, cap, chunk, from, at, p) && k < |chunk|
    requires c in chunk && c in p.walk.next && Under(c, from[k])
    ensures CompareOIDs(from[k], p.walk.next[c]) <= 0
  {
    hide Canonical, CompareOIDs, RowIndex, ColumnOk, Passed;
    var own := chunk[k];
    assert Traversal(mib, own, from[k], at[k]);
    if from[k] != own {
      SharedRowMeansNested(c, own, from[k]);
    }
  }

  /** The frontier: a row that some traversal is about to meet follows the column's position immediately. */
  lemma NextMetRow(mib: Mib, cap: nat, chunk: seq<string>, from: seq<string>, at: seq<string>, p: Pass, k: nat, c: string, s: string)
    requires Proper(mib) && PassOk(mib, cap, chunk, from, at, p) && k < |chunk|
    requires c in chunk && c in p.walk.next && IsSuccessor(mib, at[k], s) && Under(c, s)
    requires OIDLess(p.walk.next[c], s)
    ensures IsNextRow(mib, c, p.walk.next[c], s)
  {
    hide Canonical, CompareOIDs, RowIndex, WalkOk, RowMap;
    var position := p.walk.next[c];
    assert Canonical(chunk[k]) by { WalkColumns(mib, cap, p.walk, chunk[k]); }
    assert Traversal(mib, chunk[k], from[k], at[k]);
    TraversalFacts(mib, chunk[k], from[k], at[k]);
    PositionIsCanonical(mib, cap, p.walk, c);
    OrderIsTransitive(from[k], at[k], s);
    forall o | o in mib && Under(c, o) && OIDLess(o, s)
      ensures CompareOIDs(o, position) <= 0
    {
      OrderIsTotal(from[k], o);
      OrderIsTotal(at[k], o);
      OrderIsTotal(o, s);
      if OIDLess(from[k], o) {
        assert Passed(mib, c, from[k], at[k], position);
      } else {
        OrderIsTotal(o, from[k]);
        if o != from[k] {
          SubtreeIsInterval(c, o, from[k], s);
        }
        RequestedRow(mib, cap, chunk, from, at, p, k, c);
        OrderIsTransitive(o, from[k], position);
      }
    }
  }

  lemma WalkColumns(mib: Mib, cap: nat, w: Walk, c: string)
    requires Proper(mib) && WalkOk(mib, cap, w) && c in w.columns
    ensures Canonical(c)
  {
  }

  /** A traversal that meets `s` after `at` extends what has been passed by at most `s`. */
  lemma PassedStep(mib: Mib, c: string, from: string, at: string, s: string, position: string, moved: string)
    requires Proper(mib) && Canonical(at) && Canonical(position) && Canonical(moved)
    requires Passed(mib, c, from, at, position) && IsSuccessor(mib, at, s)
    requires CompareOIDs(position, moved) <= 0 && (Under(c, s) ==> CompareOIDs(s, moved) <= 0)
    ensures Passed(mib, c, from, s, moved)
  {
    hide Canonical, CompareOIDs, RowIndex;
    forall o | o in mib && Under(c, o) && OIDLess(from, o) && CompareOIDs(o, s) <= 0
      ensures CompareOIDs(o, moved) <= 0
    {
      OrderIsTotal(at, o);
      OrderIsTotal(s, o);
      if CompareOIDs(o, at) <= 0 {
        OrderIsTransitive(o, position, moved);
      } else {
        OrderIsTotal(o, s);
      }
    }
  }

  lemma PassedMove(mib: Mib, c: string, from: string, at: string, position: string, moved: string)
    requires Proper(mib) && Canonical(position) && Canonical(moved)
    requires Passed(mib, c, from, at, position) && CompareOIDs(position, moved) <= 0
    ensures Passed(mib, c, from, at, moved)
  {
    hide Canonical, CompareOIDs, RowIndex;
    forall o | o in mib && Under(c, o) && OIDLess(from, o) && CompareOIDs(o, at) <= 0
      ensures CompareOIDs(o, moved) <= 0
    {
      OrderIsTransitive(o, position, moved);
    }
  }

  /** An endOfMibView names a position already passed, so it never moves a column. */
  lemma EndOfMibIsRejected(mib: Mib, cap: nat, chunk: seq<string>, from: seq<string>, at: seq<string>, p: Pass, k: nat, c: string)
    requires Proper(mib) && PassOk(mib, cap, chunk, from, at, p) && k < |chunk|
    requires c in chunk && c in p.walk.next && Under(c, at[k])
    ensures CompareOIDs(at[k], p.walk.next[c]) <= 0 && p.walk.next[c] != c
  {
    hide Canonical, CompareOIDs, RowIndex, WalkOk;
    WalkColumns(mib, cap, p.walk, chunk[k]);
    WalkColumns(mib, cap, p.walk, c);
    assert Traversal(mib, chunk[k], from[k], at[k]);
    TraversalFacts(mib, chunk[k], from[k], at[k]);
    PositionIsCanonical(mib, cap, p.walk, c);
    if at[k] == from[k] {
      RequestedRow(mib, cap, chunk, from, at, p, k, c);
    } else {
      assert Passed(mib, c, from[k], at[k], p.walk.next[c]);
      OrderIsTotal(at[k], at[k]);
    }
    RootBeforeRows(c, at[k]);
    OrderIsTotal(c, at[k]);
  }

  /** Only the answered columns change when a variable is not accepted. */
  lemma RejectedKeepsFrontier(mib: Mib, cap: nat, chunk: seq<string>, from: seq<string>, at: seq<string>, p: Pass, c: string)
    requires Proper(mib) && PassOk(mib, cap, chunk, from, at, p)
    ensures PassOk(mib, cap, chunk, from, at, p.(answered := p.answered + {c}))
  {
    hide WalkOk, Traversal, Passed, CompareOIDs;
  }

  /** A traversal may move to `s` when every walking column of the chunk has passed `s`. */
  lemma TraversalMoves(mib: Mib, cap: nat, chunk: seq<string>, from: seq<string>, at: seq<string>, p: Pass, k: nat, s: string)
    requires Proper(mib) && PassOk(mib, cap, chunk, from, at, p) && k < |chunk| && IsSuccessor(mib, at[k], s)
    requires forall c :: c in chunk && c in p.walk.next && Under(c, s) ==> CompareOIDs(s, p.walk.next[c]) <= 0
    ensures PassOk(mib, cap, chunk, from, at[k := s], p)
  {
    hide Canonical, CompareOIDs, RowIndex, WalkOk;
    WalkColumns(mib, cap, p.walk, chunk[k]);
    assert Traversal(mib, chunk[k], from[k], at[k]);
    TraversalFacts(mib, chunk[k], from[k], at[k]);
    OrderIsTransitive(from[k], at[k], s);
    forall c | c in chunk && c in p.walk.next
      ensures Passed(mib, c, from[k], s, p.walk.next[c])
    {
      PositionIsCanonical(mib, cap, p.walk, c);
      OrderIsTotal(p.walk.next[c], p.walk.next[c]);
      PassedStep(mib, c, from[k], at[k], s, p.walk.next[c], p.walk.next[c]);
    }
  }

  /** The immediate next row of a walking column is accepted, whichever traversal brought it. */
  lemma AcceptedKeepsFrontier(mib: Mib, cap: nat, chunk: seq<string>, from: seq<string>, at: seq<string>, p: Pass, c: string, s: string)
    requires Proper(mib) && PassOk(mib, cap, chunk, from, at, p)
    requires c in chunk && c in p.walk.next && s in mib && IsNextRow(mib, c, p.walk.next[c], s)
    ensures var q := AcceptVariable(cap, p, c, At(mib, s));
      && PassOk(mib, cap, chunk, from, at, q)
      && (c in q.walk.next ==> q.walk.next[c] == s)
      && forall d :: d != c ==> (d in q.walk.next <==> d in p.walk.next)
  {
    hide Canonical, CanonicalOID, CompareOIDs, RowIndex, WalkOk, Decode, Traversal, IsNextRow;
    PositionIsCanonical(mib, cap, p.walk, c);
    NextRowFacts(mib, c, p.walk.next[c], s);
    AcceptIsOk(mib, cap, p, c, s);
    var q := AcceptVariable(cap, p, c, At(mib, s));
    OrderIsTotal(s, p.walk.next[c]);
    OrderIsTotal(p.walk.next[c], s);
    if c in q.walk.next {
      forall k | 0 <= k < |chunk|
        ensures Passed(mib, c, from[k], at[k], s)
        ensures chunk[k] == c ==> CompareOIDs(from[k], s) <= 0
      {
        PassedMove(mib, c, from[k], at[k], p.walk.next[c], s);
        if chunk[k] == c {
          assert Traversal(mib, c, from[k], at[k]);
          TraversalFacts(mib, c, from[k], at[k]);
          OrderIsTransitive(from[k], p.walk.next[c], s);
        }
      }
    }
    hide Passed;
  }

  lemma PassColumns(mib: Mib, cap: nat, chunk: seq<string>, from: seq<string>, at: seq<string>, p: Pass)
    requires Proper(mib) && PassOk(mib, cap, chunk, from, at, p)
    ensures NonNested(p.walk.columns.Keys) && p.walk.Keyed()
    ensures forall c :: c in p.walk.columns ==> Canonical(c)
    ensures forall c :: c in chunk ==> c in p.walk.columns
    ensures forall k :: 0 <= k < |chunk| ==> Canonical(at[k])
  {
    hide Canonical, CompareOIDs, Under;
    forall k | 0 <= k < |chunk|
      ensures Canonical(at[k])
    {
      assert Traversal(mib, chunk[k], from[k], at[k]);
      TraversalFacts(mib, chunk[k], from[k], at[k]);
    }
  }

  lemma EndOfMibKeepsFrontier(mib: Mib, cap: nat, chunk: seq<string>, from: seq<string>, at: seq<string>, p: Pass, k: nat, v: Variable)
    requires Proper(mib) && PassOk(mib, cap, chunk, from, at, p) && p.walk.Keyed() && k < |chunk| == |at|
    requires v.name == "." + at[k]
    ensures PassOk(mib, cap, chunk, from, Advance(at, k, v), ApplyVariable(chunk, cap, p, v))
  {
    hide PassOk, Canonical, CanonicalOID, CompareOIDs, RowIndex, Decode, LongestMatch;
    PassColumns(mib, cap, chunk, from, at, p);
    CanonicalOIDFixes(at[k]);
    assert Advance(at, k, v) == at;
    LongestMatchIsLongest(chunk, at[k]);
    var match_ := LongestMatch(chunk, at[k]);
    if match_.Some? && match_.value in p.walk.next {
      EndOfMibIsRejected(mib, cap, chunk, from, at, p, k, match_.value);
      RejectedKeepsFrontier(mib, cap, chunk, from, at, p, match_.value);
    }
  }

  lemma SuccessorKeepsFrontier(mib: Mib, cap: nat, chunk: seq<string>, from: seq<string>, at: seq<string>, p: Pass, k: nat, s: string)
    requires Proper(mib) && PassOk(mib, cap, chunk, from, at, p) && p.walk.Keyed() && k < |chunk| == |at|
    requires IsSuccessor(mib, at[k], s)
    ensures PassOk(mib, cap, chunk, from, Advance(at, k, At(mib, s)), ApplyVariable(chunk, cap, p, At(mib, s)))
  {
    hide PassOk, Canonical, CanonicalOID, CompareOIDs, RowIndex, Decode, LongestMatch, NonNested, AcceptVariable;
    PassColumns(mib, cap, chunk, from, at, p);
    CanonicalOIDFixes(s);
    assert Advance(at, k, At(mib, s)) == at[k := s];
    LongestMatchIsLongest(chunk, s);
    forall c | c in chunk && Under(c, s)
      ensures LongestMatch(chunk, s) == Some(c)
    {
      MatchIsTheColumn(chunk, p.walk.columns.Keys, c, s);
    }
    var match_ := LongestMatch(chunk, s);
    if match_.None? || match_.value !in p.walk.next {
      TraversalMoves(mib, cap, chunk, from, at, p, k, s);
    } else {
      MetRowKeepsFrontier(mib, cap, chunk, from, at, p, k, match_.value, s);
    }
  }

  /** The case where the row belongs to a column of the chunk that still walks. */
  lemma MetRowKeepsFrontier(mib: Mib, cap: nat, chunk: seq<string>, from: seq<string>, at: seq<string>, p: Pass, k: nat, c: string, s: string)
    requires Proper(mib) && PassOk(mib, cap, chunk, from, at, p) && p.walk.Keyed() && k < |chunk| == |at|
    requires IsSuccessor(mib, at[k], s) && c in chunk && c in p.walk.next && Under(c, s)
    requires forall d :: d in chunk && Under(d, s) ==> d == c
    ensures PassOk(mib, cap, chunk, from, at[k := s], AcceptVariable(cap, p, c, At(mib, s)))
  {
    hide PassOk, Canonical, CanonicalOID, CompareOIDs, RowIndex, Decode, StoreRow;
    PassColumns(mib, cap, chunk, from, at, p);
    CanonicalOIDFixes(s);
    var position := p.walk.next[c];
    PassPosition(mib, cap, chunk, from, at, p, c);
    OrderIsTotal(position, s);
    OrderIsTotal(s, s);
    if position != c && CompareOIDs(s, position) <= 0 {
      RejectedKeepsFrontier(mib, cap, chunk, from, at, p, c);
      TraversalMoves(mib, cap, chunk, from, at, p.(answered := p.answered + {c}), k, s);
    } else {
      if position == c {
        RootBeforeRows(c, s);
      }
      NextMetRow(mib, cap, chunk, from, at, p, k, c, s);
      AcceptedKeepsFrontier(mib, cap, chunk, from, at, p, c, s);
      hide AcceptVariable;
      TraversalMoves(mib, cap, chunk, from, at, AcceptVariable(cap, p, c, At(mib, s)), k, s);
    }
  }

  lemma PassPosition(mib: Mib, cap: nat, chunk: seq<string>, from: seq<string>, at: seq<string>, p: Pass, c: string)
    requires Proper(mib) && PassOk(mib, cap, chunk, from, at, p) && c in p.walk.next
    ensures Canonical(p.walk.next[c])
  {
    PositionIsCanonical(mib, cap, p.walk, c);
  }

  /** Any variables that continue the requested traversals keep the frontier invariant. */
  lemma {:induction false} VariablesKeepFrontier(mib: Mib, cap: nat, chunk: seq<string>, from: seq<string>, at: seq<string>,
                                                 p: Pass, who: seq<nat>, vars: seq<Variable>) returns (end: seq<string>)
    requires Proper(mib) && PassOk(mib, cap, chunk, from, at, p) && p.walk.Keyed() && |chunk| == |at|
    requires |who| == |vars| && Interleaves(mib, at, who, vars)
    ensures CursorsAfter(at, who, vars) == Some(end)
    ensures PassOk(mib, cap, chunk, from, end, ApplyVariables(chunk, cap, p, vars))
    decreases |vars|
  {
    hide PassOk, CanonicalOID, ApplyVariable, IsLast, OIDLess, CompareOIDs;
    if vars == [] {
      end := at;
    } else {
      var k, v := who[0], vars[0];
      if IsLast(mib, at[k]) {
        EndOfMibKeepsFrontier(mib, cap, chunk, from, at, p, k, v);
      } else {
        var s :| IsSuccessor(mib, at[k], s) && v == At(mib, s);
        SuccessorKeepsFrontier(mib, cap, chunk, from, at, p, k, s);
      }
      end := VariablesKeepFrontier(mib, cap, chunk, from, Advance(at, k, v), ApplyVariable(chunk, cap, p, v), who[1..], vars[1..]);
    }
  }

  /** A traversal that was continued stands beyond where it started, unless it started at the end of the MIB. */
  lemma {:induction false} TraversalsMove(mib: Mib, at: seq<string>, who: seq<nat>, vars: seq<Variable>, end: seq<string>, k: nat)
    requires Proper(mib) && k < |at| && (forall i :: 0 <= i < |at| ==> Canonical(at[i]))
    requires |who| == |vars| && Interleaves(mib, at, who, vars) && CursorsAfter(at, who, vars) == Some(end)
    ensures |end| == |at| && Canonical(end[k]) && CompareOIDs(at[k], end[k]) <= 0
    ensures k in who ==> IsLast(mib, at[k]) || OIDLess(at[k], end[k])
    decreases |vars|
  {
    hide Canonical, CanonicalOID, CompareOIDs, IsLast;
    if vars == [] {
      OrderIsTotal(at[k], at[k]);
    } else {
      var j, v := who[0], vars[0];
      CanonicalOIDFixes(at[j]);
      OrderIsTotal(at[k], at[k]);
      if !IsLast(mib, at[j]) {
        var s :| IsSuccessor(mib, at[j], s) && v == At(mib, s);
        CanonicalOIDFixes(s);
      }
      var moved := Advance(at, j, v);
      TraversalsMove(mib, moved, who[1..], vars[1..], end, k);
      OrderIsTransitive(at[k], moved[k], end[k]);
      assert who == [j] + who[1..];
    }
  }

  /** A column whose traversal was continued and whose position did not move has no further rows. */
  lemma UnmovedIsAtEnd(mib: Mib, column: string, from: string, to: string)
    requires Proper(mib) && Canonical(column) && Traversal(mib, column, from, to)
    requires IsLast(mib, from) || OIDLess(from, to)
    requires Passed(mib, column, from, to, from)
    ensures AtEnd(mib, column, from)
  {
    hide Canonical, CompareOIDs, RowIndex;
    TraversalFacts(mib, column, from, to);
    forall o | o in mib && Under(column, o)
      ensures CompareOIDs(o, from) <= 0
    {
      OrderIsTotal(from, o);
      OrderIsTotal(o, from);
      if OIDLess(from, o) {
        SuccessorExists(mib, from);
        var s :| IsSuccessor(mib, from, s);
        SubtreeIsInterval(column, from, s, o);
        OrderIsTotal(from, to);
        OrderIsTotal(s, from);
        OrderIsTotal(from, s);
        assert false;
      }
    }
  }

  lemma PassStarts(mib: Mib, cap: nat, w: Walk, chunk: seq<string>, from: seq<string>)
    requires Proper(mib) && WalkOk(mib, cap, w) && |chunk| == |from|
    requires forall k :: 0 <= k < |chunk| ==> chunk[k] in w.next && from[k] == w.next[chunk[k]]
    ensures PassOk(mib, cap, chunk, from, from, Pass(w, {}, false))
  {
    hide Canonical, CompareOIDs, RowIndex, ColumnOk;
    forall k | 0 <= k < |chunk|
      ensures Traversal(mib, chunk[k], from[k], from[k])
      ensures CompareOIDs(from[k], from[k]) == 0
      ensures forall c :: c in w.next ==> Passed(mib, c, from[k], from[k], w.next[c])
    {
      PositionIsCanonical(mib, cap, w, chunk[k]);
      OrderIsTotal(from[k], from[k]);
      forall c, o | c in w.next && o in mib && OIDLess(from[k], o)
        ensures CompareOIDs(o, from[k]) > 0
      {
        OrderIsTotal(from[k], o);
      }
    }
  }

  /**
   * Applying a correct answer keeps every column exact, and ends only columns that are complete; when nothing
   * progressed, every column of the chunk that still walks is complete.
   */
  lemma ConsumedIsOk(mib: Mib, cap: nat, w: Walk, chunk: seq<string>, from: seq<string>, who: seq<nat>, vars: seq<Variable>)
    requires Proper(mib) && WalkOk(mib, cap, w) && w.Keyed() && |chunk| == |from|
    requires forall k :: 0 <= k < |chunk| ==> chunk[k] in w.next && from[k] == w.next[chunk[k]]
    requires |who| == |vars| && FullRepetition(|chunk|, who) && Interleaves(mib, from, who, vars)
    ensures var p := Consumed(chunk, cap, w, vars);
      && WalkOk(mib, cap, p.walk)
      && (!p.progressed ==> forall c :: c in chunk && c in p.walk.next ==> AtEnd(mib, c, p.walk.next[c]))
  {
    hide WalkOk, Canonical, CanonicalOID, CompareOIDs, RowIndex, ApplyVariables, AtEnd, IsLast, Interleaves;
    PassStarts(mib, cap, w, chunk, from);
    var start := Pass(w, {}, false);
    PassColumns(mib, cap, chunk, from, from, start);
    var end := VariablesKeepFrontier(mib, cap, chunk, from, from, start, who, vars);
    var p := ApplyVariables(chunk, cap, start, vars);
    PassColumns(mib, cap, chunk, from, end, p);
    forall c | c in chunk && c in p.walk.next && (c !in p.answered || !p.progressed)
      ensures AtEnd(mib, c, p.walk.next[c])
    {
      var k :| 0 <= k < |chunk| && chunk[k] == c;
      assert who[k] == k;
      TraversalsMove(mib, from, who, vars, end, k);
      assert Traversal(mib, c, from[k], end[k]) && Passed(mib, c, from[k], end[k], from[k]);
      UnmovedIsAtEnd(mib, c, from[k], end[k]);
    }
    EndIsOk(mib, cap, p.walk, Unanswered(chunk, p.answered));
  }

  // ----- columns that a packet does not mention -----

  lemma {:induction false} SilentColumnIsUntouched(chunk: seq<string>, cap: nat, p: Pass, vars: seq<Variable>, c: string)
    requires p.walk.Keyed() && c in p.walk.next && forall v :: v in vars ==> LongestMatch(chunk, CanonicalOID(v.name)) != Some(c)
    ensures
      var q := ApplyVariables(chunk, cap, p, vars);
      && c in q.walk.next && q.walk.columns[c] == p.walk.columns[c]
      && (c in q.answered <==> c in p.answered) && (c in q.walk.truncated <==> c in p.walk.truncated)
    decreases |vars|
  {
    hide LongestMatch, CanonicalOID, CompareOIDs, Decode;
    if vars != [] {
      SilentColumnIsUntouched(chunk, cap, ApplyVariable(chunk, cap, p, vars[0]), vars[1..], c);
    }
  }

  /**
   * Section 4.2.3 of RFC 3416 lets an agent cut a GETBULK answer anywhere, even within the first repetition. A column that
   * the packet then does not mention is ended with the rows it has, and that is right if and only if it has no other.
   */
  lemma SilentColumnIsEnded(mib: Mib, cap: nat, w: Walk, chunk: seq<string>, vars: seq<Variable>, c: string)
    requires Proper(mib) && WalkOk(mib, cap, w) && c in chunk && c in w.next
    requires forall v :: v in vars ==> LongestMatch(chunk, CanonicalOID(v.name)) != Some(c)
    ensures
      var v := Consumed(chunk, cap, w, vars).walk;
      && c !in v.next && c in v.columns && Canonical(c)
      && v.columns[c] == w.columns[c]
      && (ColumnOk(mib, cap, v, c) <==> Upto(mib, c, w.next[c]) == ReadableRows(mib, c))
  {
    hide LongestMatch, CanonicalOID, CompareOIDs, Decode, Canonical, RowIndex, ApplyVariables, RowMap, ReadableRows, Upto, FirstRows;
    assert ColumnOk(mib, cap, w, c);
    SilentColumnIsUntouched(chunk, cap, Pass(w, {}, false), vars, c);
    var rows, held := ReadableRows(mib, c), Upto(mib, c, w.next[c]);
    UptoWithin(mib, c, w.next[c]);
    SubsetSize(held, rows);
    FirstRowsCount(mib, c, cap);
    FirstRowsWithin(mib, c, cap);
    RowMapSize(mib, c, held);
    RowMapSize(mib, c, FirstRows(mib, c, cap));
    if held == rows {
      EqualSizeIsEqual(FirstRows(mib, c, cap), rows);
    } else if |rows| <= cap {
      ProperSubsetIsSmaller(held, rows);
    }
  }

  /** Is some variable of the packet attributed to the column? */
  ghost predicate Mentioned(chunk: seq<string>, vars: seq<Variable>, c: string) {
    exists v :: v in vars && LongestMatch(chunk, CanonicalOID(v.name)) == Some(c)
  }

  lemma {:induction false} MentionedIsAnswered(chunk: seq<string>, cap: nat, p: Pass, vars: seq<Variable>, c: string)
    requires p.walk.Keyed() && c in p.walk.next
    ensures var q := ApplyVariables(chunk, cap, p, vars);
      && (c in p.answered || Mentioned(chunk, vars, c) ==> c in q.answered)
      && (c !in q.walk.next ==> c in q.walk.truncated)
    decreases |vars|
  {
    hide LongestMatch, CanonicalOID, CompareOIDs, Decode, ApplyVariable;
    if vars != [] {
      VariableAnswers(chunk, cap, p, vars[0], c);
      var q := ApplyVariable(chunk, cap, p, vars[0]);
      if c in q.walk.next {
        MentionedIsAnswered(chunk, cap, q, vars[1..], c);
        assert vars == [vars[0]] + vars[1..];
      } else {
        AnsweredStays(chunk, cap, q, vars[1..], c);
      }
    }
  }

  lemma VariableAnswers(chunk: seq<string>, cap: nat, p: Pass, v: Variable, c: string)
    requires p.walk.Keyed() && c in p.walk.next
    ensures var q := ApplyVariable(chunk, cap, p, v);
      && (c in p.answered || LongestMatch(chunk, CanonicalOID(v.name)) == Some(c) ==> c in q.answered)
      && (c !in q.walk.next ==> c in q.answered && c in q.walk.truncated)
  {
    hide LongestMatch, CanonicalOID, CompareOIDs, Decode;
  }

  lemma {:induction false} AnsweredStays(chunk: seq<string>, cap: nat, p: Pass, vars: seq<Variable>, c: string)
    requires p.walk.Keyed() && c !in p.walk.next
    ensures var q := ApplyVariables(chunk, cap, p, vars);
      c !in q.walk.next && (c in p.answered ==> c in q.answered) && (c in p.walk.truncated ==> c in q.walk.truncated)
    decreases |vars|
  {
    hide LongestMatch, CanonicalOID, CompareOIDs, Decode;
    if vars != [] {
      AnsweredStays(chunk, cap, ApplyVariable(chunk, cap, p, vars[0]), vars[1..], c);
    }
  }

  /**
   * Whatever the device sends: an error-free packet ends a column of the chunk if and only if it does not mention it or
   * brings it to the cap, a mention without a new row included.
   */
  lemma PacketEndsColumnIff(chunk: seq<string>, cap: nat, w: Walk, vars: seq<Variable>, c: string)
    requires w.Keyed() && c in chunk && c in w.next && c !in w.truncated
    ensures c !in Consumed(chunk, cap, w, vars).walk.next <==>
      !Mentioned(chunk, vars, c) || c in Consumed(chunk, cap, w, vars).walk.truncated
  {
    hide LongestMatch, CanonicalOID, ApplyVariables;
    var p := Pass(w, {}, false);
    MentionedIsAnswered(chunk, cap, p, vars, c);
    if !Mentioned(chunk, vars, c) {
      SilentColumnIsUntouched(chunk, cap, p, vars, c);
    }
    TruncatedIsEnded(chunk, cap, p, vars, c);
  }

  lemma {:induction false} TruncatedIsEnded(chunk: seq<string>, cap: nat, p: Pass, vars: seq<Variable>, c: string)
    requires p.walk.Keyed() && (c in p.walk.truncated ==> c !in p.walk.next)
    ensures var q := ApplyVariables(chunk, cap, p, vars); c in q.walk.truncated ==> c !in q.walk.next
    decreases |vars|
  {
    hide LongestMatch, CanonicalOID, CompareOIDs, Decode;
    if vars != [] {
      TruncatedIsEnded(chunk, cap, ApplyVariable(chunk, cap, p, vars[0]), vars[1..], c);
    }
  }

  lemma ProperSubsetIsSmaller(a: set<string>, b: set<string>)
    requires a < b
    ensures |a| < |b|
  {
    SubsetSize(a, b);
    if |a| == |b| {
      EqualSizeIsEqual(a, b);
    }
  }

  lemma EqualSizeIsEqual(a: set<string>, b: set<string>)
    requires a <= b && |a| == |b|
    ensures a == b
  {
    if x :| x in b && x !in a {
      SubsetSize(a, b - {x});
    }
  }

  // ----- stored values are true, whatever the columns -----

  /** Every stored cell is the device's value at column and index put together. */
  ghost predicate TrueCells(mib: Mib, columns: map<string, map<string, Value>>) {
    forall c, i :: c in columns && i in columns[c] ==> c + "." + i in mib && Reading(mib, c + "." + i) == Some(columns[c][i])
  }

  /** A variable with a value shows the device's value under its name. */
  ghost predicate TrueVariable(mib: Mib, v: Variable) {
    Decode(v).Some? ==> CanonicalOID(v.name) in mib && Decode(v) == Reading(mib, CanonicalOID(v.name))
  }

  lemma VariableKeepsCells(mib: Mib, chunk: seq<string>, cap: nat, p: Pass, v: Variable)
    requires Proper(mib) && p.walk.Keyed() && TrueCells(mib, p.walk.columns) && TrueVariable(mib, v) && CanonicalAll(chunk)
    ensures TrueCells(mib, ApplyVariable(chunk, cap, p, v).walk.columns)
  {
    hide LongestMatch, CompareOIDs, Decode, Canonical, CanonicalOID, RowIndex;
    var oid := CanonicalOID(v.name);
    LongestMatchIsLongest(chunk, oid);
    var column := LongestMatch(chunk, oid);
    if column.Some? && Decode(v).Some? {
      RowIndexIsArcPrefix(column.value, oid);
    }
  }

  lemma {:induction false} VariablesKeepCells(mib: Mib, chunk: seq<string>, cap: nat, p: Pass, vars: seq<Variable>)
    requires Proper(mib) && p.walk.Keyed() && TrueCells(mib, p.walk.columns) && CanonicalAll(chunk)
    requires forall v :: v in vars ==> TrueVariable(mib, v)
    ensures TrueCells(mib, ApplyVariables(chunk, cap, p, vars).walk.columns)
    decreases |vars|
  {
    hide ApplyVariable, TrueCells, TrueVariable, Canonical, Proper;
    if vars != [] {
      VariableKeepsCells(mib, chunk, cap, p, vars[0]);
      VariablesKeepCells(mib, chunk, cap, ApplyVariable(chunk, cap, p, vars[0]), vars[1..]);
    }
  }
}
