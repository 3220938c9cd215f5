/**
 * Flattening a trace into indented rows (ndn-viz/src/observe.rs): a depth-first
 * walk over untrusted parent pointers, safe against cycles, orphans and
 * duplicate span ids.
 */
module SpanTree {
  import opened Common
  import opened Order

  datatype Span = Span(spanId: string, parentSpanId: Option<string>, name: string)

  datatype SpanTreeRow = SpanTreeRow(span: Span, depth: nat, childCount: nat, orphanedParent: bool)

  // ------------------------------------------------------------ parent pointers

  ghost predicate HasId(spans: seq<Span>, id: string) {
    exists i :: 0 <= i < |spans| && spans[i].spanId == id
  }

  /** A span without a parent, or whose parent is not in the trace. */
  ghost predicate IsRoot(spans: seq<Span>, i: nat)
    requires i < |spans|
  {
    spans[i].parentSpanId.None? || !HasId(spans, spans[i].parentSpanId.value)
  }

  ghost predicate ParentOf(spans: seq<Span>, p: nat, c: nat) {
    p < |spans| && c < |spans| && spans[c].parentSpanId == Some(spans[p].spanId)
  }

  ghost function ChildSet(spans: seq<Span>, id: string): set<nat> {
    set c: nat | c < |spans| && spans[c].parentSpanId == Some(id)
  }

  function IdOf(spans: seq<Span>, i: nat): string {
    if i < |spans| then spans[i].spanId else ""
  }

  /** Sibling order: by span id; the stable sort keeps equal ids in trace order. */
  predicate Before(spans: seq<Span>, i: nat, j: nat) {
    LexLe(IdOf(spans, i), IdOf(spans, j)) && (IdOf(spans, i) == IdOf(spans, j) ==> i <= j)
  }

  // ----------------------------------------------------------------- the listing

  ghost predicate Orphaned(spans: seq<Span>, i: nat)
    requires i < |spans|
  {
    spans[i].parentSpanId.Some? && !HasId(spans, spans[i].parentSpanId.value)
  }

  ghost function RowOf(spans: seq<Span>, i: nat, depth: nat): SpanTreeRow
    requires i < |spans|
  {
    SpanTreeRow(spans[i], depth, |ChildSet(spans, spans[i].spanId)|, Orphaned(spans, i))
  }

  /** Row `k` shows span `order[k]`, and no span is shown twice. */
  ghost predicate Lists(spans: seq<Span>, rows: seq<SpanTreeRow>, order: seq<nat>) {
    && |rows| == |order|
    && Distinct(order)
    && (forall k :: 0 <= k < |order| ==>
          order[k] < |spans| && rows[k] == RowOf(spans, order[k], rows[k].depth))
  }

  /** Row `j` is the nearest row above `k` one level up, and shows `k`'s parent. */
  ghost predicate ParentRow(spans: seq<Span>, rows: seq<SpanTreeRow>, order: seq<nat>, j: nat, k: nat) {
    && j < k < |rows| <= |order|
    && rows[j].depth + 1 == rows[k].depth
    && ParentOf(spans, order[j], order[k])
    && (forall m :: j < m < k ==> rows[m].depth >= rows[k].depth)
  }

  ghost predicate Nested(spans: seq<Span>, rows: seq<SpanTreeRow>, order: seq<nat>) {
    forall k: nat :: k < |rows| && rows[k].depth > 0 ==> exists j: nat :: ParentRow(spans, rows, order, j, k)
  }

  /** Rows `a` and `b` hang off the same row above them. */
  ghost predicate Siblings(rows: seq<SpanTreeRow>, a: nat, b: nat) {
    && a < b < |rows|
    && 0 < rows[a].depth == rows[b].depth
    && (forall m :: a < m < b ==> rows[m].depth >= rows[b].depth)
  }

  ghost predicate SiblingsOrdered(spans: seq<Span>, rows: seq<SpanTreeRow>, order: seq<nat>) {
    |rows| == |order| &&
    forall a: nat, b: nat :: Siblings(rows, a, b) ==> Before(spans, order[a], order[b])
  }

  /** Top-level rows: the roots in sibling order, then the rest in trace order. */
  ghost predicate TopLevelOrdered(spans: seq<Span>, rows: seq<SpanTreeRow>, order: seq<nat>) {
    Lists(spans, rows, order) &&
    forall a, b :: 0 <= a < b < |rows| && rows[a].depth == rows[b].depth == 0 ==>
      if IsRoot(spans, order[b]) then
        IsRoot(spans, order[a]) && Before(spans, order[a], order[b])
      else
        IsRoot(spans, order[a]) || order[a] < order[b]
  }

  /** A walk down from a root to a span. */
  ghost predicate RootPath(spans: seq<Span>, path: seq<nat>) {
    && path != []
    && path[0] < |spans| && IsRoot(spans, path[0])
    && (forall k :: 0 < k < |path| ==> ParentOf(spans, path[k - 1], path[k]))
  }

  ghost predicate Reached(spans: seq<Span>, i: nat) {
    exists path :: RootPath(spans, path) && path[|path| - 1] == i
  }

  /** What `span_tree_rows` promises of its rows. */
  ghost predicate IsFlattening(spans: seq<Span>, rows: seq<SpanTreeRow>, order: seq<nat>) {
    && Lists(spans, rows, order)
    && (forall i :: 0 <= i < |spans| ==> i in order)
    && Nested(spans, rows, order)
    && SiblingsOrdered(spans, rows, order)
    && TopLevelOrdered(spans, rows, order)
    && (forall k :: 0 <= k < |rows| && rows[k].depth == 0 && !IsRoot(spans, order[k]) ==>
          !Reached(spans, order[k]))
  }

  // ------------------------------------------------------- one step of the walk

  /** `children.get(id).cloned().unwrap_or_default()` */
  function ListOf(children: map<string, seq<nat>>, id: string): seq<nat> {
    if id in children then children[id] else []
  }

  /** The child lists the walk reads: per parent id, exactly the spans naming it,
      once each, in sibling order. */
  ghost predicate ChildLists(spans: seq<Span>, children: map<string, seq<nat>>) {
    && (forall id :: Distinct(ListOf(children, id)) && Ordered(spans, ListOf(children, id)))
    && (forall id, c :: c in ListOf(children, id) <==> c in ChildSet(spans, id) && HasId(spans, id))
  }

  ghost predicate Ordered(spans: seq<Span>, list: seq<nat>) {
    forall i, j :: 0 <= i < j < |list| ==> Before(spans, list[i], list[j])
  }

  ghost function Unvisited(spans: seq<Span>, visited: set<nat>): set<nat> {
    set i: nat | i < |spans| && i !in visited
  }

  /** Every visited span outside `open` has all its children visited. */
  ghost predicate Closed(spans: seq<Span>, visited: set<nat>, open: set<nat>) {
    forall p: nat, c: nat :: p in visited && p !in open && ParentOf(spans, p, c) ==> c in visited
  }

  /** A snapshot of the walk. */
  datatype Snapshot = Snapshot(visited: set<nat>, rows: seq<SpanTreeRow>, order: seq<nat>)

  ghost predicate Valid(spans: seq<Span>, s: Snapshot) {
    && Lists(spans, s.rows, s.order)
    && s.visited == (set i | i in s.order)
    && Nested(spans, s.rows, s.order)
    && SiblingsOrdered(spans, s.rows, s.order)
  }

  /** Span `index` may be listed next at `depth`, under row `at`; `open` holds
      the spans whose listing is under way. */
  ghost predicate Enterable(spans: seq<Span>, s: Snapshot, open: set<nat>, at: nat, index: nat, depth: nat) {
    && index < |spans|
    && Valid(spans, s)
    && Closed(spans, s.visited, open)
    && (depth > 0 ==>
          && at < |s.rows| == |s.order|
          && s.rows[at].depth + 1 == depth
          && ParentOf(spans, s.order[at], index)
          && (forall k :: at < k < |s.rows| ==> s.rows[k].depth >= depth)
          && (forall k :: at < k < |s.rows| && s.rows[k].depth == depth ==> Before(spans, s.order[k], index)))
  }

  /** `s'` is `s` with `index` and what hangs off it listed at `depth`. */
  ghost predicate Listed(spans: seq<Span>, s: Snapshot, s': Snapshot, open: set<nat>, index: nat, depth: nat) {
    && Valid(spans, s')
    && Closed(spans, s'.visited, open)
    && index in s'.visited
    && s.visited <= s'.visited && s.rows <= s'.rows && s.order <= s'.order
    && (index in s.visited ==> s' == s)
    && (index !in s.visited ==>
          |s.rows| < |s'.rows| && s'.rows[|s.rows|].depth == depth &&
          |s.rows| == |s.order| < |s'.order| && s'.order[|s.rows|] == index)
    && (forall k :: |s.rows| < k < |s'.rows| ==> s'.rows[k].depth > depth)
  }

  /** Half-way through listing `index` from `s`: the children in `done` are out. */
  ghost predicate Listing(spans: seq<Span>, s: Snapshot, s': Snapshot, open: set<nat>, index: nat, depth: nat,
                          done: set<nat>)
  {
    && index < |spans| && index !in s.visited && index in s'.visited
    && Valid(spans, s')
    && Closed(spans, s'.visited, open + {index})
    && s.visited <= s'.visited && s.rows <= s'.rows && s.order <= s'.order
    && |s.rows| == |s.order| < |s'.rows| == |s'.order|
    && s'.rows[|s.rows|].depth == depth && s'.order[|s.rows|] == index
    && (forall k :: |s.rows| < k < |s'.rows| ==> s'.rows[k].depth > depth)
    && (forall k :: |s.rows| < k < |s'.rows| && s'.rows[k].depth == depth + 1 ==> s'.order[k] in done)
    && done <= s'.visited
  }

  ghost function WithRow(spans: seq<Span>, s: Snapshot, index: nat, depth: nat): Snapshot
    requires index < |spans|
  {
    Snapshot(s.visited + {index}, s.rows + [RowOf(spans, index, depth)], s.order + [index])
  }

  lemma AppendedNested(spans: seq<Span>, s: Snapshot, open: set<nat>, at: nat, index: nat, depth: nat)
    requires Enterable(spans, s, open, at, index, depth)
    ensures var s' := WithRow(spans, s, index, depth); Nested(spans, s'.rows, s'.order)
  {
    var s' := WithRow(spans, s, index, depth);
    forall k | 0 <= k < |s'.rows| && s'.rows[k].depth > 0
      ensures exists j: nat :: ParentRow(spans, s'.rows, s'.order, j, k)
    {
      if k < |s.rows| {
        var j: nat :| ParentRow(spans, s.rows, s.order, j, k);
        assert ParentRow(spans, s'.rows, s'.order, j, k);
      } else {
        assert ParentRow(spans, s'.rows, s'.order, at, k);
      }
    }
  }

  lemma AppendedSiblings(spans: seq<Span>, s: Snapshot, open: set<nat>, at: nat, index: nat, depth: nat)
    requires Enterable(spans, s, open, at, index, depth)
    ensures var s' := WithRow(spans, s, index, depth); SiblingsOrdered(spans, s'.rows, s'.order)
  {
    hide Before, Lists, Nested, Closed;
    var s' := WithRow(spans, s, index, depth);
    assert forall m :: 0 <= m < |s.rows| ==> s'.rows[m] == s.rows[m] && s'.order[m] == s.order[m];
    forall a: nat, b: nat | Siblings(s'.rows, a, b)
      ensures Before(spans, s'.order[a], s'.order[b])
    {
      if b < |s.rows| {
        assert forall m :: a < m < b ==> s.rows[m].depth >= s.rows[b].depth;
        assert Siblings(s.rows, a, b);
      } else {
        assert s'.rows[at].depth < depth;
        assert at < a;
      }
    }
  }

  lemma Enter(spans: seq<Span>, s: Snapshot, open: set<nat>, at: nat, index: nat, depth: nat)
    requires Enterable(spans, s, open, at, index, depth) && index !in s.visited
    ensures Listing(spans, s, WithRow(spans, s, index, depth), open, index, depth, {})
  {
    AppendedNested(spans, s, open, at, index, depth);
    AppendedSiblings(spans, s, open, at, index, depth);
  }

  lemma ChildEnterable(spans: seq<Span>, s: Snapshot, s': Snapshot, open: set<nat>, index: nat, depth: nat,
                       done: set<nat>, child: nat)
    requires Listing(spans, s, s', open, index, depth, done)
    requires ParentOf(spans, index, child)
    requires forall d :: d in done ==> Before(spans, d, child)
    ensures Enterable(spans, s', open + {index}, |s.rows|, child, depth + 1)
  {
  }

  lemma ChildListed(spans: seq<Span>, s: Snapshot, s': Snapshot, s'': Snapshot, open: set<nat>, index: nat, depth: nat,
                    done: set<nat>, child: nat)
    requires Listing(spans, s, s', open, index, depth, done)
    requires Listed(spans, s', s'', open + {index}, child, depth + 1)
    ensures Listing(spans, s, s'', open, index, depth, done + {child})
  {
    forall k | |s.rows| < k < |s''.rows|
      ensures s''.rows[k].depth > depth
      ensures s''.rows[k].depth == depth + 1 ==> s''.order[k] in done + {child}
    {
      if k < |s'.rows| {
        assert s''.rows[k] == s'.rows[k] && s''.order[k] == s'.order[k];
      } else if k == |s'.rows| {
        assert child !in s'.visited;
      }
    }
  }

  lemma Leave(spans: seq<Span>, s: Snapshot, s': Snapshot, open: set<nat>, index: nat, depth: nat, done: set<nat>)
    requires Listing(spans, s, s', open, index, depth, done)
    requires forall c :: ParentOf(spans, index, c) ==> c in done
    ensures Listed(spans, s, s', open, index, depth)
  {
  }

  lemma AlreadyListed(spans: seq<Span>, s: Snapshot, open: set<nat>, at: nat, index: nat, depth: nat)
    requires Enterable(spans, s, open, at, index, depth) && index in s.visited
    ensures Listed(spans, s, s, open, index, depth)
  {
  }

  lemma VisitShrinks(spans: seq<Span>, visited: set<nat>, visited': set<nat>, index: nat)
    requires index < |spans| && index !in visited && index in visited' && visited <= visited'
    ensures Unvisited(spans, visited') < Unvisited(spans, visited)
  {
    assert index in Unvisited(spans, visited);
  }

  lemma ListingShrinks(spans: seq<Span>, s: Snapshot, s': Snapshot, open: set<nat>, index: nat, depth: nat,
                       done: set<nat>)
    requires Listing(spans, s, s', open, index, depth, done)
    ensures Unvisited(spans, s'.visited) < Unvisited(spans, s.visited)
  {
    VisitShrinks(spans, s.visited, s'.visited, index);
  }

  lemma DistinctCount(s: seq<nat>, xs: set<nat>)
    requires Distinct(s) && (forall x :: x in s <==> x in xs)
    ensures |s| == |xs|
    decreases |s|
  {
    if s == [] {
      assert xs == {};
    } else {
      assert s == [s[0]] + s[1..];
      DistinctCount(s[1..], xs - {s[0]});
    }
  }

  /** The child list the walk looks up is complete, so its length is the child count. */
  lemma LookedUp(spans: seq<Span>, children: map<string, seq<nat>>, index: nat, list: seq<nat>)
    requires index < |spans| && ChildLists(spans, children)
    requires list == ListOf(children, spans[index].spanId)
    ensures |list| == |ChildSet(spans, spans[index].spanId)|
    ensures forall i :: 0 <= i < |list| ==> ParentOf(spans, index, list[i])
    ensures forall i, j :: 0 <= i < j < |list| ==> Before(spans, list[i], list[j])
    ensures forall c :: ParentOf(spans, index, c) ==> c in list
  {
    hide Before;
    var id := spans[index].spanId;
    assert HasId(spans, id);
    assert Distinct(list) && Ordered(spans, list);
    DistinctCount(list, ChildSet(spans, id));
    forall i | 0 <= i < |list|
      ensures ParentOf(spans, index, list[i])
    {
      assert list[i] in ListOf(children, id);
    }
    forall c: nat | ParentOf(spans, index, c)
      ensures c in list
    {
      assert c in ChildSet(spans, id);
    }
  }

  ghost predicate IsIndex(spans: seq<Span>, spanIndex: map<string, nat>) {
    forall id :: id in spanIndex <==> HasId(spans, id)
  }

  lemma OrphanLookup(spans: seq<Span>, spanIndex: map<string, nat>, i: nat)
    requires i < |spans| && IsIndex(spans, spanIndex)
    ensures Orphaned(spans, i) <==> spans[i].parentSpanId.Some? && spans[i].parentSpanId.value !in spanIndex
  {
  }

  // ------------------------------------------------------------------- the walk

  /** The walk's mutable state: `visited` and `rows`. */
  class Walk {
    var visited: set<nat>
    var rows: seq<SpanTreeRow>
    ghost var order: seq<nat>

    constructor ()
      ensures Shown() == Snapshot({}, [], [])
    {
      visited, rows, order := {}, [], [];
    }

    ghost function Shown(): Snapshot
      reads this
    {
      Snapshot(visited, rows, order)
    }

    /** The state right after a row was pushed. */
    lemma ShownAfterRow(s: Snapshot, spans: seq<Span>, index: nat, depth: nat)
      requires index < |spans|
      requires visited == s.visited + {index} && order == s.order + [index]
      requires rows == s.rows + [SpanTreeRow(spans[index], depth, |ChildSet(spans, spans[index].spanId)|,
                                             Orphaned(spans, index))]
      ensures Shown() == WithRow(spans, s, index, depth)
    {
    }

    /** `push_span_tree_row`; `at` is the row of the parent under which it lists. */
    method PushSpanTreeRow(index: nat, depth: nat, spans: seq<Span>, children: map<string, seq<nat>>,
                           spanIndex: map<string, nat>, ghost at: nat, ghost open: set<nat>)
      requires index < |spans|
      requires ChildLists(spans, children) && IsIndex(spans, spanIndex)
      requires Enterable(spans, Shown(), open, at, index, depth)
      modifies this
      ensures Listed(spans, old(Shown()), Shown(), open, index, depth)
      decreases Unvisited(spans, visited)
    {
      hide Listing, Listed, Enterable, ChildLists, IsIndex, WithRow, ChildSet, Orphaned, ParentOf, Before, Unvisited;
      ghost var s := Shown();
      if index in visited {
        AlreadyListed(spans, s, open, at, index, depth);
        return;
      }
      visited := visited + {index};
      var span := spans[index];
      var childIndexes := ListOf(children, span.spanId);
      LookedUp(spans, children, index, childIndexes);
      OrphanLookup(spans, spanIndex, index);
      var orphaned := span.parentSpanId.Some? && span.parentSpanId.value !in spanIndex;
      rows := rows + [SpanTreeRow(span, depth, |childIndexes|, orphaned)];
      order := order + [index];
      Enter(spans, s, open, at, index, depth);
      ShownAfterRow(s, spans, index, depth);

      ghost var done: set<nat> := {};
      for c := 0 to |childIndexes|
        invariant Listing(spans, s, Shown(), open, index, depth, done)
        invariant forall x :: x in done <==> x in childIndexes[..c]
      {
        var child := childIndexes[c];
        ghost var s' := Shown();
        ListingShrinks(spans, s, s', open, index, depth, done);
        ChildEnterable(spans, s, s', open, index, depth, done, child);
        PushSpanTreeRow(child, depth + 1, spans, children, spanIndex, |s.rows|, open + {index});
        ChildListed(spans, s, s', Shown(), open, index, depth, done, child);
        done := done + {child};
      }
      Leave(spans, s, Shown(), open, index, depth, done);
    }
  }

  // ------------------------------------------------------------ setting up

  function SiblingOrder(spans: seq<Span>): (nat, nat) -> bool {
    (i: nat, j: nat) => Before(spans, i, j)
  }

  lemma SiblingOrderIsTotal(spans: seq<Span>)
    ensures TotalOrder(SiblingOrder(spans))
  {
    hide LexLe;
    LexIsTotalOrder();
    assert forall a, b :: LexLe(a, b) || LexLe(b, a);
    assert forall a, b :: LexLe(a, b) && LexLe(b, a) ==> a == b;
    assert forall a, b, c :: LexLe(a, b) && LexLe(b, c) ==> LexLe(a, c);
  }

  /** Sorting a list of spans keeps its members and puts them in sibling order. */
  lemma SortSpans(spans: seq<Span>, list: seq<nat>)
    requires Distinct(list)
    ensures var r := Sort(SiblingOrder(spans), list);
            Distinct(r) && Ordered(spans, r) && forall x :: x in r <==> x in list
  {
    SiblingOrderIsTotal(spans);
    SortSorted(SiblingOrder(spans), list);
    SortDistinct(SiblingOrder(spans), list);
    SortMembers(SiblingOrder(spans), list);
    var r := Sort(SiblingOrder(spans), list);
    forall i, j | 0 <= i < j < |r|
      ensures Before(spans, r[i], r[j])
    {
      assert SiblingOrder(spans)(r[i], r[j]);
    }
  }

  /** Span ids to indices; only membership is used. */
  method IndexSpans(spans: seq<Span>) returns (spanIndex: map<string, nat>)
    ensures IsIndex(spans, spanIndex)
  {
    spanIndex := map[];
    for i := 0 to |spans|
      invariant forall id :: id in spanIndex <==> exists j :: 0 <= j < i && spans[j].spanId == id
    {
      spanIndex := spanIndex[spans[i].spanId := i];
    }
  }

  /** Before sorting: of the first `n` spans, every non-root is under its
      parent's id and every root in `roots`. */
  ghost predicate Grouped(spans: seq<Span>, children: map<string, seq<nat>>, roots: seq<nat>, n: nat) {
    && n <= |spans|
    && Distinct(roots)
    && (forall c :: c in roots <==> 0 <= c < n && IsRoot(spans, c))
    && (forall id :: Distinct(ListOf(children, id)))
    && (forall id, c :: c in ListOf(children, id) <==> c in ChildSet(spans, id) && c < n && HasId(spans, id))
  }

  lemma DistinctSnoc(list: seq<nat>, n: nat)
    requires Distinct(list) && n !in list
    ensures Distinct(list + [n])
  {
  }

  lemma GroupedStep(spans: seq<Span>, children: map<string, seq<nat>>, roots: seq<nat>, n: nat)
    requires n < |spans| && Grouped(spans, children, roots, n)
    ensures IsRoot(spans, n) ==> Grouped(spans, children, roots + [n], n + 1)
    ensures !IsRoot(spans, n) ==>
              var id := spans[n].parentSpanId.value;
              Grouped(spans, children[id := ListOf(children, id) + [n]], roots, n + 1)
  {
    hide HasId, Distinct;
    if IsRoot(spans, n) {
      DistinctSnoc(roots, n);
    } else {
      var id := spans[n].parentSpanId.value;
      var children' := children[id := ListOf(children, id) + [n]];
      assert n !in ListOf(children, id);
      DistinctSnoc(ListOf(children, id), n);
      forall id'
        ensures Distinct(ListOf(children', id'))
      {
        assert Distinct(ListOf(children, id'));
        assert id' != id ==> ListOf(children', id') == ListOf(children, id');
      }
      forall id', c
        ensures c in ListOf(children', id') <==> c in ChildSet(spans, id') && c < n + 1 && HasId(spans, id')
      {
        assert c in ListOf(children, id') <==> c in ChildSet(spans, id') && c < n && HasId(spans, id');
        if id' == id {
          assert ListOf(children', id') == ListOf(children, id) + [n];
          assert c == n ==> c in ChildSet(spans, id') && HasId(spans, id');
        } else {
          assert ListOf(children', id') == ListOf(children, id');
          assert n !in ChildSet(spans, id');
        }
      }
      assert forall c :: c in roots <==> 0 <= c < n + 1 && IsRoot(spans, c);
    }
  }

  method GroupSpans(spans: seq<Span>, spanIndex: map<string, nat>)
      returns (children: map<string, seq<nat>>, roots: seq<nat>)
    requires IsIndex(spans, spanIndex)
    ensures Grouped(spans, children, roots, |spans|)
  {
    hide Grouped;
    children, roots := map[], [];
    GroupedNothing(spans);
    for index := 0 to |spans|
      invariant Grouped(spans, children, roots, index)
    {
      GroupedStep(spans, children, roots, index);
      var parent := spans[index].parentSpanId;
      if parent.Some? && parent.value in spanIndex {
        children := children[parent.value := ListOf(children, parent.value) + [index]];
      } else {
        roots := roots + [index];
      }
    }
  }

  lemma GroupedNothing(spans: seq<Span>)
    ensures Grouped(spans, map[], [], 0)
  {
  }

  function SortAll(spans: seq<Span>, children: map<string, seq<nat>>): map<string, seq<nat>> {
    map id | id in children :: Sort(SiblingOrder(spans), children[id])
  }

  lemma SortedAreChildLists(spans: seq<Span>, children: map<string, seq<nat>>, roots: seq<nat>)
    requires Grouped(spans, children, roots, |spans|)
    ensures ChildLists(spans, SortAll(spans, children))
  {
    hide Before, Ordered, Sort, Distinct;
    var sorted := SortAll(spans, children);
    forall id
      ensures Distinct(ListOf(sorted, id)) && Ordered(spans, ListOf(sorted, id))
      ensures forall x :: x in ListOf(sorted, id) <==> x in ListOf(children, id)
    {
      assert Distinct(ListOf(children, id));
      SortSpans(spans, ListOf(children, id));
      SortNothing(spans);
    }
  }

  lemma SortNothing(spans: seq<Span>)
    ensures Sort(SiblingOrder(spans), []) == []
  {
  }

  // ------------------------------------------------------------ the two phases

  ghost predicate RootPhase(spans: seq<Span>, s: Snapshot, roots: seq<nat>, r: nat) {
    && r <= |roots|
    && Valid(spans, s)
    && Closed(spans, s.visited, {})
    && (forall i :: 0 <= i < r ==> roots[i] in s.visited)
    && (forall k :: 0 <= k < |s.rows| && s.rows[k].depth == 0 ==> s.order[k] in roots[..r])
    && TopLevelOrdered(spans, s.rows, s.order)
  }

  ghost predicate RootList(spans: seq<Span>, roots: seq<nat>) {
    Ordered(spans, roots) && forall i :: i in roots <==> 0 <= i < |spans| && IsRoot(spans, i)
  }

  /** The top-level rows after a root was listed: those before it, and its own. */
  lemma TopAfterRoot(spans: seq<Span>, s: Snapshot, s': Snapshot, roots: seq<nat>, r: nat, k: nat)
    requires r < |roots| && RootPhase(spans, s, roots, r) && Listed(spans, s, s', {}, roots[r], 0)
    requires roots[r] !in s.visited && k < |s'.rows| && s'.rows[k].depth == 0 && |s'.rows| == |s'.order|
    ensures if k < |s.rows|
            then k < |s.order| && s.rows[k] == s'.rows[k] && s.order[k] == s'.order[k] && s'.order[k] in roots[..r]
            else k == |s.rows| && s'.order[k] == roots[r]
  {
    hide Valid, Closed, TopLevelOrdered;
    assert |s.rows| == |s.order|;
  }

  lemma RootsOrderTop(spans: seq<Span>, s: Snapshot, s': Snapshot, roots: seq<nat>, r: nat)
    requires RootList(spans, roots) && r < |roots| && roots[r] !in s.visited
    requires RootPhase(spans, s, roots, r) && Listed(spans, s, s', {}, roots[r], 0)
    ensures TopLevelOrdered(spans, s'.rows, s'.order)
  {
    hide Before, Nested, SiblingsOrdered, Listed, Lists, RootPhase, Closed, IsRoot;
    ListedLists(spans, s, s', roots[r]);
    TopBefore(spans, s, roots, r);
    forall a, b | 0 <= a < b < |s'.rows| && s'.rows[a].depth == s'.rows[b].depth == 0
      ensures if IsRoot(spans, s'.order[b])
              then IsRoot(spans, s'.order[a]) && Before(spans, s'.order[a], s'.order[b])
              else IsRoot(spans, s'.order[a]) || s'.order[a] < s'.order[b]
    {
      TopAfterRoot(spans, s, s', roots, r, a);
      TopAfterRoot(spans, s, s', roots, r, b);
      if b == |s.rows| {
        var i :| 0 <= i < r && roots[..r][i] == s'.order[a];
        assert roots[i] in roots && roots[r] in roots;
      }
    }
  }

  lemma ListedLists(spans: seq<Span>, s: Snapshot, s': Snapshot, index: nat)
    requires Listed(spans, s, s', {}, index, 0)
    ensures Lists(spans, s'.rows, s'.order) && |s'.rows| == |s'.order|
    ensures forall k :: 0 <= k < |s'.order| ==> s'.order[k] < |spans|
  {
    hide Nested, SiblingsOrdered, Closed, RowOf, Distinct;
  }

  lemma TopBefore(spans: seq<Span>, s: Snapshot, roots: seq<nat>, r: nat)
    requires RootPhase(spans, s, roots, r)
    ensures TopLevelOrdered(spans, s.rows, s.order)
  {
    hide TopLevelOrdered, Closed, Valid;
  }

  lemma RootStep(spans: seq<Span>, s: Snapshot, s': Snapshot, roots: seq<nat>, r: nat)
    requires RootList(spans, roots) && r < |roots|
    requires RootPhase(spans, s, roots, r) && Listed(spans, s, s', {}, roots[r], 0)
    ensures RootPhase(spans, s', roots, r + 1)
  {
    hide Before, Nested, SiblingsOrdered, RootList, TopLevelOrdered, Closed, Valid;
    assert roots[..r + 1] == roots[..r] + [roots[r]];
    if roots[r] !in s.visited {
      ListedLists(spans, s, s', roots[r]);
      RootsOrderTop(spans, s, s', roots, r);
      forall k | 0 <= k < |s'.rows| && s'.rows[k].depth == 0
        ensures s'.order[k] in roots[..r + 1]
      {
        TopAfterRoot(spans, s, s', roots, r, k);
      }
    }
  }

  ghost predicate RestPhase(spans: seq<Span>, s: Snapshot, n: nat) {
    && n <= |spans|
    && Valid(spans, s)
    && Closed(spans, s.visited, {})
    && (forall i :: 0 <= i < |spans| && (i < n || IsRoot(spans, i)) ==> i in s.visited)
    && TopLevelOrdered(spans, s.rows, s.order)
    && (forall k :: 0 <= k < |s.rows| && s.rows[k].depth == 0 && !IsRoot(spans, s.order[k]) ==>
          s.order[k] < n && !Reached(spans, s.order[k]))
  }

  lemma RootsDone(spans: seq<Span>, s: Snapshot, roots: seq<nat>)
    requires RootList(spans, roots) && RootPhase(spans, s, roots, |roots|)
    ensures RestPhase(spans, s, 0)
  {
    hide Before, Nested, SiblingsOrdered, Reached;
    assert roots[..|roots|] == roots;
    forall i | 0 <= i < |spans| && IsRoot(spans, i)
      ensures i in s.visited
    {
      assert i in roots;
    }
  }

  lemma {:induction false} PathVisited(spans: seq<Span>, visited: set<nat>, path: seq<nat>)
    requires Closed(spans, visited, {}) && RootPath(spans, path)
    requires forall i :: 0 <= i < |spans| && IsRoot(spans, i) ==> i in visited
    ensures path[|path| - 1] in visited
  {
    if |path| > 1 {
      PathVisited(spans, visited, path[..|path| - 1]);
      assert ParentOf(spans, path[|path| - 2], path[|path| - 1]);
    }
  }

  lemma RestStep(spans: seq<Span>, s: Snapshot, s': Snapshot, n: nat)
    requires RestPhase(spans, s, n) && n < |spans|
    requires if n in s.visited then s' == s else Listed(spans, s, s', {}, n, 0)
    ensures RestPhase(spans, s', n + 1)
  {
    hide Before, Nested, SiblingsOrdered, Reached;
    if n !in s.visited {
      NotReached(spans, s.visited, n);
      forall k | 0 <= k < |s'.rows| && s'.rows[k].depth == 0
        ensures k < |s.rows| ==> s.rows[k] == s'.rows[k] && s.order[k] == s'.order[k]
        ensures k >= |s.rows| ==> k == |s.rows| && s'.order[k] == n
      {
      }
    }
  }

  lemma NotReached(spans: seq<Span>, visited: set<nat>, n: nat)
    requires Closed(spans, visited, {}) && n !in visited
    requires forall i :: 0 <= i < |spans| && IsRoot(spans, i) ==> i in visited
    ensures !Reached(spans, n)
  {
    forall path | RootPath(spans, path)
      ensures path[|path| - 1] != n
    {
      PathVisited(spans, visited, path);
    }
  }

  lemma AllDone(spans: seq<Span>, s: Snapshot)
    requires RestPhase(spans, s, |spans|)
    ensures IsFlattening(spans, s.rows, s.order)
  {
    hide Before, Nested, SiblingsOrdered, TopLevelOrdered, Closed, Reached;
    forall i | 0 <= i < |spans|
      ensures i in s.order
    {
      assert i in s.visited;
    }
  }

  /** `span_tree_rows`: for every trace, cyclic or not, a complete flattening. */
  method SpanTreeRows(spans: seq<Span>) returns (rows: seq<SpanTreeRow>)
    ensures exists order :: IsFlattening(spans, rows, order)
  {
    hide Grouped, ChildLists, IsIndex, RootPhase, RestPhase, Listed, Enterable, RootList, IsFlattening, SortAll, Sort,
      Unvisited;
    var spanIndex := IndexSpans(spans);
    var children, roots := GroupSpans(spans, spanIndex);
    SortedAreChildLists(spans, children, roots);
    RootsAreSorted(spans, children, roots);
    children := SortAll(spans, children);
    roots := Sort(SiblingOrder(spans), roots);

    var walk := new Walk();
    NothingListed(spans, roots);
    for r := 0 to |roots|
      invariant RootPhase(spans, walk.Shown(), roots, r)
    {
      ghost var s := walk.Shown();
      RootEnterable(spans, s, roots, r);
      walk.PushSpanTreeRow(roots[r], 0, spans, children, spanIndex, 0, {});
      RootStep(spans, s, walk.Shown(), roots, r);
    }
    RootsDone(spans, walk.Shown(), roots);
    for index := 0 to |spans|
      invariant RestPhase(spans, walk.Shown(), index)
    {
      ghost var s := walk.Shown();
      RestEnterable(spans, s, index);
      if index !in walk.visited {
        walk.PushSpanTreeRow(index, 0, spans, children, spanIndex, 0, {});
      }
      RestStep(spans, s, walk.Shown(), index);
    }
    AllDone(spans, walk.Shown());
    rows := walk.rows;
    assert IsFlattening(spans, rows, walk.order);
  }

  lemma RootsAreSorted(spans: seq<Span>, children: map<string, seq<nat>>, roots: seq<nat>)
    requires Grouped(spans, children, roots, |spans|)
    ensures RootList(spans, Sort(SiblingOrder(spans), roots))
  {
    hide Before, Sort;
    SortSpans(spans, roots);
  }

  lemma NothingListed(spans: seq<Span>, roots: seq<nat>)
    ensures RootPhase(spans, Snapshot({}, [], []), roots, 0)
  {
  }

  lemma RootEnterable(spans: seq<Span>, s: Snapshot, roots: seq<nat>, r: nat)
    requires RootPhase(spans, s, roots, r) && RootList(spans, roots) && r < |roots|
    ensures roots[r] < |spans| && Enterable(spans, s, {}, 0, roots[r], 0)
  {
    assert roots[r] in roots;
  }

  lemma RestEnterable(spans: seq<Span>, s: Snapshot, index: nat)
    requires RestPhase(spans, s, index) && index < |spans|
    ensures Enterable(spans, s, {}, 0, index, 0)
  {
  }

  // ------------------------------------------------------------ what it means

  ghost predicate UniqueIds(spans: seq<Span>) {
    forall i, j :: 0 <= i < |spans| && 0 <= j < |spans| && spans[i].spanId == spans[j].spanId ==> i == j
  }

  lemma NotFirstOnPath(spans: seq<Span>, path: seq<nat>)
    requires RootPath(spans, path) && |path| > 1
    ensures path[|path| - 1] < |spans| && !IsRoot(spans, path[|path| - 1])
  {
    assert ParentOf(spans, path[|path| - 2], path[|path| - 1]);
    assert HasId(spans, spans[path[|path| - 2]].spanId);
  }

  /** With unique ids, a span reached from a root stands at the depth of its
      path, whatever cycles the rest of the trace holds. */
  lemma {:induction false} DepthIsPathLength(spans: seq<Span>, rows: seq<SpanTreeRow>, order: seq<nat>,
                                             path: seq<nat>, k: nat)
    requires UniqueIds(spans) && IsFlattening(spans, rows, order) && RootPath(spans, path)
    requires k < |rows| && order[k] == path[|path| - 1]
    ensures rows[k].depth == |path| - 1
    decreases |path|
  {
    hide Before, SiblingsOrdered, TopLevelOrdered, RowOf, Distinct;
    assert Reached(spans, order[k]);
    if rows[k].depth > 0 {
      var j: nat :| ParentRow(spans, rows, order, j, k);
      assert HasId(spans, spans[order[j]].spanId);
      assert |path| > 1;
      assert ParentOf(spans, path[|path| - 2], path[|path| - 1]);
      assert order[j] == path[|path| - 2];
      DepthIsPathLength(spans, rows, order, path[..|path| - 1], j);
    } else if |path| > 1 {
      NotFirstOnPath(spans, path);
      assert false;
    }
  }

  /** Each span on it is a parent of the next. */
  ghost predicate ParentChain(spans: seq<Span>, path: seq<nat>) {
    path != [] && forall k :: 0 < k < |path| ==> ParentOf(spans, path[k - 1], path[k])
  }

  /** Parent pointers lead from `i` to `j`, in one step or more. */
  ghost predicate Above(spans: seq<Span>, j: nat, i: nat) {
    exists path :: ParentChain(spans, path) && |path| > 1 && path[0] == j && path[|path| - 1] == i
  }

  /** Neither `i` nor a span above it is on a parent cycle. */
  ghost predicate NoCycleAbove(spans: seq<Span>, i: nat) {
    !Above(spans, i, i) && forall j :: Above(spans, j, i) ==> !Above(spans, j, j)
  }

  ghost function Ancestors(spans: seq<Span>, i: nat): set<nat> {
    set j: nat | j < |spans| && Above(spans, j, i)
  }

  lemma OneUp(spans: seq<Span>, p: nat, i: nat)
    requires ParentOf(spans, p, i)
    ensures Above(spans, p, i)
    ensures forall j :: Above(spans, j, p) ==> Above(spans, j, i)
  {
    hide ParentOf;
    assert ParentChain(spans, [p, i]);
    forall j | Above(spans, j, p)
      ensures Above(spans, j, i)
    {
      var path :| ParentChain(spans, path) && |path| > 1 && path[0] == j && path[|path| - 1] == p;
      var longer := path + [i];
      assert ParentChain(spans, longer) && longer[0] == j && longer[|longer| - 1] == i;
    }
  }

  lemma FirstUp(spans: seq<Span>, j: nat, i: nat) returns (p: nat)
    requires Above(spans, j, i)
    ensures ParentOf(spans, p, i) && (p == j || Above(spans, j, p))
  {
    hide ParentOf;
    var path :| ParentChain(spans, path) && |path| > 1 && path[0] == j && path[|path| - 1] == i;
    p := path[|path| - 2];
    if |path| > 2 {
      var shorter := path[..|path| - 1];
      assert ParentChain(spans, shorter) && shorter[0] == j && shorter[|shorter| - 1] == p;
    }
  }

  lemma FewerAbove(spans: seq<Span>, p: nat, i: nat)
    requires ParentOf(spans, p, i) && NoCycleAbove(spans, i)
    ensures NoCycleAbove(spans, p) && p !in Ancestors(spans, p)
    ensures Ancestors(spans, p) + {p} <= Ancestors(spans, i) && |Ancestors(spans, p)| < |Ancestors(spans, i)|
    ensures UniqueIds(spans) ==> Ancestors(spans, i) == Ancestors(spans, p) + {p}
  {
    hide Above;
    OneUp(spans, p, i);
    if UniqueIds(spans) {
      forall j | Above(spans, j, i)
        ensures j == p || Above(spans, j, p)
      {
        var q := FirstUp(spans, j, i);
        assert q == p;
      }
    }
    FewerInSubset(Ancestors(spans, p), Ancestors(spans, i), p);
  }

  lemma FewerInSubset(a: set<nat>, b: set<nat>, x: nat)
    requires a + {x} <= b && x !in a
    ensures |a| < |b|
  {
    var more := b - (a + {x});
    assert b == a + {x} + more && a + {x} !! more;
  }

  lemma RootHasNoParent(spans: seq<Span>, i: nat, p: nat)
    requires i < |spans| && IsRoot(spans, i)
    ensures !ParentOf(spans, p, i)
  {
    assert p < |spans| ==> HasId(spans, spans[p].spanId);
  }

  lemma SomeParent(spans: seq<Span>, i: nat) returns (p: nat)
    requires i < |spans| && !IsRoot(spans, i)
    ensures ParentOf(spans, p, i)
  {
    p :| p < |spans| && spans[p].spanId == spans[i].parentSpanId.value;
  }

  /** A span with no parent cycle at or above it is reached from a root. */
  lemma {:induction false} AcyclicReached(spans: seq<Span>, i: nat)
    requires NoCycleAbove(spans, i) && i < |spans|
    ensures Reached(spans, i)
    decreases |Ancestors(spans, i)|
  {
    hide NoCycleAbove, Ancestors;
    if IsRoot(spans, i) {
      assert RootPath(spans, [i]);
    } else {
      var p := SomeParent(spans, i);
      FewerAbove(spans, p, i);
      AcyclicReached(spans, p);
      var path :| RootPath(spans, path) && path[|path| - 1] == p;
      var longer := path + [i];
      forall k | 0 < k < |longer|
        ensures ParentOf(spans, longer[k - 1], longer[k])
      {
        assert k < |path| ==> longer[k] == path[k];
        assert longer[k - 1] == path[k - 1];
      }
      assert RootPath(spans, longer) && longer[|longer| - 1] == i;
    }
  }

  /** With unique ids a root path ends in every chain to its last span. */
  lemma {:induction false} ChainOnPath(spans: seq<Span>, path: seq<nat>, chain: seq<nat>)
    requires UniqueIds(spans) && RootPath(spans, path) && ParentChain(spans, chain)
    requires chain[|chain| - 1] == path[|path| - 1]
    ensures |chain| <= |path| && path[|path| - |chain|] == chain[0]
    decreases |path|
  {
    if |chain| > 1 {
      var p := chain[|chain| - 2];
      assert ParentOf(spans, p, chain[|chain| - 1]);
      if |path| == 1 {
        RootHasNoParent(spans, path[0], p);
      } else {
        assert ParentOf(spans, path[|path| - 2], path[|path| - 1]);
        ChainOnPath(spans, path[..|path| - 1], chain[..|chain| - 1]);
      }
    }
  }

  lemma {:induction false} NoCycleOnPath(spans: seq<Span>, path: seq<nat>)
    requires UniqueIds(spans) && RootPath(spans, path)
    ensures !Above(spans, path[|path| - 1], path[|path| - 1])
    decreases |path|
  {
    hide ParentOf, UniqueIds, IsRoot;
    var i := path[|path| - 1];
    if Above(spans, i, i) {
      var chain :| ParentChain(spans, chain) && |chain| > 1 && chain[0] == i && chain[|chain| - 1] == i;
      ChainOnPath(spans, path, chain);
      NoCycleOnPath(spans, path[..|path| - |chain| + 1]);
    }
  }

  /** With unique ids exactly the spans with no parent cycle at or above them are
      reached from a root; the others come from the second loop. */
  lemma ReachedIff(spans: seq<Span>, i: nat)
    requires UniqueIds(spans) && i < |spans|
    ensures Reached(spans, i) <==> NoCycleAbove(spans, i)
  {
    hide ParentOf, UniqueIds, IsRoot;
    if Reached(spans, i) {
      var path :| RootPath(spans, path) && path[|path| - 1] == i;
      NoCycleOnPath(spans, path);
      forall j | Above(spans, j, i)
        ensures !Above(spans, j, j)
      {
        var chain :| ParentChain(spans, chain) && |chain| > 1 && chain[0] == j && chain[|chain| - 1] == i;
        ChainOnPath(spans, path, chain);
        NoCycleOnPath(spans, path[..|path| - |chain| + 1]);
      }
    }
    if NoCycleAbove(spans, i) {
      AcyclicReached(spans, i);
    }
  }

  /** With unique ids and no cycle above the span, depth counts its ancestors. */
  lemma {:induction false} DepthCountsAncestors(spans: seq<Span>, rows: seq<SpanTreeRow>, order: seq<nat>, k: nat)
    requires UniqueIds(spans) && IsFlattening(spans, rows, order) && k < |rows| && NoCycleAbove(spans, order[k])
    ensures rows[k].depth == |Ancestors(spans, order[k])|
    decreases k
  {
    hide Before, SiblingsOrdered, TopLevelOrdered, RowOf, Distinct, NoCycleAbove, Ancestors, UniqueIds;
    AcyclicReached(spans, order[k]);
    if rows[k].depth > 0 {
      var j: nat :| ParentRow(spans, rows, order, j, k);
      FewerAbove(spans, order[j], order[k]);
      DepthCountsAncestors(spans, rows, order, j);
    } else {
      NoneAboveRoot(spans, order[k]);
    }
  }

  lemma NoneAboveRoot(spans: seq<Span>, i: nat)
    requires i < |spans| && IsRoot(spans, i)
    ensures Ancestors(spans, i) == {}
  {
    hide Above;
    if j: nat :| Above(spans, j, i) {
      var p := FirstUp(spans, j, i);
      RootHasNoParent(spans, i, p);
    }
  }

  /** Only rows on or below a parent cycle come from the second loop. */
  lemma TopLevelRows(spans: seq<Span>, rows: seq<SpanTreeRow>, order: seq<nat>, k: nat)
    requires IsFlattening(spans, rows, order) && k < |rows|
    ensures IsRoot(spans, order[k]) ==> rows[k].depth == 0
    ensures Reached(spans, order[k]) ==> (rows[k].depth == 0 <==> IsRoot(spans, order[k]))
    ensures NoCycleAbove(spans, order[k]) ==> (rows[k].depth == 0 <==> IsRoot(spans, order[k]))
  {
    hide Before, SiblingsOrdered, TopLevelOrdered, RowOf, Distinct, NoCycleAbove;
    if NoCycleAbove(spans, order[k]) {
      AcyclicReached(spans, order[k]);
    }
    if rows[k].depth > 0 {
      var j: nat :| ParentRow(spans, rows, order, j, k);
      assert HasId(spans, spans[order[j]].spanId);
    }
  }
}
