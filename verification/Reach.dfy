/** Reachability in finite directed graphs, counted by steps, and the invariant
    shared by every bounded breadth-first walk of the repository. A graph is a
    finite map from a node to its successors; a node outside the map has none. */
module Reach {

  type Graph<T> = map<T, set<T>>

  function Succ<T>(g: Graph<T>, x: T): set<T> {
    if x in g then g[x] else {}
  }

  /** `b` lies exactly `n` steps from `a`. */
  ghost predicate ReachIn<T(!new)>(g: Graph<T>, a: T, b: T, n: nat)
    decreases n
  {
    if n == 0 then a == b
    else exists m :: ReachIn(g, a, m, n - 1) && b in Succ(g, m)
  }

  ghost predicate Reaches<T(!new)>(g: Graph<T>, a: T, b: T) {
    exists n: nat :: ReachIn(g, a, b, n)
  }

  /** `d` is the least number of steps from `a` to `b`. */
  ghost predicate IsDist<T(!new)>(g: Graph<T>, a: T, b: T, d: nat) {
    && ReachIn(g, a, b, d)
    && forall k: nat :: k < d ==> !ReachIn(g, a, b, k)
  }

  ghost predicate Closed<T>(g: Graph<T>, s: set<T>) {
    forall x :: x in s ==> Succ(g, x) <= s
  }

  /** No node can step to something that leads back to it. */
  ghost predicate Acyclic<T(!new)>(g: Graph<T>) {
    forall a, b :: b in Succ(g, a) ==> !Reaches(g, b, a)
  }

  lemma ReachRefl<T(!new)>(g: Graph<T>, a: T)
    ensures Reaches(g, a, a)
  {
    assert ReachIn(g, a, a, 0);
  }

  lemma ReachStep<T(!new)>(g: Graph<T>, a: T, b: T, c: T)
    requires Reaches(g, a, b) && c in Succ(g, b)
    ensures Reaches(g, a, c)
  {
    var n: nat :| ReachIn(g, a, b, n);
    assert ReachIn(g, a, c, n + 1);
  }

  lemma {:induction false} ReachInTrans<T(!new)>(g: Graph<T>, a: T, b: T, c: T, m: nat, n: nat)
    requires ReachIn(g, a, b, m) && ReachIn(g, b, c, n)
    ensures ReachIn(g, a, c, m + n)
    decreases n
  {
    if n > 0 {
      var x :| ReachIn(g, b, x, n - 1) && c in Succ(g, x);
      ReachInTrans(g, a, b, x, m, n - 1);
      assert ReachIn(g, a, x, m + n - 1);
    }
  }

  lemma ReachTrans<T(!new)>(g: Graph<T>, a: T, b: T, c: T)
    requires Reaches(g, a, b) && Reaches(g, b, c)
    ensures Reaches(g, a, c)
  {
    var m: nat :| ReachIn(g, a, b, m);
    var n: nat :| ReachIn(g, b, c, n);
    ReachInTrans(g, a, b, c, m, n);
  }

  /** The first step can be peeled off as well as the last one. */
  lemma {:induction false} ReachInHead<T(!new)>(g: Graph<T>, a: T, b: T, n: nat) returns (m: T)
    requires n > 0 && ReachIn(g, a, b, n)
    ensures m in Succ(g, a) && ReachIn(g, m, b, n - 1)
    decreases n
  {
    var x :| ReachIn(g, a, x, n - 1) && b in Succ(g, x);
    if n == 1 {
      m := b;
    } else {
      m := ReachInHead(g, a, x, n - 1);
      assert ReachIn(g, m, x, n - 2) && b in Succ(g, x);
    }
  }

  lemma {:induction false} ClosedIn<T(!new)>(g: Graph<T>, s: set<T>, a: T, b: T, n: nat)
    requires Closed(g, s) && a in s && ReachIn(g, a, b, n)
    ensures b in s
    decreases n
  {
    if n > 0 {
      var m :| ReachIn(g, a, m, n - 1) && b in Succ(g, m);
      ClosedIn(g, s, a, m, n - 1);
    }
  }

  /** A closed set holds everything reachable from its members. */
  lemma ReachClosed<T(!new)>(g: Graph<T>, s: set<T>, a: T)
    requires Closed(g, s) && a in s
    ensures forall b :: Reaches(g, a, b) ==> b in s
  {
    forall b | Reaches(g, a, b) ensures b in s {
      var n: nat :| ReachIn(g, a, b, n);
      ClosedIn(g, s, a, b, n);
    }
  }

  lemma {:induction false} ReachInMono<T(!new)>(g: Graph<T>, g': Graph<T>, a: T, b: T, n: nat)
    requires forall x :: x in g ==> g[x] <= Succ(g', x)
    requires ReachIn(g, a, b, n)
    ensures ReachIn(g', a, b, n)
    decreases n
  {
    if n > 0 {
      var m :| ReachIn(g, a, m, n - 1) && b in Succ(g, m);
      ReachInMono(g, g', a, m, n - 1);
    }
  }

  /** More edges reach no less. */
  lemma ReachMono<T(!new)>(g: Graph<T>, g': Graph<T>, a: T, b: T)
    requires forall x :: x in g ==> g[x] <= Succ(g', x)
    requires Reaches(g, a, b)
    ensures Reaches(g', a, b)
  {
    var n: nat :| ReachIn(g, a, b, n);
    ReachInMono(g, g', a, b, n);
  }

  lemma AcyclicAntisym<T(!new)>(g: Graph<T>, a: T, b: T)
    requires Acyclic(g) && Reaches(g, a, b) && Reaches(g, b, a)
    ensures a == b
  {
    var n: nat :| ReachIn(g, a, b, n);
    if n > 0 {
      var m := ReachInHead(g, a, b, n);
      assert Reaches(g, m, b);
      ReachTrans(g, m, b, a);
    }
  }

  // ----------------------------------------------------------------------
  // Bounded breadth-first search
  // ----------------------------------------------------------------------

  /** What a walk has discovered: nodes with their depths, in order. */
  type Found<T> = seq<(T, nat)>

  ghost function Seen<T>(b: Found<T>): set<T> {
    set k | 0 <= k < |b| :: b[k].0
  }

  /** `n` was discovered at depth `d` or less. */
  ghost predicate FoundBy<T>(b: Found<T>, n: T, d: nat) {
    exists k :: 0 <= k < |b| && b[k].0 == n && b[k].1 <= d
  }

  /** The first `i` discoveries have been expanded, and `done` holds the
      successors of the next one dealt with so far. */
  ghost predicate BfsInv<T(!new)>(g: Graph<T>, root: T, hops: nat, b: Found<T>, i: nat, done: set<T>) {
    && 0 < |b| && i <= |b| && b[0] == (root, 0)
    && (forall k, l :: 0 <= k < l < |b| ==> b[k].0 != b[l].0 && b[k].1 <= b[l].1)
    && (forall k :: 0 <= k < |b| ==> b[k].1 <= hops && ReachIn(g, root, b[k].0, b[k].1))
    && (i < |b| ==> forall k :: 0 <= k < |b| ==> b[k].1 <= b[i].1 + 1)
    && (forall j, n :: 0 <= j < i && b[j].1 < hops && n in Succ(g, b[j].0) ==> FoundBy(b, n, b[j].1 + 1))
    && (i < |b| ==> forall n :: n in done ==> FoundBy(b, n, b[i].1 + 1))
  }

  lemma BfsInit<T(!new)>(g: Graph<T>, root: T, hops: nat)
    ensures BfsInv(g, root, hops, [(root, 0)], 0, {})
    ensures Seen([(root, 0)]) == {root}
  {
  }

  /** The node about to be expanded lies within the bound. */
  lemma BfsHead<T(!new)>(g: Graph<T>, root: T, hops: nat, b: Found<T>, i: nat, done: set<T>)
    requires BfsInv(g, root, hops, b, i, done) && i < |b|
    ensures b[i].1 <= hops && b[i].0 in Seen(b)
  {
  }

  lemma FoundPush<T>(b: Found<T>, x: (T, nat), m: T, d: nat)
    requires FoundBy(b, m, d)
    ensures FoundBy(b + [x], m, d)
  {
    var k :| 0 <= k < |b| && b[k].0 == m && b[k].1 <= d;
    assert (b + [x])[k] == b[k];
  }

  lemma SeenPush<T>(b: Found<T>, x: (T, nat))
    ensures Seen(b + [x]) == Seen(b) + {x.0}
  {
    var b' := b + [x];
    assert b'[|b|] == x;
    assert forall k :: 0 <= k < |b| ==> b'[k] == b[k];
  }

  /** Discovering a new successor of the node being expanded. */
  lemma BfsPush<T(!new)>(g: Graph<T>, root: T, hops: nat, b: Found<T>, i: nat, done: set<T>, n: T)
    requires BfsInv(g, root, hops, b, i, done) && i < |b| && b[i].1 < hops
    requires n in Succ(g, b[i].0) && n !in Seen(b)
    ensures BfsInv(g, root, hops, b + [(n, b[i].1 + 1)], i, done + {n})
    ensures Seen(b + [(n, b[i].1 + 1)]) == Seen(b) + {n}
  {
    var x := (n, b[i].1 + 1);
    var b' := b + [x];
    SeenPush(b, x);
    assert ReachIn(g, root, n, b[i].1 + 1);
    forall j, m | 0 <= j < i && b'[j].1 < hops && m in Succ(g, b'[j].0)
      ensures FoundBy(b', m, b'[j].1 + 1)
    {
      assert b'[j] == b[j];
      FoundPush(b, x, m, b[j].1 + 1);
    }
    forall m | m in done + {n} ensures FoundBy(b', m, b'[i].1 + 1) {
      if m in done {
        FoundPush(b, x, m, b[i].1 + 1);
      } else {
        assert b'[|b|] == x;
      }
    }
  }

  /** Meeting a successor that is already known. */
  lemma BfsSkip<T(!new)>(g: Graph<T>, root: T, hops: nat, b: Found<T>, i: nat, done: set<T>, n: T)
    requires BfsInv(g, root, hops, b, i, done) && i < |b| && n in Seen(b)
    ensures BfsInv(g, root, hops, b, i, done + {n})
  {
    var k :| 0 <= k < |b| && b[k].0 == n;
    assert FoundBy(b, n, b[i].1 + 1);
  }

  lemma BfsNext<T(!new)>(g: Graph<T>, root: T, hops: nat, b: Found<T>, i: nat, done: set<T>)
    requires BfsInv(g, root, hops, b, i, done) && i < |b|
    requires b[i].1 < hops ==> Succ(g, b[i].0) <= done
    ensures BfsInv(g, root, hops, b, i + 1, {})
  {
  }

  lemma {:induction false} BfsComplete<T(!new)>(g: Graph<T>, root: T, hops: nat, b: Found<T>, n: T, d: nat)
    requires BfsInv(g, root, hops, b, |b|, {})
    requires d <= hops && ReachIn(g, root, n, d)
    ensures FoundBy(b, n, d)
    decreases d
  {
    if d == 0 {
      assert b[0].0 == n;
    } else {
      var m :| ReachIn(g, root, m, d - 1) && n in Succ(g, m);
      BfsComplete(g, root, hops, b, m, d - 1);
      var k :| 0 <= k < |b| && b[k].0 == m && b[k].1 <= d - 1;
      assert FoundBy(b, n, b[k].1 + 1);
    }
  }

  /** Even before the walk is over, whatever is nearer than the next node is found. */
  lemma {:induction false} BfsNearer<T(!new)>(g: Graph<T>, root: T, hops: nat, b: Found<T>, i: nat, n: T, d: nat)
    requires BfsInv(g, root, hops, b, i, {}) && i < |b|
    requires d <= b[i].1 && ReachIn(g, root, n, d)
    ensures FoundBy(b, n, d)
    decreases d
  {
    if d == 0 {
      assert b[0].0 == n;
    } else {
      var m :| ReachIn(g, root, m, d - 1) && n in Succ(g, m);
      BfsNearer(g, root, hops, b, i, m, d - 1);
      var k :| 0 <= k < |b| && b[k].0 == m && b[k].1 <= d - 1;
      assert k < i;
      assert FoundBy(b, n, b[k].1 + 1);
    }
  }

  /** The node about to be expanded was found at its least distance. */
  lemma BfsDist<T(!new)>(g: Graph<T>, root: T, hops: nat, b: Found<T>, i: nat)
    requires BfsInv(g, root, hops, b, i, {}) && i < |b|
    ensures IsDist(g, root, b[i].0, b[i].1)
  {
    forall d: nat | d < b[i].1 ensures !ReachIn(g, root, b[i].0, d) {
      if ReachIn(g, root, b[i].0, d) {
        BfsNearer(g, root, hops, b, i, b[i].0, d);
        assert false;
      }
    }
  }

  ghost predicate Within<T(!new)>(g: Graph<T>, root: T, hops: nat, n: T) {
    exists d: nat :: d <= hops && ReachIn(g, root, n, d)
  }

  /** A finished walk has found exactly the nodes within `hops` steps, each at
      its least distance. */
  lemma BfsDone<T(!new)>(g: Graph<T>, root: T, hops: nat, b: Found<T>)
    requires BfsInv(g, root, hops, b, |b|, {})
    ensures forall k :: 0 <= k < |b| ==> b[k].1 <= hops && IsDist(g, root, b[k].0, b[k].1)
    ensures forall n :: n in Seen(b) <==> Within(g, root, hops, n)
  {
    forall n, d: nat | d <= hops && ReachIn(g, root, n, d) ensures n in Seen(b) && FoundBy(b, n, d) {
      BfsComplete(g, root, hops, b, n, d);
    }
    forall k | 0 <= k < |b| ensures IsDist(g, root, b[k].0, b[k].1) {
      forall d: nat | d < b[k].1 ensures !ReachIn(g, root, b[k].0, d) {
        assert ReachIn(g, root, b[k].0, d) ==> FoundBy(b, b[k].0, d);
      }
    }
  }

  // ----------------------------------------------------------------------
  // Worklist search
  // ----------------------------------------------------------------------

  ghost predicate From<T(!new)>(g: Graph<T>, roots: set<T>, x: T) {
    exists r :: r in roots && Reaches(g, r, x)
  }

  ghost function Elements<T>(s: seq<T>): set<T> {
    set x | x in s
  }

  /** Every node that can turn up in a search. */
  ghost function Universe<T>(g: Graph<T>, roots: set<T>): set<T> {
    roots + set x, y | x in g && y in g[x] :: y
  }

  /** `seen` has been expanded, up to what still waits on the stack. */
  ghost predicate SearchInv<T(!new)>(g: Graph<T>, roots: set<T>, seen: set<T>, stack: seq<T>) {
    && (forall x :: x in seen || x in stack ==> From(g, roots, x) && x in Universe(g, roots))
    && (forall r :: r in roots ==> r in seen || r in stack)
    && (forall x, y :: x in seen && y in Succ(g, x) ==> y in seen || y in stack)
  }

  lemma SearchInit<T(!new)>(g: Graph<T>, roots: seq<T>)
    ensures SearchInv(g, Elements(roots), {}, roots)
  {
    forall x | x in roots ensures From(g, Elements(roots), x) {
      ReachRefl(g, x);
    }
  }

  lemma SearchTop<T(!new)>(g: Graph<T>, roots: set<T>, seen: set<T>, stack: seq<T>)
    requires SearchInv(g, roots, seen, stack) && stack != []
    ensures stack[|stack| - 1] in Universe(g, roots) && From(g, roots, stack[|stack| - 1])
  {
  }

  /** Popping a node that was expanded before. */
  lemma SearchDrop<T(!new)>(g: Graph<T>, roots: set<T>, seen: set<T>, stack: seq<T>)
    requires SearchInv(g, roots, seen, stack) && stack != [] && stack[|stack| - 1] in seen
    ensures SearchInv(g, roots, seen, stack[..|stack| - 1])
  {
    var rest := stack[..|stack| - 1];
    assert forall x :: x in stack ==> x in rest || x == stack[|stack| - 1];
  }

  /** Popping a node and pushing all its successors. */
  lemma SearchExpand<T(!new)>(g: Graph<T>, roots: set<T>, seen: set<T>, stack: seq<T>, next: seq<T>)
    requires SearchInv(g, roots, seen, stack) && stack != []
    requires Elements(next) == Succ(g, stack[|stack| - 1])
    ensures SearchInv(g, roots, seen + {stack[|stack| - 1]}, stack[..|stack| - 1] + next)
  {
    var top, rest := stack[|stack| - 1], stack[..|stack| - 1];
    assert forall x :: x in stack <==> x in rest || x == top;
    assert forall y :: y in next <==> y in Succ(g, top);
    forall y | y in next ensures From(g, roots, y) && y in Universe(g, roots) {
      var r :| r in roots && Reaches(g, r, top);
      ReachStep(g, r, top, y);
    }
  }

  /** An exhausted search has seen exactly what the roots reach. */
  lemma SearchDone<T(!new)>(g: Graph<T>, roots: set<T>, seen: set<T>)
    requires SearchInv(g, roots, seen, [])
    ensures forall x :: x in seen <==> From(g, roots, x)
    ensures Closed(g, seen)
  {
    forall x | From(g, roots, x) ensures x in seen {
      var r :| r in roots && Reaches(g, r, x);
      ReachClosed(g, seen, r);
    }
  }

  // ----------------------------------------------------------------------
  // Searching for one node
  // ----------------------------------------------------------------------

  /** Nothing seen so far is the target, and every seen node outside the stack and
      outside `busy` has had all its successors seen. */
  ghost predicate HuntInv<T(!new)>(g: Graph<T>, root: T, target: T, seen: set<T>, stack: seq<T>, busy: set<T>) {
    && root != target && target !in seen
    && (forall x :: x in seen ==> Reaches(g, root, x) && x in Universe(g, {root}))
    && (forall x :: x in stack || x in busy ==> x == root || x in seen)
    && (forall x, y :: (x == root || x in seen) && x !in stack && x !in busy && y in Succ(g, x) ==> y in seen)
  }

  lemma HuntInit<T(!new)>(g: Graph<T>, root: T, target: T)
    requires root != target
    ensures HuntInv(g, root, target, {}, [root], {})
  {
  }

  lemma HuntPop<T(!new)>(g: Graph<T>, root: T, target: T, seen: set<T>, stack: seq<T>)
    requires HuntInv(g, root, target, seen, stack, {}) && stack != []
    ensures HuntInv(g, root, target, seen, stack[..|stack| - 1], {stack[|stack| - 1]})
  {
    var rest := stack[..|stack| - 1];
    assert forall x :: x in stack <==> x in rest || x == stack[|stack| - 1];
  }

  /** Meeting a successor of the busy node. */
  lemma HuntSee<T(!new)>(g: Graph<T>, root: T, target: T, seen: set<T>, stack: seq<T>, cur: T, n: T)
    requires HuntInv(g, root, target, seen, stack, {cur}) && n in Succ(g, cur)
    ensures Reaches(g, root, n)
    ensures n != target && n !in seen ==>
              HuntInv(g, root, target, seen + {n}, stack + [n], {cur}) && n in Universe(g, {root})
  {
    ReachRefl(g, root);
    ReachStep(g, root, cur, n);
  }

  lemma HuntNext<T(!new)>(g: Graph<T>, root: T, target: T, seen: set<T>, stack: seq<T>, cur: T)
    requires HuntInv(g, root, target, seen, stack, {cur}) && Succ(g, cur) <= seen
    ensures HuntInv(g, root, target, seen, stack, {})
  {
  }

  /** An exhausted hunt proves there is no path. */
  lemma HuntDone<T(!new)>(g: Graph<T>, root: T, target: T, seen: set<T>)
    requires HuntInv(g, root, target, seen, [], {})
    ensures !Reaches(g, root, target)
  {
    ReachClosed(g, seen + {root}, root);
  }

  // ----------------------------------------------------------------------
  // Level-by-level search
  // ----------------------------------------------------------------------

  /** `visited` is everything within `n` steps and `frontier` what is new at `n`. */
  ghost predicate LevelInv<T(!new)>(g: Graph<T>, root: T, n: nat, visited: set<T>, frontier: seq<T>) {
    && (forall x :: x in visited <==> Within(g, root, n, x))
    && (forall x :: x in frontier <==> Within(g, root, n, x) && !(n > 0 && Within(g, root, n - 1, x)))
  }

  lemma WithinStep<T(!new)>(g: Graph<T>, root: T, n: nat, x: T)
    ensures Within(g, root, n + 1, x) <==> Within(g, root, n, x) || exists m :: Within(g, root, n, m) && x in Succ(g, m)
    ensures Within(g, root, 0, x) <==> x == root
  {
    if Within(g, root, n + 1, x) {
      var d: nat :| d <= n + 1 && ReachIn(g, root, x, d);
      if d == n + 1 {
        var m :| ReachIn(g, root, m, n) && x in Succ(g, m);
        assert Within(g, root, n, m);
      }
    }
    if m :| Within(g, root, n, m) && x in Succ(g, m) {
      var d: nat :| d <= n && ReachIn(g, root, m, d);
      assert ReachIn(g, root, x, d + 1);
    }
    assert Within(g, root, 0, x) ==> ReachIn(g, root, x, 0);
    assert ReachIn(g, root, root, 0);
  }

  /** Expanding the frontier alone moves the whole search one step out. */
  lemma LevelNext<T(!new)>(
    g: Graph<T>, root: T, n: nat, visited: set<T>, frontier: seq<T>, visited': set<T>, frontier': seq<T>)
    requires LevelInv(g, root, n, visited, frontier)
    requires forall x :: x in visited' <==> x in visited || exists m :: m in frontier && x in Succ(g, m)
    requires forall x :: x in frontier' <==> x in visited' && x !in visited
    ensures LevelInv(g, root, n + 1, visited', frontier')
  {
    forall x ensures x in visited' <==> Within(g, root, n + 1, x) {
      WithinStep(g, root, n, x);
      if m :| Within(g, root, n, m) && x in Succ(g, m) {
        if m !in frontier { WithinStep(g, root, n - 1, x); }
      }
    }
  }

  /** An empty frontier means everything reachable has been visited. */
  lemma LevelDone<T(!new)>(g: Graph<T>, root: T, n: nat, visited: set<T>)
    requires LevelInv(g, root, n, visited, [])
    ensures forall x :: x in visited <==> Reaches(g, root, x)
  {
    forall x, y | x in visited && y in Succ(g, x) ensures y in visited {
      assert n > 0 && Within(g, root, n - 1, x) by { WithinStep(g, root, 0, root); }
      WithinStep(g, root, n - 1, y);
    }
    assert root in visited by { assert ReachIn(g, root, root, 0); }
    ReachClosed(g, visited, root);
    forall x | x in visited ensures Reaches(g, root, x) {
      var d: nat :| d <= n && ReachIn(g, root, x, d);
    }
  }
}
