/** Algorithms over the snapshot history: the ancestry test, the common-ancestor
    search, and the two topological sorts. */
module History {
  import opened Wrappers
  import opened Reach
  import opened Objects

  /** The parents of a stored snapshot; anything else has none. */
  function ParentsOf(store: Store, id: ObjectId): seq<ObjectId> {
    if id in store && store[id].Snapshot? then store[id].parents else []
  }

  lemma ParentsSucc(store: Store, id: ObjectId)
    ensures Elements(ParentsOf(store, id)) == Succ(ParentGraph(store), id)
  {
  }

  /** `descendant` is `ancestor` or leads to it along parent edges. */
  method IsAncestor(store: Store, ancestor: ObjectId, descendant: ObjectId) returns (r: bool)
    ensures r <==> Reaches(ParentGraph(store), descendant, ancestor)
  {
    hide *;
    ghost var g := ParentGraph(store);
    if ancestor == descendant {
      ReachRefl(g, ancestor);
      return true;
    }
    var stack := [descendant];
    var seen: set<ObjectId> := {};
    HuntInit(g, descendant, ancestor);
    while stack != []
      invariant HuntInv(g, descendant, ancestor, seen, stack, {})
      decreases Universe(g, {descendant}) - seen, |stack|
    {
      var cur := stack[|stack| - 1];
      HuntPop(g, descendant, ancestor, seen, stack);
      stack := stack[..|stack| - 1];
      var parents := ParentsOf(store, cur);
      ParentsSucc(store, cur);
      ElementsOf(parents);
      ghost var seen0, stack0 := seen, stack;
      for j := 0 to |parents|
        invariant HuntInv(g, descendant, ancestor, seen, stack, {cur})
        invariant seen0 <= seen && forall k :: 0 <= k < j ==> parents[k] in seen
        invariant seen - seen0 <= Universe(g, {descendant}) && (seen == seen0 ==> stack == stack0)
      {
        var p := parents[j];
        HuntSee(g, descendant, ancestor, seen, stack, cur, p);
        if p == ancestor { return true; }
        if p !in seen {
          seen := seen + {p};
          stack := stack + [p];
        }
      }
      HuntNext(g, descendant, ancestor, seen, stack, cur);
    }
    HuntDone(g, descendant, ancestor, seen);
    r := false;
  }

  /** A line of descent: each snapshot is stored and names the next as a parent. */
  ghost predicate Descent(store: Store, line: seq<ObjectId>) {
    forall i :: 0 <= i < |line| - 1 ==>
      line[i] in store && store[line[i]].Snapshot? && line[i + 1] in store[line[i]].parents
  }

  /** Ancestry is the existence of a line of descent. */
  lemma AncestryIsDescent(store: Store, descendant: ObjectId, ancestor: ObjectId)
    ensures Reaches(ParentGraph(store), descendant, ancestor) <==>
            exists line ::
              |line| > 0 && line[0] == descendant && line[|line| - 1] == ancestor && Descent(store, line)
  {
    var g := ParentGraph(store);
    if Reaches(g, descendant, ancestor) {
      var n: nat :| ReachIn(g, descendant, ancestor, n);
      var line := DescentOf(store, descendant, ancestor, n);
    }
    if line :| |line| > 0 && line[0] == descendant && line[|line| - 1] == ancestor && Descent(store, line) {
      DescentReaches(store, line);
    }
  }

  lemma {:induction false} DescentOf(store: Store, a: ObjectId, b: ObjectId, n: nat) returns (line: seq<ObjectId>)
    requires ReachIn(ParentGraph(store), a, b, n)
    ensures |line| == n + 1 && line[0] == a && line[n] == b && Descent(store, line)
    decreases n
  {
    if n == 0 {
      line := [a];
    } else {
      var m :| ReachIn(ParentGraph(store), a, m, n - 1) && b in Succ(ParentGraph(store), m);
      var front := DescentOf(store, a, m, n - 1);
      line := front + [b];
    }
  }

  lemma {:induction false} DescentReaches(store: Store, line: seq<ObjectId>)
    requires |line| > 0 && Descent(store, line)
    ensures ReachIn(ParentGraph(store), line[0], line[|line| - 1], |line| - 1)
    decreases |line|
  {
    if |line| > 1 {
      var front := line[..|line| - 1];
      DescentReaches(store, front);
      assert line[|line| - 2 + 1] in store[line[|line| - 2]].parents;
      assert line[|line| - 1] in Succ(ParentGraph(store), front[|front| - 1]);
    }
  }

  lemma ElementsOf(s: seq<ObjectId>)
    ensures forall x :: x in s <==> x in Elements(s)
  {
  }

  // ----------------------------------------------------------------------
  // Common ancestor
  // ----------------------------------------------------------------------

  /** Loads the parents of the whole frontier; the new ones become the next frontier. */
  method ExpandFrontier(store: Store, frontier: seq<ObjectId>, visited: set<ObjectId>)
    returns (frontier': seq<ObjectId>, visited': set<ObjectId>, grew: bool)
    ensures forall x :: x in visited' <==> x in visited || exists m :: m in frontier && x in Succ(ParentGraph(store), m)
    ensures forall x :: x in frontier' <==> x in visited' && x !in visited
    ensures grew <==> frontier' != []
  {
    ghost var g := ParentGraph(store);
    frontier', visited', grew := [], visited, false;
    for i := 0 to |frontier|
      invariant forall x :: x in visited' <==> x in visited || exists k :: 0 <= k < i && x in Succ(g, frontier[k])
      invariant forall x :: x in frontier' <==> x in visited' && x !in visited
      invariant grew <==> frontier' != []
    {
      var parents := ParentsOf(store, frontier[i]);
      ParentsSucc(store, frontier[i]);
      ElementsOf(parents);
      ghost var before := visited';
      for j := 0 to |parents|
        invariant forall x :: x in visited' <==> x in before || x in parents[..j]
        invariant forall x :: x in frontier' <==> x in visited' && x !in visited
        invariant grew <==> frontier' != []
        invariant visited <= before
      {
        if parents[j] !in visited' {
          visited' := visited' + {parents[j]};
          frontier' := frontier' + [parents[j]];
          grew := true;
        }
      }
      assert parents[..|parents|] == parents;
    }
  }

  /** The ids within reach of both sides at the `k`-th check: after the first side
      has been expanded k/2 + 1 times and the second (k + 1)/2 times. */
  ghost predicate MeetAt(g: Graph<ObjectId>, a: ObjectId, b: ObjectId, k: nat, x: ObjectId) {
    Within(g, a, k / 2 + 1, x) && Within(g, b, (k + 1) / 2, x)
  }

  /** `c` is the least id of the first check that finds anything. */
  ghost predicate IsFirstMeet(g: Graph<ObjectId>, a: ObjectId, b: ObjectId, k: nat, c: ObjectId) {
    && MeetAt(g, a, b, k, c)
    && (forall x :: MeetAt(g, a, b, k, x) ==> c <= x)
    && NoMeetBefore(g, a, b, k)
  }

  ghost predicate NoMeetBefore(g: Graph<ObjectId>, a: ObjectId, b: ObjectId, k: nat) {
    forall j: nat, x :: j < k ==> !MeetAt(g, a, b, j, x)
  }

  ghost predicate IsCommon(g: Graph<ObjectId>, a: ObjectId, b: ObjectId, x: ObjectId) {
    Reaches(g, a, x) && Reaches(g, b, x)
  }

  lemma MeetIsCommon(g: Graph<ObjectId>, a: ObjectId, b: ObjectId, k: nat, x: ObjectId)
    requires MeetAt(g, a, b, k, x)
    ensures IsCommon(g, a, b, x)
  {
    var m: nat :| m <= k / 2 + 1 && ReachIn(g, a, x, m);
    var n: nat :| n <= (k + 1) / 2 && ReachIn(g, b, x, n);
  }

  lemma LevelSubset(g: Graph<ObjectId>, root: ObjectId, n: nat, visited: set<ObjectId>, frontier: seq<ObjectId>)
    requires LevelInv(g, root, n, visited, frontier)
    ensures visited <= Universe(g, {root})
  {
    forall x | x in visited ensures x in Universe(g, {root}) {
      var d: nat :| d <= n && ReachIn(g, root, x, d);
      if d > 0 { var m :| ReachIn(g, root, m, d - 1) && x in Succ(g, m); }
    }
  }

  /** How soon the two searches meet at a snapshot this far from each side. */
  function Meeting(da: nat, db: nat): nat {
    var p, q := 2 * da - 2, 2 * db - 1;
    if p <= 0 && q <= 0 then 0 else if p > q then p else q
  }

  lemma MeetsWhen(g: Graph<ObjectId>, a: ObjectId, b: ObjectId, x: ObjectId, da: nat, db: nat, k: nat)
    requires IsDist(g, a, x, da) && IsDist(g, b, x, db)
    ensures MeetAt(g, a, b, k, x) <==> Meeting(da, db) <= k
  {
    assert Within(g, a, k / 2 + 1, x) <==> da <= k / 2 + 1;
    assert Within(g, b, (k + 1) / 2, x) <==> db <= (k + 1) / 2;
  }

  /** The answer in terms of distances alone: among all common ancestors it is the one
      met soonest, the first side being a step ahead, and of those the least id. */
  lemma SoonestMeeting(
    g: Graph<ObjectId>, a: ObjectId, b: ObjectId, k: nat, c: ObjectId, da: nat, db: nat, x: ObjectId, dx: nat, ex: nat)
    requires IsFirstMeet(g, a, b, k, c) && IsDist(g, a, c, da) && IsDist(g, b, c, db)
    requires IsDist(g, a, x, dx) && IsDist(g, b, x, ex)
    ensures Meeting(da, db) < Meeting(dx, ex) || (Meeting(da, db) == Meeting(dx, ex) && c <= x)
  {
    hide IsDist, MeetAt;
    MeetsWhen(g, a, b, c, da, db, k);
    MeetsWhen(g, a, b, x, dx, ex, k);
    MeetsWhen(g, a, b, x, dx, ex, Meeting(dx, ex));
    MeetsWhen(g, a, b, c, da, db, Meeting(da, db));
  }

  /** Met soonest of all common ancestors, and of those the least id. */
  ghost predicate Soonest(g: Graph<ObjectId>, a: ObjectId, b: ObjectId, c: ObjectId) {
    forall da: nat, db: nat, x, dx: nat, ex: nat ::
      IsDist(g, a, c, da) && IsDist(g, b, c, db) && IsDist(g, a, x, dx) && IsDist(g, b, x, ex) ==>
        Meeting(da, db) < Meeting(dx, ex) || (Meeting(da, db) == Meeting(dx, ex) && c <= x)
  }

  lemma FirstIsSoonest(g: Graph<ObjectId>, a: ObjectId, b: ObjectId, k: nat, c: ObjectId)
    requires IsFirstMeet(g, a, b, k, c)
    ensures Soonest(g, a, b, c)
  {
    hide IsDist, IsFirstMeet, Meeting;
    forall da: nat, db: nat, x: ObjectId, dx: nat, ex: nat
      | IsDist(g, a, c, da) && IsDist(g, b, c, db) && IsDist(g, a, x, dx) && IsDist(g, b, x, ex)
      ensures Meeting(da, db) < Meeting(dx, ex) || (Meeting(da, db) == Meeting(dx, ex) && c <= x)
    {
      SoonestMeeting(g, a, b, k, c, da, db, x, dx, ex);
    }
  }

  /** One side of the search, one step further out. */
  method Advance(store: Store, ghost root: ObjectId, ghost n: nat, frontier: seq<ObjectId>, visited: set<ObjectId>)
    returns (frontier': seq<ObjectId>, visited': set<ObjectId>, grew: bool)
    requires LevelInv(ParentGraph(store), root, n, visited, frontier)
    ensures LevelInv(ParentGraph(store), root, n + 1, visited', frontier')
    ensures visited <= visited' <= Universe(ParentGraph(store), {root})
    ensures if grew then visited < visited' else frontier' == []
  {
    hide *;
    frontier', visited', grew := ExpandFrontier(store, frontier, visited);
    LevelNext(ParentGraph(store), root, n, visited, frontier, visited', frontier');
    LevelSubset(ParentGraph(store), root, n + 1, visited', frontier');
    if grew { assert frontier'[0] in frontier'; }
  }

  /** One check: the least id both sides have visited, if any. */
  method Check(
    ghost g: Graph<ObjectId>, ghost a: ObjectId, ghost b: ObjectId, ghost k: nat, va: set<ObjectId>,
    ghost fa: seq<ObjectId>, vb: set<ObjectId>, ghost fb: seq<ObjectId>)
    returns (r: Option<ObjectId>)
    requires LevelInv(g, a, k / 2 + 1, va, fa) && LevelInv(g, b, (k + 1) / 2, vb, fb) && NoMeetBefore(g, a, b, k)
    ensures r.Some? ==> IsFirstMeet(g, a, b, k, r.value) && IsCommon(g, a, b, r.value)
    ensures r.None? ==> NoMeetBefore(g, a, b, k + 1) && va * vb == {}
  {
    var both := va * vb;
    assert forall x :: x in both <==> MeetAt(g, a, b, k, x);
    if both == {} { return None; }
    r := Some(Least(both));
    MeetIsCommon(g, a, b, k, r.value);
  }

  lemma LevelStart(g: Graph<ObjectId>, a: ObjectId)
    ensures LevelInv(g, a, 0, {a}, [a])
  {
    forall x ensures Within(g, a, 0, x) <==> x == a { WithinStep(g, a, 0, x); }
  }

  lemma NoMeet(g: Graph<ObjectId>, a: ObjectId, b: ObjectId, n: nat, m: nat, va: set<ObjectId>, vb: set<ObjectId>)
    requires LevelInv(g, a, n, va, []) && LevelInv(g, b, m, vb, []) && va * vb == {}
    ensures forall x :: !IsCommon(g, a, b, x)
  {
    LevelDone(g, a, n, va);
    LevelDone(g, b, m, vb);
    forall x ensures !IsCommon(g, a, b, x) {
      assert x !in va * vb;
    }
  }

  /** The bidirectional search. It finds something exactly when a common ancestor
      exists, and what it finds is the least id of the first non-empty meeting. */
  method FindCommonAncestor(store: Store, a: ObjectId, b: ObjectId) returns (r: Option<ObjectId>)
    ensures r.None? <==> forall x :: !IsCommon(ParentGraph(store), a, b, x)
    ensures r.Some? ==> IsCommon(ParentGraph(store), a, b, r.value)
    ensures r.Some? ==> if a == b then r.value == a
        else exists k: nat :: IsFirstMeet(ParentGraph(store), a, b, k, r.value)
    ensures r.Some? && a != b ==> Soonest(ParentGraph(store), a, b, r.value)
  {
    hide *;
    ghost var g := ParentGraph(store);
    if a == b {
      CommonSelf(g, a);
      return Some(a);
    }
    var va, vb := {a}, {b};
    var fa, fb := [a], [b];
    ghost var n: nat := 0;
    LevelStart(g, a);
    LevelStart(g, b);
    NoneYet(g, a, b);
    while true
      invariant LevelInv(g, a, n, va, fa) && LevelInv(g, b, n, vb, fb) && NoMeetBefore(g, a, b, 2 * n)
      decreases Universe(g, {a}) - va, Universe(g, {b}) - vb
    {
      var growA, growB;
      fa, va, growA := Advance(store, a, n, fa, va);
      r := Check(g, a, b, 2 * n, va, fa, vb, fb);
      if r.Some? { FirstIsSoonest(g, a, b, 2 * n, r.value); return; }
      fb, vb, growB := Advance(store, b, n, fb, vb);
      r := Check(g, a, b, 2 * n + 1, va, fa, vb, fb);
      if r.Some? { FirstIsSoonest(g, a, b, 2 * n + 1, r.value); return; }
      if !growA && !growB {
        NoMeet(g, a, b, n + 1, n + 1, va, vb);
        return None;
      }
      n := n + 1;
    }
  }

  lemma CommonSelf(g: Graph<ObjectId>, a: ObjectId)
    ensures IsCommon(g, a, a, a)
  {
    ReachRefl(g, a);
  }

  lemma NoneYet(g: Graph<ObjectId>, a: ObjectId, b: ObjectId)
    ensures NoMeetBefore(g, a, b, 0)
  {
  }

  /** Every snapshot of this line of history has at most one parent. */
  ghost predicate Linear(g: Graph<ObjectId>, a: ObjectId) {
    forall x, y, z :: Reaches(g, a, x) && y in Succ(g, x) && z in Succ(g, x) ==> y == z
  }

  lemma {:induction false} LinearOrder(g: Graph<ObjectId>, a: ObjectId, x: ObjectId, y: ObjectId, i: nat, j: nat)
    requires Linear(g, a) && ReachIn(g, a, x, i) && ReachIn(g, a, y, j) && i <= j
    ensures ReachIn(g, x, y, j - i)
    decreases j
  {
    if j > 0 {
      var m :| ReachIn(g, a, m, j - 1) && y in Succ(g, m);
      if i == j {
        var l :| ReachIn(g, a, l, i - 1) && x in Succ(g, l);
        LinearOrder(g, a, l, m, i - 1, j - 1);
        assert l == m && Reaches(g, a, m);
      } else {
        LinearOrder(g, a, x, m, i, j - 1);
      }
    }
  }

  /** Where neither side's own history has a merge, the first meeting is the nearest:
      every common ancestor is an ancestor of it. */
  lemma NearestOnLinear(g: Graph<ObjectId>, a: ObjectId, b: ObjectId, k: nat, c: ObjectId)
    requires Linear(g, a) && Linear(g, b) && IsFirstMeet(g, a, b, k, c)
    ensures forall x :: IsCommon(g, a, b, x) ==> Reaches(g, c, x)
  {
    hide Linear;
    var na: nat :| na <= k / 2 + 1 && ReachIn(g, a, c, na);
    var nb: nat :| nb <= (k + 1) / 2 && ReachIn(g, b, c, nb);
    forall x | IsCommon(g, a, b, x) ensures Reaches(g, c, x) {
      var i: nat :| ReachIn(g, a, x, i);
      var j: nat :| ReachIn(g, b, x, j);
      if na <= i {
        LinearOrder(g, a, c, x, na, i);
      } else {
        NotBothSooner(g, a, b, k, x, i, j);
        LinearOrder(g, b, c, x, nb, j);
      }
    }
  }

  /** Some walk of `n` steps from `a` to `x` leads over `w`. */
  ghost predicate Over(g: Graph<ObjectId>, a: ObjectId, w: ObjectId, x: ObjectId, n: nat) {
    exists m: nat :: m <= n && ReachIn(g, a, w, m) && ReachIn(g, w, x, n - m)
  }

  /** However far a common ancestor lies from either side, the way leads over `w`. */
  ghost predicate Gateway(g: Graph<ObjectId>, a: ObjectId, b: ObjectId, w: ObjectId) {
    forall x, n: nat :: IsCommon(g, a, b, x) ==>
      && (ReachIn(g, a, x, n) ==> Over(g, a, w, x, n))
      && (ReachIn(g, b, x, n) ==> Over(g, b, w, x, n))
  }

  /** Merges inside the branches do no harm: if every way to a common ancestor leads
      over one snapshot, the search finds that one, and it is the nearest. */
  lemma NearestIsGateway(g: Graph<ObjectId>, a: ObjectId, b: ObjectId, k: nat, c: ObjectId, w: ObjectId)
    requires Gateway(g, a, b, w) && IsFirstMeet(g, a, b, k, c)
    ensures c == w
    ensures forall x :: IsCommon(g, a, b, x) ==> Reaches(g, w, x)
  {
    hide Over, IsCommon, Gateway;
    MeetIsCommon(g, a, b, k, c);
    GatewayMeets(g, a, b, k, c, w);
    forall x | IsCommon(g, a, b, x) ensures Reaches(g, w, x) { GatewayReaches(g, a, b, x, w); }
  }

  lemma GatewayReaches(g: Graph<ObjectId>, a: ObjectId, b: ObjectId, x: ObjectId, w: ObjectId)
    requires Gateway(g, a, b, w) && IsCommon(g, a, b, x)
    ensures Reaches(g, w, x)
  {
    var n: nat :| ReachIn(g, a, x, n);
    assert Over(g, a, w, x, n);
  }

  lemma SplitOver(g: Graph<ObjectId>, a: ObjectId, w: ObjectId, x: ObjectId, n: nat) returns (m: nat)
    requires Over(g, a, w, x, n)
    ensures m <= n && ReachIn(g, a, w, m) && (m == n ==> w == x)
  {
    m :| m <= n && ReachIn(g, a, w, m) && ReachIn(g, w, x, n - m);
  }

  /** A meeting anywhere but at the gateway comes after a meeting there. */
  lemma GatewayMeets(g: Graph<ObjectId>, a: ObjectId, b: ObjectId, k: nat, c: ObjectId, w: ObjectId)
    requires Gateway(g, a, b, w) && IsCommon(g, a, b, c) && MeetAt(g, a, b, k, c) && NoMeetBefore(g, a, b, k)
    ensures c == w
  {
    hide NoMeetBefore, Over, IsCommon, ReachIn;
    var i: nat :| i <= k / 2 + 1 && ReachIn(g, a, c, i);
    var j: nat :| j <= (k + 1) / 2 && ReachIn(g, b, c, j);
    var m := SplitOver(g, a, w, c, i);
    var n := SplitOver(g, b, w, c, j);
    NotBothSooner(g, a, b, k, w, m, n);
  }

  lemma NotBothSooner(g: Graph<ObjectId>, a: ObjectId, b: ObjectId, k: nat, x: ObjectId, i: nat, j: nat)
    requires NoMeetBefore(g, a, b, k) && ReachIn(g, a, x, i) && ReachIn(g, b, x, j)
    ensures i >= k / 2 + 1 || j >= (k + 1) / 2
  {
    if k > 0 {
      assert i <= (k - 1) / 2 + 1 ==> Within(g, a, (k - 1) / 2 + 1, x);
      assert j <= k / 2 ==> Within(g, b, (k - 1 + 1) / 2, x);
      assert !MeetAt(g, a, b, k - 1, x);
    }
  }

  lemma WithinOne(g: Graph<ObjectId>, a: ObjectId, x: ObjectId)
    ensures Within(g, a, 0, x) <==> x == a
    ensures Within(g, a, 1, x) <==> x == a || x in Succ(g, a)
  {
    WithinStep(g, a, 0, x);
    forall m ensures Within(g, a, 0, m) <==> m == a { WithinStep(g, a, 0, m); }
  }

  /** On merge histories it need not be: here both heads merge 1 and 2, and 1 is a
      parent of 2, yet the search settles on 1. */
  lemma NotNearestOnMerges()
    ensures var g: Graph<ObjectId> := map[3 := {1, 2}, 4 := {1, 2}, 2 := {1}];
            IsFirstMeet(g, 3, 4, 1, 1) && IsCommon(g, 3, 4, 2) && !Reaches(g, 1, 2)
  {
    hide Within, Reaches, IsCommon;
    var g: Graph<ObjectId> := map[3 := {1, 2}, 4 := {1, 2}, 2 := {1}];
    forall x ensures Within(g, 3, 1, x) <==> x == 1 || x == 2 || x == 3 { WithinOne(g, 3, x); }
    forall x ensures (Within(g, 4, 1, x) <==> x == 1 || x == 2 || x == 4) &&
        (Within(g, 4, 0, x) <==> x == 4) { WithinOne(g, 4, x); }
    assert forall x :: MeetAt(g, 3, 4, 0, x) <==> Within(g, 3, 1, x) && Within(g, 4, 0, x);
    assert forall x :: MeetAt(g, 3, 4, 1, x) <==> Within(g, 3, 1, x) && Within(g, 4, 1, x);
    assert MeetAt(g, 3, 4, 1, 2) && MeetAt(g, 3, 4, 1, 1);
    MeetIsCommon(g, 3, 4, 1, 2);
    ReachClosed(g, {1}, 1);
  }

  // ----------------------------------------------------------------------
  // Topological sort
  // ----------------------------------------------------------------------

  type Frames = seq<(ObjectId, bool)>

  /** Steps from `a` along at least one edge. */
  ghost predicate Below(g: Graph<ObjectId>, a: ObjectId, b: ObjectId) {
    exists c :: c in Succ(g, a) && Reaches(g, c, b)
  }

  lemma BelowStep(g: Graph<ObjectId>, a: ObjectId, b: ObjectId, c: ObjectId)
    requires (a == b || Below(g, a, b)) && c in Succ(g, b)
    ensures Below(g, a, c)
  {
    if a == b {
      ReachRefl(g, c);
    } else {
      var d :| d in Succ(g, a) && Reaches(g, d, b);
      ReachStep(g, d, b, c);
    }
  }

  lemma NotBelowSelf(g: Graph<ObjectId>, a: ObjectId)
    requires Acyclic(g)
    ensures !Below(g, a, a)
  {
  }

  /** Some frame above position `k` is for `p`. */
  ghost predicate Above(stack: Frames, k: nat, p: ObjectId) {
    exists l :: k < l < |stack| && stack[l].0 == p
  }

  ghost predicate Grey(stack: Frames, x: ObjectId) {
    exists k :: 0 <= k < |stack| && stack[k] == (x, true)
  }

  /** No node twice, and every node after all its parents. */
  ghost predicate Topological(g: Graph<ObjectId>, result: seq<ObjectId>) {
    && (forall i, j :: 0 <= i < j < |result| ==> result[i] != result[j])
    && (forall i, p :: 0 <= i < |result| && p in Succ(g, result[i]) ==> p in result[..i])
  }

  /** A visited node is finished or waits under its pending parents; whatever lies
      above a waiting node is strictly below it in the history. */
  ghost predicate TopoInv(
    g: Graph<ObjectId>, starts: set<ObjectId>, visited: set<ObjectId>, result: seq<ObjectId>, stack: Frames)
  {
    && Topological(g, result)
    && (forall x :: x in visited <==> x in result || Grey(stack, x))
    && (forall x :: Grey(stack, x) ==> x !in result)
    && (forall k, p :: 0 <= k < |stack| && stack[k].1 && p in Succ(g, stack[k].0) ==> p in result || Above(stack, k, p))
    && (forall k, l :: 0 <= k < l < |stack| && stack[k].1 ==> Below(g, stack[k].0, stack[l].0))
    && (forall x :: x in visited ==> From(g, starts, x))
    && (forall k :: 0 <= k < |stack| ==> From(g, starts, stack[k].0))
    && (forall x :: x in starts ==> x in visited || exists k :: 0 <= k < |stack| && stack[k].0 == x)
  }

  function Pending(ids: seq<ObjectId>): Frames {
    seq(|ids|, i requires 0 <= i < |ids| => (ids[i], false))
  }

  lemma PendingFrames(ids: seq<ObjectId>)
    ensures |Pending(ids)| == |ids| && forall k :: 0 <= k < |ids| ==> Pending(ids)[k] == (ids[k], false)
    ensures forall x :: !Grey(Pending(ids), x)
  {
  }

  lemma NothingSorted(g: Graph<ObjectId>)
    ensures Topological(g, [])
  {
  }

  lemma StartsFrom(g: Graph<ObjectId>, starts: seq<ObjectId>, x: ObjectId)
    requires x in Elements(starts)
    ensures From(g, Elements(starts), x)
    ensures exists k :: 0 <= k < |starts| && starts[k] == x
  {
    hide Reaches;
    ReachRefl(g, x);
    var k :| 0 <= k < |starts| && starts[k] == x;
  }

  lemma TopoInit(g: Graph<ObjectId>, starts: seq<ObjectId>)
    ensures TopoInv(g, Elements(starts), {}, [], Pending(starts))
  {
    hide Pending, Grey, Above, Below, From, Topological;
    var stack := Pending(starts);
    PendingFrames(starts);
    NothingSorted(g);
    forall x | x in Elements(starts) ensures From(g, Elements(starts), x) { StartsFrom(g, starts, x); }
    forall x | x in Elements(starts) ensures exists k :: 0 <= k < |stack| && stack[k].0 == x {
      StartsFrom(g, starts, x);
      var k :| 0 <= k < |starts| && starts[k] == x;
      assert stack[k].0 == x;
    }
    forall k | 0 <= k < |stack| ensures From(g, Elements(starts), stack[k].0) {
      assert starts[k] in Elements(starts);
    }
  }

  /** A waiting node has exactly one frame, and nothing on the stack above it is it. */
  lemma GreyOnce(
    g: Graph<ObjectId>, starts: set<ObjectId>, visited: set<ObjectId>, result: seq<ObjectId>, stack: Frames, k: nat,
    l: nat)
    requires Acyclic(g) && TopoInv(g, starts, visited, result, stack) && k < l < |stack| && stack[k].1
    ensures stack[k].0 != stack[l].0 && stack[k].0 !in Succ(g, stack[l].0)
  {
    NotBelowSelf(g, stack[k].0);
    if stack[k].0 in Succ(g, stack[l].0) {
      BelowStep(g, stack[k].0, stack[l].0, stack[k].0);
    }
  }

  /** A visited parent of an unfinished frame's node is already finished. */
  lemma ParentFinished(
    g: Graph<ObjectId>, starts: set<ObjectId>, visited: set<ObjectId>, result: seq<ObjectId>, stack: Frames, l: nat,
    p: ObjectId)
    requires Acyclic(g) && TopoInv(g, starts, visited, result, stack)
    requires l < |stack| && p in Succ(g, stack[l].0) && p in visited && !Above(stack, l, p)
    ensures p in result
  {
    if p !in result {
      assert Grey(stack, p);
      var k :| 0 <= k < |stack| && stack[k] == (p, true);
      if k < l {
        GreyOnce(g, starts, visited, result, stack, k, l);
      } else if k == l {
        NotBelowSelf(g, p);
        BelowStep(g, p, p, p);
      }
      assert false;
    }
  }

  lemma PopGrey(stack: Frames, x: ObjectId)
    requires stack != []
    ensures Grey(stack, x) <==> Grey(stack[..|stack| - 1], x) || stack[|stack| - 1] == (x, true)
  {
    var rest := stack[..|stack| - 1];
    if Grey(rest, x) {
      var k :| 0 <= k < |rest| && rest[k] == (x, true);
      assert stack[k] == (x, true);
    }
    if Grey(stack, x) && stack[|stack| - 1] != (x, true) {
      var k :| 0 <= k < |stack| && stack[k] == (x, true);
      assert rest[k] == (x, true);
    }
  }

  lemma PopAbove(stack: Frames, k: nat, p: ObjectId)
    requires k < |stack| - 1
    ensures Above(stack, k, p) <==> Above(stack[..|stack| - 1], k, p) || stack[|stack| - 1].0 == p
  {
    var rest := stack[..|stack| - 1];
    if Above(rest, k, p) {
      var l :| k < l < |rest| && rest[l].0 == p;
      assert stack[l].0 == p;
    }
    if Above(stack, k, p) && stack[|stack| - 1].0 != p {
      var l :| k < l < |stack| && stack[l].0 == p;
      assert rest[l].0 == p;
    }
  }

  /** What popping leaves true of the frames, whatever is done with the popped one. */
  lemma PopRest(g: Graph<ObjectId>, starts: set<ObjectId>, visited: set<ObjectId>, result: seq<ObjectId>, stack: Frames)
    requires TopoInv(g, starts, visited, result, stack) && stack != []
    ensures var rest, top := stack[..|stack| - 1], stack[|stack| - 1].0;
            && (forall k, l :: 0 <= k < l < |rest| && rest[k].1 ==> Below(g, rest[k].0, rest[l].0))
            && (forall k :: 0 <= k < |rest| && rest[k].1 ==> Below(g, rest[k].0, top))
            && (forall k :: 0 <= k < |rest| ==> From(g, starts, rest[k].0))
            && From(g, starts, top)
            && (forall k, p :: 0 <= k < |rest| && rest[k].1 && p in Succ(g, rest[k].0) ==>
                p in result || p == top || Above(rest, k, p))
            && (forall x :: x in starts ==> x in visited || x == top || exists k :: 0 <= k < |rest| && rest[k].0 == x)
  {
    var rest, top := stack[..|stack| - 1], stack[|stack| - 1].0;
    assert forall k :: 0 <= k < |rest| ==> rest[k] == stack[k];
    forall k, p | 0 <= k < |rest| && rest[k].1 && p in Succ(g, rest[k].0) ensures p in result || p == top ||
        Above(rest, k, p) {
      if p !in result { PopAbove(stack, k, p); }
    }
    forall x | x in starts ensures x in visited || x == top || exists k :: 0 <= k < |rest| && rest[k].0 == x {
      if x !in visited && x != top {
        var k :| 0 <= k < |stack| && stack[k].0 == x;
        assert rest[k].0 == x;
      }
    }
  }

  lemma TopologicalSnoc(g: Graph<ObjectId>, result: seq<ObjectId>, top: ObjectId)
    requires Topological(g, result) && top !in result && forall p :: p in Succ(g, top) ==> p in result
    ensures Topological(g, result + [top])
  {
    hide Succ;
    var result' := result + [top];
    assert forall i :: 0 <= i < |result| ==> result'[i] == result[i] && result'[..i] == result[..i];
    assert result'[..|result|] == result;
  }

  /** The node on top is finished only after its parents. */
  lemma TopReady(
    g: Graph<ObjectId>, starts: set<ObjectId>, visited: set<ObjectId>, result: seq<ObjectId>, stack: Frames)
    requires TopoInv(g, starts, visited, result, stack) && stack != [] && stack[|stack| - 1].1
    ensures stack[|stack| - 1].0 !in result
    ensures forall p :: p in Succ(g, stack[|stack| - 1].0) ==> p in result
  {
    hide Below, From, Topological, Succ;
    var n := |stack| - 1;
    assert Grey(stack, stack[n].0);
    forall p | p in Succ(g, stack[n].0) ensures p in result { assert !Above(stack, n, p); }
  }

  lemma FinishColours(
    g: Graph<ObjectId>, starts: set<ObjectId>, visited: set<ObjectId>, result: seq<ObjectId>, stack: Frames,
    x: ObjectId)
    requires Acyclic(g) && TopoInv(g, starts, visited, result, stack) && stack != [] && stack[|stack| - 1].1
    ensures x in visited <==> x in result + [stack[|stack| - 1].0] || Grey(stack[..|stack| - 1], x)
    ensures Grey(stack[..|stack| - 1], x) ==> x !in result + [stack[|stack| - 1].0]
  {
    hide Acyclic, Below, From, Topological, Above, Succ;
    var rest, n := stack[..|stack| - 1], |stack| - 1;
    PopGrey(stack, x);
    if Grey(rest, x) {
      var k :| 0 <= k < |rest| && rest[k] == (x, true);
      GreyOnce(g, starts, visited, result, stack, k, n);
    }
  }

  lemma TopoFinish(
    g: Graph<ObjectId>, starts: set<ObjectId>, visited: set<ObjectId>, result: seq<ObjectId>, stack: Frames)
    requires Acyclic(g) && TopoInv(g, starts, visited, result, stack) && stack != [] && stack[|stack| - 1].1
    ensures TopoInv(g, starts, visited, result + [stack[|stack| - 1].0], stack[..|stack| - 1])
  {
    var rest, top := stack[..|stack| - 1], stack[|stack| - 1].0;
    PopRest(g, starts, visited, result, stack);
    TopReady(g, starts, visited, result, stack);
    assert Topological(g, result);
    assert Grey(stack, top) && top in visited by { assert stack[|stack| - 1] == (top, true); }
    hide Acyclic, Below, From, Topological, Above, Grey, Succ;
    TopologicalSnoc(g, result, top);
    forall x: ObjectId
      ensures x in visited <==> x in result + [top] || Grey(rest, x)
      ensures Grey(rest, x) ==> x !in result + [top]
    {
      FinishColours(g, starts, visited, result, stack, x);
    }
    assert forall x :: x in result + [top] <==> x in result || x == top;
  }

  lemma TopoSkip(
    g: Graph<ObjectId>, starts: set<ObjectId>, visited: set<ObjectId>, result: seq<ObjectId>, stack: Frames)
    requires Acyclic(g) && TopoInv(g, starts, visited, result, stack) && stack != []
    requires !stack[|stack| - 1].1 && stack[|stack| - 1].0 in visited
    ensures TopoInv(g, starts, visited, result, stack[..|stack| - 1])
  {
    var rest, top := stack[..|stack| - 1], stack[|stack| - 1].0;
    PopRest(g, starts, visited, result, stack);
    forall x ensures Grey(rest, x) <==> Grey(stack, x) { PopGrey(stack, x); }
    VisitedTop(g, starts, visited, result, stack);
  }

  /** A visited node met again is finished: a waiting one would lie below itself. */
  lemma VisitedTop(
    g: Graph<ObjectId>, starts: set<ObjectId>, visited: set<ObjectId>, result: seq<ObjectId>, stack: Frames)
    requires Acyclic(g) && TopoInv(g, starts, visited, result, stack) && stack != []
    requires !stack[|stack| - 1].1 && stack[|stack| - 1].0 in visited
    ensures stack[|stack| - 1].0 in result
  {
    var top := stack[|stack| - 1].0;
    NotBelowSelf(g, top);
    assert Grey(stack, top) ==> Below(g, top, top);
  }

  /** The stack after a first visit: the top waits, frames for `push` lie above it. */
  function Visit(stack: Frames, push: seq<ObjectId>): Frames
    requires stack != []
  {
    stack[..|stack| - 1] + [(stack[|stack| - 1].0, true)] + Pending(push)
  }

  lemma VisitAt(stack: Frames, push: seq<ObjectId>)
    requires stack != []
    ensures var all, n := Visit(stack, push), |stack| - 1;
            && |all| == n + 1 + |push|
            && (forall k :: 0 <= k < n ==> all[k] == stack[k])
            && all[n] == (stack[n].0, true)
            && (forall k :: n < k < |all| ==> all[k] == (push[k - n - 1], false) && push[k - n - 1] in push)
            && (forall i :: 0 <= i < |push| ==> all[n + 1 + i] == (push[i], false))
  {
  }

  lemma VisitGrey(stack: Frames, push: seq<ObjectId>, x: ObjectId)
    requires stack != [] && !stack[|stack| - 1].1
    ensures Grey(Visit(stack, push), x) <==> Grey(stack, x) || x == stack[|stack| - 1].0
  {
    hide Visit;
    VisitAt(stack, push);
    var all, n := Visit(stack, push), |stack| - 1;
    if Grey(stack, x) {
      var k :| 0 <= k < |stack| && stack[k] == (x, true);
      assert all[k] == (x, true);
    }
    if Grey(all, x) {
      var k :| 0 <= k < |all| && all[k] == (x, true);
      assert k < n ==> stack[k] == (x, true);
    }
  }

  lemma VisitAbove(stack: Frames, push: seq<ObjectId>, k: nat, p: ObjectId)
    requires stack != [] && k < |stack| && (Above(stack, k, p) || p in push)
    ensures Above(Visit(stack, push), k, p)
  {
    hide Visit;
    VisitAt(stack, push);
    var all, n := Visit(stack, push), |stack| - 1;
    if Above(stack, k, p) {
      var l :| k < l < |stack| && stack[l].0 == p;
      assert all[l].0 == p;
    } else {
      var i :| 0 <= i < |push| && push[i] == p;
      assert all[n + 1 + i].0 == p;
    }
  }

  /** First visit: the node waits under the frames pushed for its parents. A parent
      may be left out only when it was visited before. */
  lemma TopoVisit(
    g: Graph<ObjectId>, starts: set<ObjectId>, visited: set<ObjectId>, result: seq<ObjectId>, stack: Frames,
    push: seq<ObjectId>)
    requires Acyclic(g) && TopoInv(g, starts, visited, result, stack) && stack != []
    requires !stack[|stack| - 1].1 && stack[|stack| - 1].0 !in visited
    requires forall p :: p in push ==> p in Succ(g, stack[|stack| - 1].0)
    requires forall p :: p in Succ(g, stack[|stack| - 1].0) ==> p in push || p in visited
    ensures TopoInv(g, starts, visited + {stack[|stack| - 1].0}, result, Visit(stack, push))
  {
    hide Visit, Above, Grey, Acyclic, Topological, From;
    VisitAt(stack, push);
    var all, n, top := Visit(stack, push), |stack| - 1, stack[|stack| - 1].0;
    forall x ensures Grey(all, x) <==> Grey(stack, x) || x == top { VisitGrey(stack, push, x); }
    forall k, p | 0 <= k < |all| && all[k].1 && p in Succ(g, all[k].0) ensures p in result || Above(all, k, p) {
      if Above(stack, k, p) || p in push {
        VisitAbove(stack, push, k, p);
      } else if k == n {
        ParentFinished(g, starts, visited, result, stack, n, p);
      }
    }
    forall k, l | 0 <= k < l < |all| && all[k].1 ensures Below(g, all[k].0, all[l].0) {
      if l > n { BelowStep(g, all[k].0, top, all[l].0); }
    }
    forall k | 0 <= k < |all| ensures From(g, starts, all[k].0) {
      if k > n { FromStep(g, starts, top, all[k].0); }
    }
    forall x | x in starts && x !in visited + {top} ensures exists k :: 0 <= k < |all| && all[k].0 == x {
      var k :| 0 <= k < |stack| && stack[k].0 == x;
      assert all[k].0 == x;
    }
  }

  lemma FromStep(g: Graph<ObjectId>, starts: set<ObjectId>, x: ObjectId, y: ObjectId)
    requires From(g, starts, x) && y in Succ(g, x)
    ensures From(g, starts, y)
  {
    var r :| r in starts && Reaches(g, r, x);
    ReachStep(g, r, x, y);
  }

  /** The stack is empty: the result is the whole closure in topological order. */
  lemma TopoDone(g: Graph<ObjectId>, starts: set<ObjectId>, visited: set<ObjectId>, result: seq<ObjectId>)
    requires TopoInv(g, starts, visited, result, [])
    ensures Topological(g, result)
    ensures forall x :: x in result <==> From(g, starts, x)
  {
    assert forall x :: x in visited <==> x in result by {
      forall x ensures !Grey([], x) {}
    }
    forall x, y | x in visited && y in Succ(g, x) ensures y in visited {
      var i :| 0 <= i < |result| && result[i] == x;
      assert y in result[..i];
    }
    forall x | From(g, starts, x) ensures x in visited {
      var r :| r in starts && Reaches(g, r, x);
      ReachClosed(g, visited, r);
    }
  }

  /** All snapshots reachable from the starts, each once, parents first. */
  method CollectTopo(store: Store, starts: seq<ObjectId>) returns (result: seq<ObjectId>)
    requires Acyclic(ParentGraph(store))
    ensures Topological(ParentGraph(store), result)
    ensures forall x :: x in result <==> From(ParentGraph(store), Elements(starts), x)
  {
    hide *;
    ghost var g, ss := ParentGraph(store), Elements(starts);
    var visited: set<ObjectId> := {};
    result := [];
    var stack := Pending(starts);
    TopoInit(g, starts);
    while stack != []
      invariant TopoInv(g, ss, visited, result, stack)
      invariant visited <= Universe(g, ss)
      decreases Universe(g, ss) - visited, |stack|
    {
      var (id, finishing) := stack[|stack| - 1];
      if finishing {
        TopoFinish(g, ss, visited, result, stack);
        result := result + [id];
        stack := stack[..|stack| - 1];
      } else if id in visited {
        TopoSkip(g, ss, visited, result, stack);
        stack := stack[..|stack| - 1];
      } else {
        var parents := Reversed(ParentsOf(store, id));
        ParentsSucc(store, id);
        ElementsOf(ParentsOf(store, id));
        TopoVisit(g, ss, visited, result, stack, parents);
        TopoTop(g, ss, visited, result, stack);
        visited := visited + {id};
        stack := Visit(stack, parents);
      }
    }
    TopoDone(g, ss, visited, result);
  }

  lemma TopoTop(g: Graph<ObjectId>, starts: set<ObjectId>, visited: set<ObjectId>, result: seq<ObjectId>, stack: Frames)
    requires TopoInv(g, starts, visited, result, stack) && stack != []
    ensures stack[|stack| - 1].0 in Universe(g, starts) && From(g, starts, stack[|stack| - 1].0)
  {
    var x := stack[|stack| - 1].0;
    var r :| r in starts && Reaches(g, r, x);
    var n: nat :| ReachIn(g, r, x, n);
    if n > 0 { var m :| ReachIn(g, r, m, n - 1) && x in Succ(g, m); }
  }

  function Reversed(s: seq<ObjectId>): (r: seq<ObjectId>)
    ensures forall x :: x in r <==> x in s
  {
    if s == [] then [] else
      assert forall x :: x in s <==> x == s[0] || x in s[1..];
      Reversed(s[1..]) + [s[0]]
  }

  // ----------------------------------------------------------------------
  // Projection to commits
  // ----------------------------------------------------------------------

  /** The mapped parents, in order; an unmapped parent is dropped. */
  function MapParents(parents: seq<ObjectId>, idMap: map<ObjectId, nat>): seq<nat> {
    if parents == [] then []
    else (if parents[0] in idMap then [idMap[parents[0]]] else []) + MapParents(parents[1..], idMap)
  }

  lemma {:induction false} MapParentsAgree(parents: seq<ObjectId>, m: map<ObjectId, nat>, m': map<ObjectId, nat>)
    requires forall p :: p in parents ==> (p in m <==> p in m') && (p in m ==> m[p] == m'[p])
    ensures MapParents(parents, m) == MapParents(parents, m')
  {
    if parents != [] {
      assert parents[0] in parents;
      MapParentsAgree(parents[1..], m, m');
    }
  }

  ghost predicate StoredSnapshot(store: Store, x: ObjectId) {
    x in store && store[x].Snapshot?
  }

  /** The entries of `out` stand, one for one and in order, for the parents at the
      places `pos`, which are exactly the places of the mapped parents. */
  ghost predicate Stands(parents: seq<ObjectId>, idMap: map<ObjectId, nat>, out: seq<nat>, pos: seq<nat>) {
    && |pos| == |out|
    && (forall i, j :: 0 <= i < j < |pos| ==> pos[i] < pos[j])
    && (forall i :: 0 <= i < |pos| ==> pos[i] < |parents|)
    && (forall i :: 0 <= i < |pos| ==> parents[pos[i]] in idMap && out[i] == idMap[parents[pos[i]]])
    && (forall k :: 0 <= k < |parents| && parents[k] in idMap ==> k in pos)
  }

  lemma {:induction false} MapParentsStand(parents: seq<ObjectId>, idMap: map<ObjectId, nat>) returns (pos: seq<nat>)
    ensures Stands(parents, idMap, MapParents(parents, idMap), pos)
  {
    if parents == [] {
      pos := [];
    } else {
      var rest := MapParentsStand(parents[1..], idMap);
      var later := seq(|rest|, i requires 0 <= i < |rest| => rest[i] + 1);
      pos := if parents[0] in idMap then [0] + later else later;
      StandCons(parents, idMap, MapParents(parents[1..], idMap), rest, later, pos);
    }
  }

  lemma StandCons(
    parents: seq<ObjectId>, idMap: map<ObjectId, nat>, out: seq<nat>, rest: seq<nat>, later: seq<nat>, pos: seq<nat>)
    requires parents != [] && Stands(parents[1..], idMap, out, rest)
    requires |later| == |rest| && forall i :: 0 <= i < |rest| ==> later[i] == rest[i] + 1
    requires pos == if parents[0] in idMap then [0] + later else later
    ensures Stands(parents, idMap, (if parents[0] in idMap then [idMap[parents[0]]] else []) + out, pos)
  {
    StandLater(parents, idMap, out, rest, later);
    if parents[0] in idMap {
      StandFirst(parents, idMap, out, later);
    } else {
      assert [] + out == out;
    }
  }

  lemma StandFirst(parents: seq<ObjectId>, idMap: map<ObjectId, nat>, out: seq<nat>, later: seq<nat>)
    requires parents != [] && parents[0] in idMap
    requires |later| == |out| && forall i, j :: 0 <= i < j < |later| ==> later[i] < later[j]
    requires forall i :: 0 <= i < |later| ==> 0 < later[i] < |parents|
    requires forall i :: 0 <= i < |later| ==> parents[later[i]] in idMap && out[i] == idMap[parents[later[i]]]
    requires forall k :: 0 < k < |parents| && parents[k] in idMap ==> k in later
    ensures Stands(parents, idMap, [idMap[parents[0]]] + out, [0] + later)
  {
    var pos, out' := [0] + later, [idMap[parents[0]]] + out;
    forall i | 0 <= i < |pos|
      ensures pos[i] < |parents| && parents[pos[i]] in idMap && out'[i] == idMap[parents[pos[i]]]
    {
      if i > 0 { assert pos[i] == later[i - 1] && out'[i] == out[i - 1]; }
    }
    forall i, j | 0 <= i < j < |pos| ensures pos[i] < pos[j] {
      assert pos[j] == later[j - 1];
      if i > 0 { assert pos[i] == later[i - 1]; }
    }
    assert forall k: nat :: k in pos <==> k == 0 || k in later;
  }

  /** The places of the later parents, counted from the front. */
  lemma StandLater(
    parents: seq<ObjectId>, idMap: map<ObjectId, nat>, out: seq<nat>, rest: seq<nat>, later: seq<nat>)
    requires parents != [] && Stands(parents[1..], idMap, out, rest)
    requires |later| == |rest| && forall i :: 0 <= i < |rest| ==> later[i] == rest[i] + 1
    ensures |later| == |out| && forall i, j :: 0 <= i < j < |later| ==> later[i] < later[j]
    ensures forall i :: 0 <= i < |later| ==> 0 < later[i] < |parents|
    ensures forall i :: 0 <= i < |later| ==> parents[later[i]] in idMap && out[i] == idMap[parents[later[i]]]
    ensures forall k :: 0 < k < |parents| && parents[k] in idMap ==> k in later
  {
    var tail := parents[1..];
    assert forall i :: 0 <= i < |rest| ==> parents[later[i]] == tail[rest[i]];
    forall k | 0 < k < |parents| && parents[k] in idMap ensures k in later {
      assert tail[k - 1] == parents[k];
      var i :| 0 <= i < |rest| && rest[i] == k - 1;
      assert later[i] == k;
    }
  }

  /** With every parent mapped, all places are taken. */
  lemma AllStand(parents: seq<ObjectId>, idMap: map<ObjectId, nat>, out: seq<nat>, pos: seq<nat>)
    requires Stands(parents, idMap, out, pos) && forall p :: p in parents ==> p in idMap
    ensures |out| == |parents| && forall i :: 0 <= i < |parents| ==> out[i] == idMap[parents[i]]
  {
    forall k | 0 <= k < |parents| ensures k in pos { assert parents[k] in parents; }
    AllPlaces(pos, |parents|);
  }

  lemma {:induction false} AllPlaces(pos: seq<nat>, n: nat)
    requires forall i, j :: 0 <= i < j < |pos| ==> pos[i] < pos[j]
    requires forall i :: 0 <= i < |pos| ==> pos[i] < n
    requires forall k :: 0 <= k < n ==> k in pos
    ensures |pos| == n && forall i :: 0 <= i < n ==> pos[i] == i
  {
    assert |pos| == 0 || pos[0] < n;
    if n > 0 {
      assert n - 1 in pos;
      var i :| 0 <= i < |pos| && pos[i] == n - 1;
      var z := |pos| - 1;
      assert i == z;
      var front := pos[..z];
      forall k | 0 <= k < n - 1 ensures k in front {
        assert k in pos;
        var j :| 0 <= j < |pos| && pos[j] == k;
        assert front[j] == k;
      }
      AllPlaces(front, n - 1);
    }
  }

  /** Pass three of the projection: commits are written in topological order, each
      with the parents mapped so far. Looking parents up early loses none: every
      commit has, in their order, exactly its stored snapshot parents. */
  method Project(store: Store, starts: seq<ObjectId>, write: (ObjectId, seq<nat>) -> nat)
    returns (idMap: map<ObjectId, nat>, commits: map<ObjectId, seq<nat>>)
    requires Acyclic(ParentGraph(store))
    ensures forall x :: x in idMap <==> StoredSnapshot(store, x) && From(ParentGraph(store), Elements(starts), x)
    ensures commits.Keys == idMap.Keys && forall x :: x in idMap ==> idMap[x] == write(x, commits[x])
    ensures forall x, p ::
              x in idMap && StoredSnapshot(store, x) && p in store[x].parents && StoredSnapshot(store, p) ==> p in idMap
    ensures forall x :: x in commits && StoredSnapshot(store, x) ==>
              exists pos :: Stands(store[x].parents, idMap, commits[x], pos)
    ensures forall x :: x in commits && StoredSnapshot(store, x) && AllStored(store, store[x].parents) ==>
              && |commits[x]| == |store[x].parents|
              && forall i :: 0 <= i < |commits[x]| ==>
                   store[x].parents[i] in idMap && commits[x][i] == idMap[store[x].parents[i]]
  {
    var ordered := CollectTopo(store, starts);
    ghost var g := ParentGraph(store);
    idMap, commits := map[], map[];
    for i := 0 to |ordered|
      invariant forall x :: x in idMap <==> x in ordered[..i] && StoredSnapshot(store, x)
      invariant commits.Keys == idMap.Keys && forall x :: x in idMap ==> idMap[x] == write(x, commits[x])
      invariant forall x :: x in commits ==> commits[x] == MapParents(ParentsOf(store, x), idMap)
    {
      var id := ordered[i];
      assert id !in ordered[..i] && forall x :: x in ordered[..i + 1] <==> x in ordered[..i] || x == id;
      if id in store && store[id].Snapshot? {
        var parents := MapParents(ParentsOf(store, id), idMap);
        var next := idMap[id := write(id, parents)];
        forall x | x in idMap || x == id
            ensures MapParents(ParentsOf(store, x), idMap) == MapParents(ParentsOf(store, x), next) {
          ParentsBefore(store, ordered, i, x);
          MapParentsAgree(ParentsOf(store, x), idMap, next);
        }
        commits := commits[id := parents];
        idMap := next;
      }
    }
    assert ordered[..|ordered|] == ordered;
    forall x, p | x in idMap && p in store[x].parents && StoredSnapshot(store, p) ensures p in idMap {
      assert p in Succ(g, x);
      FromStep(g, Elements(starts), x, p);
    }
    forall x | x in commits ensures CommitStands(store, idMap, x, commits[x]) {
      CommitIs(store, idMap, x, commits[x]);
    }
    hide Stands, MapParents;
  }

  ghost predicate AllStored(store: Store, ids: seq<ObjectId>) {
    forall p :: p in ids ==> StoredSnapshot(store, p)
  }

  ghost predicate CommitStands(store: Store, idMap: map<ObjectId, nat>, x: ObjectId, out: seq<nat>)
    requires StoredSnapshot(store, x)
  {
    var parents := store[x].parents;
    && (exists pos :: Stands(parents, idMap, out, pos))
    && (AllStored(store, parents) ==>
          |out| == |parents| && forall i :: 0 <= i < |out| ==> parents[i] in idMap && out[i] == idMap[parents[i]])
  }

  lemma CommitIs(store: Store, idMap: map<ObjectId, nat>, x: ObjectId, out: seq<nat>)
    requires StoredSnapshot(store, x) && out == MapParents(ParentsOf(store, x), idMap)
    requires forall p :: p in store[x].parents && StoredSnapshot(store, p) ==> p in idMap
    ensures CommitStands(store, idMap, x, out)
  {
    hide Stands, MapParents;
    var parents := store[x].parents;
    var pos := MapParentsStand(parents, idMap);
    if AllStored(store, parents) {
      AllStand(parents, idMap, out, pos);
      assert forall i :: 0 <= i < |parents| ==> parents[i] in parents;
    }
  }

  /** A node met at position `i` is a parent of nothing up to and including there. */
  lemma ParentsBefore(store: Store, ordered: seq<ObjectId>, i: nat, x: ObjectId)
    requires Topological(ParentGraph(store), ordered) && i < |ordered|
    requires x in ordered[..i + 1] && StoredSnapshot(store, x)
    ensures ordered[i] !in ParentsOf(store, x)
  {
    var k :| 0 <= k <= i && ordered[k] == x;
    assert ordered[i] in ParentsOf(store, x) ==> ordered[i] in Succ(ParentGraph(store), ordered[k]);
    assert ordered[i] !in ordered[..k];
  }

  // ----------------------------------------------------------------------
  // The same sort over imported commits
  // ----------------------------------------------------------------------

  datatype ImportError = MissingCommit(id: ObjectId)

  ghost function CommitGraph(git: map<ObjectId, seq<ObjectId>>): Graph<ObjectId> {
    map id | id in git :: Elements(git[id])
  }

  /** Parents first over a commit graph; only unvisited parents are pushed, and a
      missing commit is an error exactly when one is reachable. */
  method TopoCommits(git: map<ObjectId, seq<ObjectId>>, heads: seq<ObjectId>)
    returns (r: Result<seq<ObjectId>, ImportError>)
    requires Acyclic(CommitGraph(git))
    ensures r.Ok? ==> Topological(CommitGraph(git), r.value)
    ensures r.Ok? ==> forall x :: x in r.value <==> From(CommitGraph(git), Elements(heads), x)
    ensures r.Err? <==> exists x :: From(CommitGraph(git), Elements(heads), x) && x !in git
    ensures r.Ok? ==> forall h :: h in heads ==> h in r.value
    ensures r.Ok? ==>
              forall i :: 0 <= i < |r.value| ==>
                r.value[i] in git && forall p :: p in git[r.value[i]] ==> p in r.value[..i]
  {
    hide *;
    ghost var g, hs := CommitGraph(git), Elements(heads);
    var visited: set<ObjectId> := {};
    var result := [];
    var stack := Pending(heads);
    TopoInit(g, heads);
    while stack != []
      invariant TopoInv(g, hs, visited, result, stack)
      invariant visited <= Universe(g, hs) && visited <= git.Keys
      decreases Universe(g, hs) - visited, |stack|
    {
      var (id, finishing) := stack[|stack| - 1];
      TopoTop(g, hs, visited, result, stack);
      if finishing {
        TopoFinish(g, hs, visited, result, stack);
        result := result + [id];
        stack := stack[..|stack| - 1];
      } else if id in visited {
        TopoSkip(g, hs, visited, result, stack);
        stack := stack[..|stack| - 1];
      } else {
        if id !in git { return Err(MissingCommit(id)); }
        CommitSucc(git, id);
        visited := visited + {id};
        var push := [];
        for j := 0 to |git[id]|
          invariant forall p :: p in push ==> p in git[id]
          invariant forall k :: 0 <= k < j ==> git[id][k] in push || git[id][k] in visited
        {
          if git[id][j] !in visited { push := push + [git[id][j]]; }
        }
        NotOwnParent(g, id);
        TopoVisit(g, hs, visited - {id}, result, stack, push);
        assert visited - {id} + {id} == visited;
        stack := Visit(stack, push);
      }
    }
    TopoDone(g, hs, visited, result);
    AllVisited(g, hs, visited, result);
    ParentsFirst(git, heads, result);
    r := Ok(result);
  }

  lemma ParentsFirst(git: map<ObjectId, seq<ObjectId>>, heads: seq<ObjectId>, result: seq<ObjectId>)
    requires Topological(CommitGraph(git), result) && forall x :: x in result ==> x in git
    requires forall x :: From(CommitGraph(git), Elements(heads), x) ==> x in result
    ensures forall h :: h in heads ==> h in result
    ensures forall i :: 0 <= i < |result| ==> result[i] in git && forall p :: p in git[result[i]] ==> p in result[..i]
  {
    hide Reaches;
    var g := CommitGraph(git);
    forall h | h in heads ensures h in result {
      ReachRefl(g, h);
      assert From(g, Elements(heads), h);
    }
    forall i | 0 <= i < |result|
      ensures result[i] in git && forall p :: p in git[result[i]] ==> p in result[..i]
    {
      assert result[i] in result;
      CommitSucc(git, result[i]);
    }
  }

  lemma AllVisited(g: Graph<ObjectId>, starts: set<ObjectId>, visited: set<ObjectId>, result: seq<ObjectId>)
    requires TopoInv(g, starts, visited, result, [])
    ensures forall x :: x in result ==> x in visited
  {
  }

  lemma CommitSucc(git: map<ObjectId, seq<ObjectId>>, id: ObjectId)
    requires id in git
    ensures forall p :: p in git[id] <==> p in Succ(CommitGraph(git), id)
  {
  }

  lemma NotOwnParent(g: Graph<ObjectId>, id: ObjectId)
    requires Acyclic(g)
    ensures id !in Succ(g, id)
  {
    ReachRefl(g, id);
  }
}
