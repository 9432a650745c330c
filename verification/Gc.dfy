/** Garbage collection: mark from the refs, then sweep the backend. */
module Gc {
  import opened Wrappers
  import opened Reach
  import opened Objects
  import opened Refs
  import opened Packed
  import opened Trees
  import opened Walks
  import opened Conservation

  /** What the refs point at. */
  function Targets(refs: RefMap): set<ObjectId> {
    set n | n in refs :: if refs[n].TimelineRef? then refs[n].timeline.head else refs[n].tag.target
  }

  /** The simple sweep of a backend without packs: forget everything unreachable. */
  method DefaultSweep(store: Store, reachable: set<ObjectId>) returns (after: Store, removed: nat)
    ensures after == store - (store.Keys - reachable)
    ensures removed == |store.Keys - reachable|
  {
    after, removed := store, 0;
    var todo := store.Keys;
    ghost var gone: set<ObjectId> := {};
    while todo != {}
      invariant forall x :: x in gone <==> x in store && x !in todo && x !in reachable
      invariant todo <= store.Keys && after == store - gone && removed == |gone|
      decreases todo
    {
      var id :| id in todo;
      if id !in reachable {
        after := after - {id};
        removed := removed + 1;
        gone := gone + {id};
      }
      todo := todo - {id};
    }
    assert gone == store.Keys - reachable;
  }

  /** A finished packed sweep keeps exactly what the simple sweep keeps if and only if
      the new pack's name was fresh, unless nothing was to be kept, and the grace window
      protects no unreachable object. */
  lemma PackedSweepIsSimple(d: Disk, d': Disk, reachable: set<ObjectId>, grace: nat, now: nat, isFresh: bool)
    requires SweepResult(d, d', reachable, grace, now, isFresh)
    ensures Readable(d') == Readable(d) * reachable <==>
            && (isFresh || Readable(d) * reachable == {})
            && (forall x :: x in d.loose && x !in reachable ==> !PackedDiskBackend.InGrace(d.loose[x], grace, now))
  {
    hide SaturatingAdd;
    forall x: ObjectId ensures x in Readable(d) * reachable <==> x in Readable(d) && x in reachable {}
    if x :| x in Readable(d) * reachable && !isFresh { assert x !in Readable(d'); }
    if x :| x in d.loose && x !in reachable && PackedDiskBackend.InGrace(d.loose[x], grace, now) {
      assert x in Readable(d') && x !in Readable(d) * reachable;
    }
  }

  class Repository {
    var refs: RefMap
    const backend: PackedDiskBackend

    constructor (backend: PackedDiskBackend, refs: RefMap)
      ensures this.backend == backend && this.refs == refs
    {
      this.backend, this.refs := backend, refs;
    }

    /** The closure of the roots under the mark edges: the least set that holds the roots
        and, of every readable member, the tree and all parents of a snapshot, every entry
        of a tree and every secret of an overlay. */
    method MarkReachable(roots: seq<ObjectId>) returns (reachable: set<ObjectId>)
      requires backend.Valid() && backend.Loaded()
      ensures forall x :: x in reachable <==> From(MarkGraph(backend.Contents()), Elements(roots), x)
      ensures (forall x :: x in roots ==> x in reachable) && Retains(backend.Contents(), reachable)
      ensures forall s :: (forall x :: x in roots ==> x in s) && Retains(backend.Contents(), s) ==> reachable <= s
    {
      hide *;
      ghost var store := backend.Contents();
      ghost var g, rs := MarkGraph(store), Elements(roots);
      reachable := {};
      var stack := roots;
      SearchInit(g, roots);
      while stack != []
        invariant SearchInv(g, rs, reachable, stack)
        decreases Universe(g, rs) - reachable, |stack|
      {
        var id := stack[|stack| - 1];
        SearchTop(g, rs, reachable, stack);
        if id in reachable {
          SearchDrop(g, rs, reachable, stack);
          stack := stack[..|stack| - 1];
        } else {
          var o := backend.GetObject(id);
          var next := [];
          if o.Some? { next := Sorted(MarkEdges(o.value)); }
          MarkSucc(backend, id, o, next);
          SearchExpand(g, rs, reachable, stack, next);
          reachable := reachable + {id};
          stack := stack[..|stack| - 1] + next;
        }
      }
      SearchDone(g, rs, reachable);
      LeastRetained(store, roots, reachable);
    }

    /** Everything the collector starts from. */
    ghost function Roots(extra: seq<ObjectId>): set<ObjectId>
      reads this
    {
      Elements(extra) + Targets(refs)
    }

    /** The set the mark phase computes. */
    ghost function Marked(extra: seq<ObjectId>): set<ObjectId>
      reads this, backend
    {
      MarkedIn(backend.Contents(), Roots(extra))
    }

    /** The pack the sweep will write gets a name no loaded pack has. */
    ghost predicate FreshName(extra: seq<ObjectId>, listing: seq<ObjectId>, digest: seq<ObjectId> -> PackName)
      requires backend.Loaded()
      reads this, backend
    {
      digest(Copied(extra, listing)) !in backend.packs
    }

    /** The ids the sweep will copy forward. */
    ghost function Copied(extra: seq<ObjectId>, listing: seq<ObjectId>): seq<ObjectId>
      requires backend.Loaded()
      reads this, backend
    {
      Sources(backend.disk, backend.packs, listing, Some(Marked(extra)))
    }

    /** Mark and sweep. With a fresh pack name a crash at any point keeps every
        readable object the roots lead to; a finished run keeps these and, beside
        them, only unreachable loose objects inside the grace window. */
    method CollectGarbage(
      extra: seq<ObjectId>, listing: seq<ObjectId>, grace: nat, now: nat, digest: seq<ObjectId> -> PackName,
      budget: nat)
      returns (s: Status, removed: nat)
      requires backend.Valid() && backend.Loaded() && IsListing(backend.disk, listing)
      modifies backend
      ensures backend.Valid() && (s.Completed? ==> backend.Loaded())
      ensures Readable(backend.disk) <= old(Readable(backend.disk))
      ensures old(FreshName(extra, listing, digest)) ==>
                forall x :: x in old(Readable(backend.disk)) && x in old(Marked(extra)) ==> x in Readable(backend.disk)
      ensures s.Completed? ==>
                SweepResult(old(backend.disk), backend.disk, old(Marked(extra)), grace, now,
                            old(FreshName(extra, listing, digest)))
      ensures forall x :: x in backend.disk.loose ==> x in old(backend.disk).loose
      ensures old(FreshName(extra, listing, digest)) ==>
                forall n, x :: n in refs && x in old(Readable(backend.disk)) ==>
                  && (refs[n].TimelineRef? &&
                      Reaches(ParentGraph(old(backend.Contents())), refs[n].timeline.head, x) ==>
                        x in Readable(backend.disk))
                  && (refs[n].TagRef? && Reaches(ParentGraph(old(backend.Contents())), refs[n].tag.target, x) ==>
                        x in Readable(backend.disk))
      ensures s.Completed? && old(FreshName(extra, listing, digest)) && old(Copied(extra, listing)) != [] ==>
                OnlyPack(backend.disk, backend.packs, digest(old(Copied(extra, listing))), old(Copied(extra, listing)))
    {
      hide *;
      var roots := extra + Sorted(Targets(refs));
      var reachable := MarkReachable(roots);
      MarkedIs(extra, roots, reachable);
      FreshIs(extra, listing, digest, reachable);
      NowIs(extra);
      HistoryMarked(backend.Contents(), refs, Roots(extra));
      s, removed := backend.Sweep(listing, reachable, grace, now, digest, budget);
    }

    /** The same, with what it means for the trees: after collecting under a fresh name,
        at whatever point it ended, every readable snapshot in the history of a ref is
        readable and every walk of its tree ends as it did before. */
    method CollectKeepingHistory(
      extra: seq<ObjectId>, listing: seq<ObjectId>, grace: nat, now: nat, digest: seq<ObjectId> -> PackName,
      budget: nat, ghost rank: ObjectId -> nat)
      returns (s: Status, removed: nat)
      requires backend.Valid() && backend.Loaded() && IsListing(backend.disk, listing)
      requires Nested(backend.Contents(), rank)
      modifies backend
      ensures Nested(backend.Contents(), rank)
      ensures old(FreshName(extra, listing, digest)) ==>
                forall n, x ::
                  && n in refs && x in old(backend.Contents()) && old(backend.Contents())[x].Snapshot?
                  && (refs[n].TimelineRef? ==> Reaches(ParentGraph(old(backend.Contents())), refs[n].timeline.head, x))
                  && (refs[n].TagRef? ==> Reaches(ParentGraph(old(backend.Contents())), refs[n].tag.target, x)) ==>
                    SnapshotKept(old(backend.Contents()), backend.Contents(), x, rank)
    {
      hide *;
      ghost var store, m := backend.Contents(), Marked(extra);
      NowIs(extra);
      s, removed := CollectGarbage(extra, listing, grace, now, digest, budget);
      ContentsKept(store, m);
      NestedStill(store, backend.Contents(), rank);
      HistoryMarked(store, refs, Roots(extra));
      MarkedRetains(store, Roots(extra));
      if old(FreshName(extra, listing, digest)) {
        forall x | x in store && store[x].Snapshot? && x in m ensures SnapshotKept(store, backend.Contents(), x, rank) {
          SnapshotStays(store, backend.Contents(), m, x, rank);
        }
      }
    }

    lemma FreshIs(
      extra: seq<ObjectId>, listing: seq<ObjectId>, digest: seq<ObjectId> -> PackName, reachable: set<ObjectId>)
      requires backend.Loaded() && reachable == Marked(extra)
      ensures FreshName(extra, listing, digest) <==>
              digest(Sources(backend.disk, backend.packs, listing, Some(reachable))) !in backend.packs
      ensures Copied(extra, listing) == Sources(backend.disk, backend.packs, listing, Some(reachable))
    {
    }

    /** Collecting twice in a row from a lone pack loses every object the roots lead to:
        the second run names its pack as the first did, and deletes it. */
    method CollectTwice(
      extra: seq<ObjectId>, listing: seq<ObjectId>, grace: nat, now: nat, digest: seq<ObjectId> -> PackName,
      budget: nat)
      returns (first: Status, second: Status)
      requires backend.Valid() && backend.Loaded() && IsListing(backend.disk, listing)
      requires |backend.packs| == 1 && forall x :: x in backend.disk.loose ==> x !in Marked(extra)
      modifies backend
      ensures first.Completed? && second.Completed? ==>
                forall x :: x in old(Marked(extra)) ==> x !in Readable(backend.disk)
    {
      hide Sources, Sorted, MarkedIn, Sound, IsListing, Loads;
      ghost var d, n, store, m := backend.disk, backend.packs[0], backend.Contents(), Marked(extra);
      assert backend.packs == [n];
      ghost var ids := Sources(d, [n], listing, Some(m));
      SourcesElements(d, [n], listing, Some(m));
      var removed;
      first, removed := CollectGarbage(extra, listing, grace, now, digest, budget);
      second := Crashed;
      if first.Crashed? { return; }
      ghost var d1 := backend.disk;
      var again := Sorted(backend.disk.loose.Keys);
      AnyListing(d1);
      if ids != [] && digest(ids) != n {
        MarkedStable(store, backend.Contents(), Roots(extra));
        SameNameAgain(d, n, listing, Some(m), d1, digest(ids), again);
      } else {
        assert forall x :: x in m ==> x !in Readable(d1);
      }
      second, removed := CollectGarbage(extra, again, grace, now, digest, budget);
    }

    /** What the backend reads after the run, against what it read before. */
    lemma ContentsKept(store: Store, m: set<ObjectId>)
      requires Readable(backend.disk) <= store.Keys
      requires forall x :: x in store ==> store[x] == backend.content(x)
      ensures Extends(backend.Contents(), store)
      ensures (forall x :: x in store && x in m ==> x in Readable(backend.disk)) ==>
                AgreeOn(store, backend.Contents(), m)
    {
      hide Readable;
    }

    lemma NowIs(extra: seq<ObjectId>)
      ensures Targets(refs) <= Roots(extra) && Marked(extra) == MarkedIn(backend.Contents(), Roots(extra))
      ensures backend.Contents().Keys == Readable(backend.disk)
      ensures forall x :: x in backend.Contents() ==> backend.Contents()[x] == backend.content(x)
    {
      hide Readable;
    }

    lemma MarkedIs(extra: seq<ObjectId>, roots: seq<ObjectId>, reachable: set<ObjectId>)
      requires roots == extra + Sorted(Targets(refs))
      requires forall x :: x in reachable <==> From(MarkGraph(backend.Contents()), Elements(roots), x)
      ensures reachable == Marked(extra)
    {
      assert Elements(roots) == Roots(extra);
      MarkedElements(backend.Contents(), Roots(extra));
    }
  }

  /** The snapshot is there as it was and its tree walks as it did, under every view. */
  ghost predicate SnapshotKept(store: Store, store': Store, x: ObjectId, rank: ObjectId -> nat)
    requires x in store && store[x].Snapshot? && Nested(store, rank) && Nested(store', rank)
  {
    && x in store' && store'[x] == store[x]
    && (Broken(store, store[x].root) <==> Broken(store', store[x].root))
    && forall view :: WalkMap(store, store[x].root, rank, view) == WalkMap(store', store[x].root, rank, view)
  }

  lemma SnapshotStays(store: Store, store': Store, m: set<ObjectId>, x: ObjectId, rank: ObjectId -> nat)
    requires Retains(store, m) && AgreeOn(store, store', m) && x in m && x in store && store[x].Snapshot?
    requires Nested(store, rank) && Nested(store', rank)
    ensures SnapshotKept(store, store', x, rank)
  {
    assert store[x].root in m;
    hide Retains, Nested, WalkMap, Broken;
    WalkKept(store, store', m, store[x].root, rank);
  }

  lemma NestedStill(store: Store, store': Store, rank: ObjectId -> nat)
    requires Nested(store, rank) && Extends(store', store)
    ensures Nested(store', rank)
  {
  }

  /** The marked set is the least one that retains what it holds. */
  lemma LeastRetained(store: Store, roots: seq<ObjectId>, reachable: set<ObjectId>)
    requires forall x :: x in reachable <==> From(MarkGraph(store), Elements(roots), x)
    ensures (forall x :: x in roots ==> x in reachable) && Retains(store, reachable)
    ensures forall s :: (forall x :: x in roots ==> x in s) && Retains(store, s) ==> reachable <= s
  {
    hide Reaches, Retains;
    var g := MarkGraph(store);
    forall x | x in roots ensures x in reachable {
      ReachRefl(g, x);
      assert x in Elements(roots);
    }
    forall x, y | x in reachable && y in Succ(g, x) ensures y in reachable {
      var r :| r in Elements(roots) && Reaches(g, r, x);
      ReachStep(g, r, x, y);
    }
    EdgesMean(store, reachable);
    forall s | (forall x :: x in roots ==> x in s) && Retains(store, s) ensures reachable <= s {
      EdgesMean(store, s);
      forall x | x in reachable ensures x in s {
        var r :| r in Elements(roots) && Reaches(g, r, x);
        ReachClosed(g, s, r);
      }
    }
  }

  lemma MarkedRetains(store: Store, roots: set<ObjectId>)
    ensures roots <= MarkedIn(store, roots) && Retains(store, MarkedIn(store, roots))
  {
    hide Reaches, Retains, MarkedIn;
    var g, m := MarkGraph(store), MarkedIn(store, roots);
    MarkedElements(store, roots);
    forall x | x in roots ensures x in m { ReachRefl(g, x); }
    forall x, y | x in m && y in Succ(g, x) ensures y in m {
      var r :| r in roots && Reaches(g, r, x);
      ReachStep(g, r, x, y);
    }
    EdgesMean(store, m);
  }

  /** Every ancestor of a timeline's head or of a tag's target is marked. */
  lemma HistoryMarked(store: Store, refs: RefMap, roots: set<ObjectId>)
    requires Targets(refs) <= roots
    ensures forall n, x :: n in refs ==>
              && (refs[n].TimelineRef? && Reaches(ParentGraph(store), refs[n].timeline.head, x) ==>
                    x in MarkedIn(store, roots))
              && (refs[n].TagRef? && Reaches(ParentGraph(store), refs[n].tag.target, x) ==> x in MarkedIn(store, roots))
  {
    hide Reaches, MarkedIn, Retains;
    var m := MarkedIn(store, roots);
    MarkedRetains(store, roots);
    TargetsMean(refs);
    forall n, x: ObjectId | n in refs
      ensures refs[n].TimelineRef? && Reaches(ParentGraph(store), refs[n].timeline.head, x) ==> x in m
      ensures refs[n].TagRef? && Reaches(ParentGraph(store), refs[n].tag.target, x) ==> x in m
    {
      if refs[n].TimelineRef? && Reaches(ParentGraph(store), refs[n].timeline.head, x) {
        AncestorsIn(store, m, refs[n].timeline.head, x);
      }
      if refs[n].TagRef? && Reaches(ParentGraph(store), refs[n].tag.target, x) {
        AncestorsIn(store, m, refs[n].tag.target, x);
      }
    }
  }

  /** The roots a ref map gives: every timeline's head and every tag's target. */
  lemma TargetsMean(refs: RefMap)
    ensures forall n :: n in refs && refs[n].TimelineRef? ==> refs[n].timeline.head in Targets(refs)
    ensures forall n :: n in refs && refs[n].TagRef? ==> refs[n].tag.target in Targets(refs)
    ensures forall x :: x in Targets(refs) ==>
              exists n :: n in refs && x == if refs[n].TagRef? then refs[n].tag.target else refs[n].timeline.head
  {
  }

  /** The closure of the roots under the mark edges. */
  ghost function MarkedIn(store: Store, roots: set<ObjectId>): set<ObjectId> {
    var g := MarkGraph(store);
    set x | x in Universe(g, roots) && From(g, roots, x)
  }

  lemma MarkedElements(store: Store, roots: set<ObjectId>)
    ensures forall x :: x in MarkedIn(store, roots) <==> From(MarkGraph(store), roots, x)
  {
    hide Reaches;
    var g := MarkGraph(store);
    forall x | From(g, roots, x) ensures x in Universe(g, roots) {
      var r :| r in roots && Reaches(g, r, x);
      InUniverse(g, roots, r, x);
    }
  }

  /** Losing only what is not marked changes nothing for the next marking. */
  lemma MarkedStable(store: Store, store': Store, roots: set<ObjectId>)
    requires Extends(store', store)
    requires forall id :: id in store && id in MarkedIn(store, roots) ==> id in store'
    ensures MarkedIn(store', roots) == MarkedIn(store, roots)
  {
    hide Reaches, MarkedIn;
    var g, g' := MarkGraph(store), MarkGraph(store');
    MarkedElements(store, roots);
    MarkedElements(store', roots);
    forall x ensures From(g', roots, x) <==> From(g, roots, x) {
      if From(g', roots, x) {
        var r :| r in roots && Reaches(g', r, x);
        ReachMono(g', g, r, x);
      }
      if From(g, roots, x) {
        var r :| r in roots && Reaches(g, r, x);
        StillMarked(store, store', roots, r, x);
      }
    }
  }

  lemma StillMarked(store: Store, store': Store, roots: set<ObjectId>, r: ObjectId, x: ObjectId)
    requires Extends(store', store) && r in roots && Reaches(MarkGraph(store), r, x)
    requires forall id :: id in store && id in MarkedIn(store, roots) ==> id in store'
    ensures From(MarkGraph(store'), roots, x)
  {
    var n: nat :| ReachIn(MarkGraph(store), r, x, n);
    StillMarkedIn(store, store', roots, r, x, n);
  }

  lemma {:induction false} StillMarkedIn(
    store: Store, store': Store, roots: set<ObjectId>, r: ObjectId, x: ObjectId, n: nat)
    requires Extends(store', store) && r in roots && ReachIn(MarkGraph(store), r, x, n)
    requires forall id :: id in store && id in MarkedIn(store, roots) ==> id in store'
    ensures From(MarkGraph(store'), roots, x)
    decreases n
  {
    hide Reaches, MarkedIn;
    var g, g' := MarkGraph(store), MarkGraph(store');
    if n == 0 {
      ReachRefl(g', r);
    } else {
      var m :| ReachIn(g, r, m, n - 1) && x in Succ(g, m);
      StillMarkedIn(store, store', roots, r, m, n - 1);
      MarkedElements(store, roots);
      assert Reaches(g, r, m) by { ReachesIn(g, r, m, n - 1); }
      assert From(g, roots, m) && m in store';
      var s :| s in roots && Reaches(g', s, m);
      ReachStep(g', s, m, x);
    }
  }

  lemma ReachesIn(g: Graph<ObjectId>, a: ObjectId, b: ObjectId, n: nat)
    requires ReachIn(g, a, b, n)
    ensures Reaches(g, a, b)
  {
  }

  lemma InUniverse(g: Graph<ObjectId>, roots: set<ObjectId>, r: ObjectId, x: ObjectId)
    requires r in roots && Reaches(g, r, x)
    ensures x in Universe(g, roots)
  {
    var n: nat :| ReachIn(g, r, x, n);
    if n > 0 {
      var m :| ReachIn(g, r, m, n - 1) && x in Succ(g, m);
    }
  }

  lemma MarkSucc(b: PackedDiskBackend, id: ObjectId, o: Option<Object>, next: seq<ObjectId>)
    requires o == if id in Readable(b.disk) then Some(b.content(id)) else None
    requires next == if o.Some? then Sorted(MarkEdges(o.value)) else []
    ensures Elements(next) == Succ(MarkGraph(b.Contents()), id)
  {
  }
}
