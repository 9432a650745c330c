/** What survives when a store changes but agrees on a set of objects that holds
    whatever its members need: histories, trees and what a walk finds. */
module Conservation {
  import opened Wrappers
  import opened Reach
  import opened Objects
  import opened Trees
  import opened Walks

  /** The two stores hold the same objects of the set. */
  ghost predicate AgreeOn(store: Store, store': Store, s: set<ObjectId>) {
    forall id :: id in s ==> (id in store <==> id in store') && (id in store ==> store'[id] == store[id])
  }

  lemma {:induction false} AncestorsIn(store: Store, s: set<ObjectId>, a: ObjectId, x: ObjectId)
    requires Retains(store, s) && a in s && Reaches(ParentGraph(store), a, x)
    ensures x in s
  {
    hide Reaches;
    assert Closed(ParentGraph(store), s);
    ReachClosed(ParentGraph(store), s, a);
  }

  /** Every directory below a root of the set is in the set, and in both stores alike. */
  lemma {:induction false} DirsKept(store: Store, store': Store, s: set<ObjectId>, root: ObjectId, c: Segments)
    requires Retains(store, s) && AgreeOn(store, store', s) && root in s
    ensures DirAt(store, root, c) == DirAt(store', root, c)
    ensures DirAt(store, root, c).Some? ==> DirAt(store, root, c).value in s
    decreases |c|
  {
    if c != [] { DirsKept(store, store', s, root, Init(c)); }
  }

  lemma FilesKept(store: Store, store': Store, s: set<ObjectId>, root: ObjectId, q: Segments)
    requires Retains(store, s) && AgreeOn(store, store', s) && root in s && q != []
    ensures FileAt(store, root, q) == FileAt(store', root, q)
    ensures FileAt(store, root, q).Some? ==> FileAt(store, root, q).value in s
  {
    hide DirAt;
    DirsKept(store, store', s, root, Init(q));
  }

  lemma EntriesKept(store: Store, store': Store, s: set<ObjectId>, item: Item)
    requires Retains(store, s) && AgreeOn(store, store', s) && item.id in s
    ensures FilesIn(store, item) == FilesIn(store', item) && DirsIn(store, item) == DirsIn(store', item)
    ensures forall x :: x in DirsIn(store, item) ==> x.id in s
  {
    hide Blobs, Dirs, InOrder;
    var entries := EntriesOf(store, item.id);
    assert EntriesOf(store', item.id) == entries;
    DirsAre(entries, InOrder(entries.Keys), item.prefix, item.depth + 1);
  }

  lemma {:induction false} VisitsKept(store: Store, store': Store, s: set<ObjectId>, item: Item, rank: ObjectId -> nat)
    requires Retains(store, s) && AgreeOn(store, store', s) && item.id in s
    requires Nested(store, rank) && Nested(store', rank)
    ensures Visits(store, item, rank) == Visits(store', item, rank)
    ensures forall x :: x in Visits(store, item, rank) ==> x.id in s
    decreases rank(item.id)
  {
    hide Retains, AgreeOn, Nested, DirsIn, FilesIn, Unwind, Visits;
    EntriesKept(store, store', s, item);
    DirsLower(store, item, rank);
    VisitsUnfold(store, item, rank);
    VisitsUnfold(store', item, rank);
    var dirs := DirsIn(store, item);
    forall i | 0 <= i < |dirs|
      ensures Visits(store, dirs[i], rank) == Visits(store', dirs[i], rank)
      ensures forall x :: x in Visits(store, dirs[i], rank) ==> x.id in s
    {
      assert dirs[i] in dirs;
      VisitsKept(store, store', s, dirs[i], rank);
    }
    assert Each(store, dirs, rank) == Each(store', dirs, rank);
    UnwindElements(Each(store, dirs, rank));
  }

  lemma {:induction false} EmissionsKept(store: Store, store': Store, s: set<ObjectId>, visits: seq<Item>)
    requires Retains(store, s) && AgreeOn(store, store', s) && forall x :: x in visits ==> x.id in s
    ensures Emissions(store, visits) == Emissions(store', visits)
  {
    hide Retains, AgreeOn, FilesIn, DirsIn;
    if visits != [] {
      var front, z := visits[..|visits| - 1], visits[|visits| - 1];
      assert visits == front + [z];
      assert z in visits && forall x :: x in front ==> x in visits;
      EmissionsKept(store, store', s, front);
      EntriesKept(store, store', s, z);
    }
  }

  /** Walking a tree whose root is in the set gives the same in both stores. */
  lemma WalkKept(store: Store, store': Store, s: set<ObjectId>, root: ObjectId, rank: ObjectId -> nat)
    requires Retains(store, s) && AgreeOn(store, store', s) && root in s
    requires Nested(store, rank) && Nested(store', rank)
    ensures Broken(store, root) <==> Broken(store', root)
    ensures forall view :: WalkMap(store, root, rank, view) == WalkMap(store', root, rank, view)
  {
    hide Retains, AgreeOn, Nested, Visits, Emissions, DirAt;
    var start := Item(root, "", 0);
    VisitsKept(store, store', s, start, rank);
    EmissionsKept(store, store', s, Visits(store, start, rank));
    forall id: ObjectId ensures BrokenBy(store, root, id) <==> BrokenBy(store', root, id) {
      BrokenKept(store, store', s, root, id);
    }
  }

  lemma BrokenKept(store: Store, store': Store, s: set<ObjectId>, root: ObjectId, id: ObjectId)
    requires Retains(store, s) && AgreeOn(store, store', s) && root in s
    ensures BrokenBy(store, root, id) <==> BrokenBy(store', root, id)
  {
    hide Retains, DirAt;
    forall c
      ensures DirAt(store, root, c) == DirAt(store', root, c)
      ensures DirAt(store, root, c).Some? ==> DirAt(store, root, c).value in s
    {
      DirsKept(store, store', s, root, c);
    }
  }
}
