/** The content-addressed object model. Ids are opaque; equal ids stand for equal
    content, so an object is carried whole in place of its serialized bytes. */
module Objects {
  import opened Wrappers
  import opened Reach

  datatype EntryKind = BlobEntry | TreeEntry

  datatype Entry = Entry(id: ObjectId, kind: EntryKind)

  datatype EnvValue = Plain(text: string) | SecretRef(id: ObjectId)

  datatype HookSpec = HookSpec(kind: string, pattern: string, params: map<string, nat>)

  datatype Object =
    | Blob(bytes: seq<nat>)
    | Tree(entries: map<string, Entry>)
    | Snapshot(root: ObjectId, parents: seq<ObjectId>, author: string, createdAt: nat, message: string)
    | EnvOverlay(values: map<string, EnvValue>)
    | PolicyRoot(lattice: ObjectId, rules: ObjectId, parent: Option<ObjectId>, hooks: seq<HookSpec>)
    | Opaque(tag: string, bytes: seq<nat>) // secrets, other policy payloads, collaboration records

  type Store = map<ObjectId, Object>

  /** Every object of `store` is in `store'` too: an id always names the same content. */
  ghost predicate Extends(store: Store, store': Store) {
    forall id :: id in store ==> id in store' && store'[id] == store[id]
  }

  /** A snapshot's files by path. */
  type Files = map<string, ObjectId>

  /** The ids named by a tree's entries. */
  function EntryIds(entries: map<string, Entry>): set<ObjectId> {
    set n | n in entries :: entries[n].id
  }

  /** The ids of the secrets an overlay refers to. */
  function SecretIds(values: map<string, EnvValue>): set<ObjectId> {
    set n | n in values && values[n].SecretRef? :: values[n].id
  }

  /** The edges garbage collection marks along: policy roots are leaves here. */
  function MarkEdges(o: Object): set<ObjectId> {
    match o
    case Snapshot(root, parents, _, _, _) => {root} + set p | p in parents
    case Tree(entries) => EntryIds(entries)
    case EnvOverlay(values) => SecretIds(values)
    case _ => {}
  }

  /** The edges synchronization transfers along: policy roots are followed. */
  function ChildEdges(o: Object): set<ObjectId> {
    match o
    case PolicyRoot(lattice, rules, parent, _) => {lattice, rules} + if parent.Some? then {parent.value} else {}
    case _ => MarkEdges(o)
  }

  ghost function MarkGraph(store: Store): Graph<ObjectId> {
    map id | id in store :: MarkEdges(store[id])
  }

  ghost function ChildGraph(store: Store): Graph<ObjectId> {
    map id | id in store :: ChildEdges(store[id])
  }

  /** The snapshot history: parents of each stored snapshot. */
  ghost function ParentGraph(store: Store): Graph<ObjectId> {
    map id | id in store && store[id].Snapshot? :: set p | p in store[id].parents
  }

  /** What a stored object of the set needs is in the set: of a snapshot its tree and all
      its parents, of a tree every entry, of an overlay every secret. */
  ghost predicate Retains(store: Store, s: set<ObjectId>) {
    forall id :: id in s && id in store ==>
      && (store[id].Snapshot? ==> store[id].root in s && forall p :: p in store[id].parents ==> p in s)
      && (store[id].Tree? ==> forall n :: n in store[id].entries ==> store[id].entries[n].id in s)
      && (store[id].EnvOverlay? ==>
            forall n :: n in store[id].values && store[id].values[n].SecretRef? ==> store[id].values[n].id in s)
  }

  /** And of a policy root its lattice, its rules and its parent. */
  ghost predicate RetainsPolicy(store: Store, s: set<ObjectId>) {
    forall id :: id in s && id in store && store[id].PolicyRoot? ==>
      && store[id].lattice in s && store[id].rules in s
      && (store[id].parent.Some? ==> store[id].parent.value in s)
  }

  /** The mark edges are exactly those needs, the transfer edges the policy roots' too. */
  lemma EdgesMean(store: Store, s: set<ObjectId>)
    ensures Closed(MarkGraph(store), s) <==> Retains(store, s)
    ensures Closed(ChildGraph(store), s) <==> Retains(store, s) && RetainsPolicy(store, s)
  {
    forall id | id in s && id in store ensures MarkEdges(store[id]) <= s <==> NeedsIn(store[id], s) {
      EdgesOfOne(store[id], s);
    }
    forall id | id in s && id in store
      ensures ChildEdges(store[id]) <= s <==> NeedsIn(store[id], s) && PolicyNeedsIn(store[id], s)
    {
      EdgesOfOne(store[id], s);
    }
    hide MarkEdges, ChildEdges;
    assert Closed(MarkGraph(store), s) <==> forall id :: id in s && id in store ==> MarkEdges(store[id]) <= s by {
      assert forall id :: Succ(MarkGraph(store), id) == if id in store then MarkEdges(store[id]) else {};
    }
    assert Closed(ChildGraph(store), s) <==> forall id :: id in s && id in store ==> ChildEdges(store[id]) <= s by {
      assert forall id :: Succ(ChildGraph(store), id) == if id in store then ChildEdges(store[id]) else {};
    }
  }

  ghost predicate NeedsIn(o: Object, s: set<ObjectId>) {
    && (o.Snapshot? ==> o.root in s && forall p :: p in o.parents ==> p in s)
    && (o.Tree? ==> forall n :: n in o.entries ==> o.entries[n].id in s)
    && (o.EnvOverlay? ==> forall n :: n in o.values && o.values[n].SecretRef? ==> o.values[n].id in s)
  }

  ghost predicate PolicyNeedsIn(o: Object, s: set<ObjectId>) {
    o.PolicyRoot? ==> o.lattice in s && o.rules in s && (o.parent.Some? ==> o.parent.value in s)
  }

  lemma EdgesOfOne(o: Object, s: set<ObjectId>)
    ensures MarkEdges(o) <= s <==> NeedsIn(o, s)
    ensures ChildEdges(o) <= s <==> NeedsIn(o, s) && PolicyNeedsIn(o, s)
  {
    match o {
      case Tree(entries) =>
        assert forall n :: n in entries ==> entries[n].id in MarkEdges(o);
      case EnvOverlay(values) =>
        assert forall n :: n in values && values[n].SecretRef? ==> values[n].id in MarkEdges(o);
      case Snapshot(root, parents, _, _, _) =>
        assert forall p :: p in parents ==> p in MarkEdges(o);
      case _ =>
    }
  }

  /** Every policy root that marking reaches has its lattice, rules and parent
      marked by some other way. */
  ghost predicate RootsCovered(store: Store, roots: set<ObjectId>) {
    forall id, y ::
      id in store && store[id].PolicyRoot? && From(MarkGraph(store), roots, id) && y in ChildEdges(store[id]) ==>
        From(MarkGraph(store), roots, y)
  }

  /** Marking and transferring reach the same objects if and only if every marked
      policy root's own references are marked anyway. */
  lemma EdgesAgree(store: Store, roots: set<ObjectId>)
    ensures (forall x :: From(MarkGraph(store), roots, x) <==> From(ChildGraph(store), roots, x)) <==>
            RootsCovered(store, roots)
  {
    hide Reaches;
    var mark, child := MarkGraph(store), ChildGraph(store);
    forall x | From(mark, roots, x) ensures From(child, roots, x) {
      var r :| r in roots && Reaches(mark, r, x);
      ReachMono(mark, child, r, x);
    }
    if RootsCovered(store, roots) {
      forall x | From(child, roots, x) ensures From(mark, roots, x) {
        var r :| r in roots && Reaches(child, r, x);
        TransferredIsMarked(store, roots, r, x);
      }
    } else {
      var id, y :| id in store && store[id].PolicyRoot? && From(mark, roots, id) && y in ChildEdges(store[id]) &&
        !From(mark, roots, y);
      PartAt(store, roots, id, y);
    }
  }

  lemma TransferredIsMarked(store: Store, roots: set<ObjectId>, r: ObjectId, x: ObjectId)
    requires RootsCovered(store, roots) && r in roots && Reaches(ChildGraph(store), r, x)
    ensures From(MarkGraph(store), roots, x)
  {
    var n: nat :| ReachIn(ChildGraph(store), r, x, n);
    ChildWalkIsMarked(store, roots, r, x, n);
  }

  lemma {:induction false} ChildWalkIsMarked(store: Store, roots: set<ObjectId>, r: ObjectId, x: ObjectId, n: nat)
    requires RootsCovered(store, roots) && r in roots && ReachIn(ChildGraph(store), r, x, n)
    ensures From(MarkGraph(store), roots, x)
    decreases n
  {
    hide Reaches;
    var mark, child := MarkGraph(store), ChildGraph(store);
    if n == 0 {
      ReachRefl(mark, r);
    } else {
      var m :| ReachIn(child, r, m, n - 1) && x in Succ(child, m);
      ChildWalkIsMarked(store, roots, r, m, n - 1);
      if !store[m].PolicyRoot? {
        var s :| s in roots && Reaches(mark, s, m);
        assert x in Succ(mark, m);
        ReachStep(mark, s, m, x);
      }
    }
  }

  /** Where they part: what a marked policy root refers to is transferred with it,
      whether it is marked or not. */
  lemma PartAt(store: Store, roots: set<ObjectId>, id: ObjectId, y: ObjectId)
    requires id in store && From(MarkGraph(store), roots, id) && y in ChildEdges(store[id])
    ensures From(ChildGraph(store), roots, y)
  {
    hide Reaches;
    var mark, child := MarkGraph(store), ChildGraph(store);
    var r :| r in roots && Reaches(mark, r, id);
    ReachMono(mark, child, r, id);
    assert y in Succ(child, id);
    ReachStep(child, r, id, y);
  }
}
