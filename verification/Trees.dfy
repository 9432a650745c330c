/** Flat path maps and nested trees: building the one into the other and walking
    it back, with and without the access filter. */
module Trees {
  import opened Wrappers
  import opened Objects

  // ----------------------------------------------------------------------
  // Paths and segments
  // ----------------------------------------------------------------------

  type Segments = seq<string>

  ghost predicate PlainName(name: string) {
    '/' !in name
  }

  /** The position of the first separator, or the length. */
  function Cut(path: string): (i: nat)
    ensures i <= |path| && '/' !in path[..i] && (i < |path| ==> path[i] == '/')
  {
    if path == [] || path[0] == '/' then 0 else
      assert path == [path[0]] + path[1..];
      1 + Cut(path[1..])
  }

  function Split(path: string): (segs: Segments)
    ensures |segs| > 0 && forall i :: 0 <= i < |segs| ==> '/' !in segs[i]
    decreases |path|
  {
    var i := Cut(path);
    if i == |path| then
      assert path[..i] == path;
      [path]
    else [path[..i]] + Split(path[i + 1..])
  }

  function Glue(segs: Segments): string
    requires |segs| > 0
  {
    if |segs| == 1 then segs[0] else segs[0] + "/" + Glue(segs[1..])
  }

  /** One step of the split. */
  lemma SplitStep(path: string)
    ensures Cut(path) == |path| ==> Split(path) == [path]
    ensures Cut(path) < |path| ==> Split(path) == [path[..Cut(path)]] + Split(path[Cut(path) + 1..])
  {
    hide Cut;
  }

  lemma Apart(path: string, i: nat)
    requires i < |path| && path[i] == '/'
    ensures path == path[..i] + "/" + path[i + 1..]
  {
  }

  lemma GlueCons(head: string, segs: Segments)
    requires segs != []
    ensures Glue([head] + segs) == head + "/" + Glue(segs)
  {
    assert ([head] + segs)[1..] == segs;
  }

  lemma {:induction false} GlueSplit(path: string)
    ensures Glue(Split(path)) == path
    decreases |path|
  {
    hide Cut, Split, Glue;
    var i := Cut(path);
    SplitStep(path);
    if i < |path| {
      Apart(path, i);
      GlueSplit(path[i + 1..]);
      GlueCons(path[..i], Split(path[i + 1..]));
    } else {
      GlueOne(path);
    }
  }

  lemma GlueOne(path: string)
    ensures Glue([path]) == path
  {
  }

  lemma {:induction false} CutAt(head: string, rest: string)
    requires PlainName(head)
    ensures Cut(head + "/" + rest) == |head|
    ensures Cut(head) == |head|
  {
    if head != [] {
      CutAt(head[1..], rest);
      assert (head + "/" + rest)[1..] == head[1..] + "/" + rest;
    }
  }

  /** A plain head is split off again. */
  lemma SplitHead(head: string, rest: string)
    requires PlainName(head)
    ensures Split(head + "/" + rest) == [head] + Split(rest)
    ensures Split(head) == [head]
  {
    hide Cut, Split;
    var p := head + "/" + rest;
    CutAt(head, rest);
    SplitStep(p);
    SplitStep(head);
    Halves(head, rest);
  }

  lemma Halves(head: string, rest: string)
    ensures var p := head + "/" + rest; |head| < |p| && p[..|head|] == head && p[|head| + 1..] == rest
  {
  }

  lemma {:induction false} SplitGlue(segs: Segments)
    requires |segs| > 0 && forall i :: 0 <= i < |segs| ==> PlainName(segs[i])
    ensures Split(Glue(segs)) == segs
    decreases |segs|
  {
    hide Split, Cut;
    if |segs| == 1 {
      SplitHead(segs[0], "");
      assert segs == [segs[0]];
    } else {
      SplitGlue(segs[1..]);
      SplitHead(segs[0], Glue(segs[1..]));
      assert segs == [segs[0]] + segs[1..];
    }
  }

  function Init(segs: Segments): Segments
    requires segs != []
  {
    segs[..|segs| - 1]
  }

  function Last(segs: Segments): string
    requires segs != []
  {
    segs[|segs| - 1]
  }

  lemma {:induction false} GlueSnoc(c: Segments, n: string)
    requires c != []
    ensures Glue(c + [n]) == Glue(c) + "/" + n
  {
    if |c| > 1 {
      GlueSnoc(c[1..], n);
      assert (c + [n])[1..] == c[1..] + [n];
      assert Glue(c + [n]) == c[0] + "/" + (Glue(c[1..]) + "/" + n);
    } else {
      assert (c + [n])[1..] == [n];
    }
  }

  // ----------------------------------------------------------------------
  // Looking into stored trees
  // ----------------------------------------------------------------------

  ghost predicate IsTree(store: Store, id: ObjectId) {
    id in store && store[id].Tree?
  }

  /** The directory reached by following tree entries; its tree need not be stored. */
  ghost function DirAt(store: Store, root: ObjectId, c: Segments): Option<ObjectId> {
    if c == [] then Some(root)
    else
      match DirAt(store, root, Init(c))
      case None => None
      case Some(t) =>
        if IsTree(store, t) && Last(c) in store[t].entries && store[t].entries[Last(c)].kind == TreeEntry
        then Some(store[t].entries[Last(c)].id) else None
  }

  /** The blob at a path. */
  ghost function FileAt(store: Store, root: ObjectId, segs: Segments): Option<ObjectId>
    requires segs != []
  {
    match DirAt(store, root, Init(segs))
    case None => None
    case Some(t) =>
      if IsTree(store, t) && Last(segs) in store[t].entries && store[t].entries[Last(segs)].kind == BlobEntry
      then Some(store[t].entries[Last(segs)].id) else None
  }

  /** The entry names met below `root` hold no separator. */
  ghost predicate PlainBelow(store: Store, root: ObjectId) {
    forall c, n :: DirTree(store, root, c) && n in EntriesAt(store, root, c) ==> PlainName(n)
  }

  ghost predicate DirTree(store: Store, root: ObjectId, c: Segments) {
    DirAt(store, root, c).Some? && IsTree(store, DirAt(store, root, c).value)
  }

  ghost function EntriesAt(store: Store, root: ObjectId, c: Segments): map<string, Entry>
    requires DirTree(store, root, c)
  {
    store[DirAt(store, root, c).value].entries
  }

  /** No directory with an empty name at the root, where the walkers would drop it. */
  ghost predicate NamedRoot(store: Store, root: ObjectId) {
    IsTree(store, root) && "" in store[root].entries ==> store[root].entries[""].kind == BlobEntry
  }

  /** A digest cannot lie inside what it digests, so stored trees nest by rank. */
  ghost predicate Nested(store: Store, rank: ObjectId -> nat) {
    forall t, n :: IsTree(store, t) && n in store[t].entries && store[t].entries[n].kind == TreeEntry ==>
        rank(store[t].entries[n].id) < rank(t)
  }

  lemma DirSnoc(store: Store, root: ObjectId, c: Segments, n: string)
    ensures DirAt(store, root, c + [n]).Some? <==>
            DirTree(store, root, c) && n in EntriesAt(store, root, c) && EntriesAt(store, root, c)[n].kind == TreeEntry
    ensures DirAt(store, root, c + [n]).Some? ==> DirAt(store, root, c + [n]).value == EntriesAt(store, root, c)[n].id
    ensures FileAt(store, root, c + [n]).Some? <==>
            DirTree(store, root, c) && n in EntriesAt(store, root, c) && EntriesAt(store, root, c)[n].kind == BlobEntry
    ensures FileAt(store, root, c + [n]).Some? ==> FileAt(store, root, c + [n]).value == EntriesAt(store, root, c)[n].id
  {
    assert Init(c + [n]) == c && Last(c + [n]) == n;
  }

  lemma {:induction false} DirCons(store: Store, root: ObjectId, n: string, c: Segments)
    ensures DirAt(store, root, [n] + c) ==
            match DirAt(store, root, [n]) { case None => None case Some(t) => DirAt(store, t, c) }
    decreases |c|
  {
    if c == [] {
      assert [n] + c == [n];
    } else {
      DirCons(store, root, n, Init(c));
      assert Init([n] + c) == [n] + Init(c) && Last([n] + c) == Last(c);
    }
  }

  lemma FileCons(store: Store, root: ObjectId, n: string, q: Segments)
    requires q != []
    ensures FileAt(store, root, [n] + q) ==
            match DirAt(store, root, [n]) { case None => None case Some(t) => FileAt(store, t, q) }
  {
    DirCons(store, root, n, Init(q));
    assert Init([n] + q) == [n] + Init(q) && Last([n] + q) == Last(q);
  }

  lemma {:induction false} DirPlain(store: Store, root: ObjectId, c: Segments)
    requires PlainBelow(store, root) && DirAt(store, root, c).Some?
    ensures forall i :: 0 <= i < |c| ==> PlainName(c[i])
    decreases |c|
  {
    if c != [] {
      assert Init(c) + [Last(c)] == c;
      DirSnoc(store, root, Init(c), Last(c));
      DirPlain(store, root, Init(c));
    }
  }

  lemma {:induction false} DirFirst(store: Store, root: ObjectId, c: Segments)
    requires NamedRoot(store, root) && DirAt(store, root, c).Some? && c != []
    ensures c[0] != ""
    decreases |c|
  {
    if |c| > 1 {
      DirFirst(store, root, Init(c));
    } else {
      assert Init(c) == [] && Last(c) == c[0];
    }
  }

  // ----------------------------------------------------------------------
  // Building nested trees
  // ----------------------------------------------------------------------

  datatype DirNode = DirNode(files: map<string, ObjectId>, dirs: map<string, DirNode>)

  const EmptyDir := DirNode(map[], map[])

  /** Adds one file, creating the directories on its way. */
  function Insert(node: DirNode, path: string, id: ObjectId): DirNode
    decreases |path|
  {
    var i := Cut(path);
    if i == |path| then node.(files := node.files[path := id])
    else
      var child := if path[..i] in node.dirs then node.dirs[path[..i]] else EmptyDir;
      node.(dirs := node.dirs[path[..i] := Insert(child, path[i + 1..], id)])
  }

  ghost function Lookup(node: DirNode, q: Segments): Option<ObjectId>
    requires q != []
    decreases |q|
  {
    if |q| == 1 then (if q[0] in node.files then Some(node.files[q[0]]) else None)
    else if q[0] in node.dirs then Lookup(node.dirs[q[0]], q[1..]) else None
  }

  ghost predicate DirIn(node: DirNode, c: Segments)
    decreases |c|
  {
    c == [] || (c[0] in node.dirs && DirIn(node.dirs[c[0]], c[1..]))
  }

  ghost predicate ProperPrefix(c: Segments, q: Segments) {
    |c| < |q| && q[..|c|] == c
  }

  lemma {:induction false} InsertLookup(node: DirNode, path: string, id: ObjectId, q: Segments)
    requires q != []
    ensures Lookup(Insert(node, path, id), q) == if q == Split(path) then Some(id) else Lookup(node, q)
    decreases |path|
  {
    var i := Cut(path);
    if i < |path| {
      var child := if path[..i] in node.dirs then node.dirs[path[..i]] else EmptyDir;
      if |q| > 1 && q[0] == path[..i] {
        InsertLookup(child, path[i + 1..], id, q[1..]);
        assert q == [q[0]] + q[1..];
        assert Split(path)[1..] == Split(path[i + 1..]);
      }
    } else if |q| == 1 {
      assert path[..i] == path && q == [q[0]];
    }
  }

  lemma {:induction false} InsertDir(node: DirNode, path: string, id: ObjectId, c: Segments)
    ensures DirIn(Insert(node, path, id), c) <==> DirIn(node, c) || ProperPrefix(c, Split(path))
    decreases |path|
  {
    var i := Cut(path);
    if i < |path| && c != [] && c[0] == path[..i] {
      var child := if path[..i] in node.dirs then node.dirs[path[..i]] else EmptyDir;
      InsertDir(child, path[i + 1..], id, c[1..]);
      PrefixTail(c, Split(path));
      assert Split(path)[1..] == Split(path[i + 1..]);
      assert DirIn(EmptyDir, c[1..]) ==> c[1..] == [];
    } else {
      PrefixHead(c, Split(path));
    }
  }

  lemma PrefixHead(c: Segments, q: Segments)
    ensures c != [] && ProperPrefix(c, q) ==> c[0] == q[0]
  {
    assert ProperPrefix(c, q) ==> forall i :: 0 <= i < |c| ==> q[..|c|][i] == q[i];
  }

  lemma PrefixTail(c: Segments, q: Segments)
    requires c != [] && q != [] && c[0] == q[0]
    ensures ProperPrefix(c, q) <==> ProperPrefix(c[1..], q[1..])
  {
    if ProperPrefix(c, q) {
      assert q[1..][..|c| - 1] == q[..|c|][1..];
    }
    if ProperPrefix(c[1..], q[1..]) {
      assert q[..|c|] == [q[0]] + q[1..][..|c| - 1];
      assert c == [c[0]] + c[1..];
    }
  }

  /** Some path of the map runs through this directory. */
  ghost predicate IsDirOf(files: Files, c: Segments) {
    exists p :: p in files && ProperPrefix(c, Split(p))
  }

  /** The node holds these files and the directories they need, nothing else. */
  ghost predicate Holds(node: DirNode, files: Files) {
    && (forall p :: Lookup(node, Split(p)) == if p in files then Some(files[p]) else None)
    && (forall q :: q != [] && Lookup(node, q).Some? ==> Glue(q) in files && Split(Glue(q)) == q)
    && (forall c :: DirIn(node, c) <==> c == [] || IsDirOf(files, c))
  }

  lemma InsertHolds(node: DirNode, files: Files, path: string, id: ObjectId)
    requires Holds(node, files)
    ensures Holds(Insert(node, path, id), files[path := id])
  {
    hide Split, Glue, Insert, Lookup, DirIn;
    var node', files' := Insert(node, path, id), files[path := id];
    GlueSplit(path);
    forall p ensures Lookup(node', Split(p)) == if p in files' then Some(files'[p]) else None {
      GlueSplit(p);
      InsertLookup(node, path, id, Split(p));
    }
    forall q | q != [] && Lookup(node', q).Some? ensures Glue(q) in files' && Split(Glue(q)) == q {
      InsertLookup(node, path, id, q);
    }
    forall c ensures DirIn(node', c) <==> c == [] || IsDirOf(files', c) {
      InsertDir(node, path, id, c);
      if IsDirOf(files, c) {
        var p :| p in files && ProperPrefix(c, Split(p));
        assert p in files';
      }
      if ProperPrefix(c, Split(path)) { assert path in files'; }
    }
  }

  lemma {:induction false} EmptyHolds()
    ensures Holds(EmptyDir, map[])
  {
    forall c ensures DirIn(EmptyDir, c) <==> c == [] {}
  }

  /** The loop of `build_tree` that fills the in-memory directory. */
  method BuildDir(files: Files) returns (root: DirNode)
    ensures Holds(root, files)
  {
    hide *;
    root := EmptyDir;
    var paths := InOrder(files.Keys);
    ghost var placed: Files := map[];
    EmptyHolds();
    for i := 0 to |paths|
      invariant Holds(root, placed)
      invariant forall p :: p in placed <==> p in paths[..i]
      invariant forall p :: p in placed ==> p in files && placed[p] == files[p]
    {
      assert paths[i] in paths;
      InsertHolds(root, placed, paths[i], files[paths[i]]);
      root := Insert(root, paths[i], files[paths[i]]);
      placed := placed[paths[i] := files[paths[i]]];
    }
    assert paths[..|paths|] == paths;
    assert placed == files;
  }

  // ----------------------------------------------------------------------
  // Storing a directory
  // ----------------------------------------------------------------------

  /** Content addressing: an id is the digest of its object, digests do not
      collide, and a tree's digest ranks above those it mentions. */
  ghost predicate Addressing(hash: Object -> ObjectId, rank: ObjectId -> nat) {
    && (forall o, o' :: hash(o) == hash(o') ==> o == o')
    && (forall o: Object, n :: o.Tree? && n in o.entries && o.entries[n].kind == TreeEntry ==>
        rank(o.entries[n].id) < rank(hash(o)))
  }

  ghost predicate Addressed(store: Store, hash: Object -> ObjectId) {
    forall id :: id in store ==> hash(store[id]) == id
  }

  lemma AddressedNested(store: Store, hash: Object -> ObjectId, rank: ObjectId -> nat)
    requires Addressing(hash, rank) && Addressed(store, hash)
    ensures Nested(store, rank)
  {
  }

  /** The tree `id` says what the node says, a directory hiding a file of its name. */
  ghost predicate Represents(store: Store, id: ObjectId, node: DirNode)
    decreases node
  {
    && IsTree(store, id)
    && (forall n :: n in store[id].entries <==> n in node.files || n in node.dirs)
    && (forall n :: n in node.files && n !in node.dirs ==> store[id].entries[n] == Entry(node.files[n], BlobEntry))
    && (forall n :: n in node.dirs ==>
        store[id].entries[n].kind == TreeEntry && Represents(store, store[id].entries[n].id, node.dirs[n]))
  }

  lemma {:induction false} RepresentsGrow(store: Store, store': Store, id: ObjectId, node: DirNode)
    requires Represents(store, id, node) && Extends(store, store')
    ensures Represents(store', id, node)
    decreases node
  {
    forall n | n in node.dirs ensures Represents(store', store[id].entries[n].id, node.dirs[n]) {
      RepresentsGrow(store, store', store[id].entries[n].id, node.dirs[n]);
    }
  }

  /** The subdirectories stored so far. */
  ghost predicate Partly(store: Store, entries: map<string, Entry>, node: DirNode, names: set<string>) {
    && names <= node.dirs.Keys
    && (forall n :: n in entries <==> n in node.files || n in names)
    && (forall n :: n in node.files && n !in names ==> entries[n] == Entry(node.files[n], BlobEntry))
    && (forall n :: n in names ==> entries[n].kind == TreeEntry && Represents(store, entries[n].id, node.dirs[n]))
  }

  lemma PartlyGrow(
    store: Store, store': Store, entries: map<string, Entry>, node: DirNode, names: set<string>, n: string,
    id: ObjectId)
    requires Partly(store, entries, node, names) && Extends(store, store')
    requires n in node.dirs && n !in names && Represents(store', id, node.dirs[n])
    ensures Partly(store', entries[n := Entry(id, TreeEntry)], node, names + {n})
  {
    hide Represents;
    forall m | m in names ensures Represents(store', entries[m].id, node.dirs[m]) {
      RepresentsGrow(store, store', entries[m].id, node.dirs[m]);
    }
  }

  lemma PartlyAll(store: Store, store': Store, entries: map<string, Entry>, node: DirNode, id: ObjectId)
    requires Partly(store, entries, node, node.dirs.Keys) && Extends(store, store')
    requires id in store' && store'[id] == Tree(entries)
    ensures Represents(store', id, node)
  {
    forall n | n in node.dirs ensures Represents(store', entries[n].id, node.dirs[n]) {
      RepresentsGrow(store, store', entries[n].id, node.dirs[n]);
    }
  }

  lemma PutTree(store: Store, hash: Object -> ObjectId, rank: ObjectId -> nat, o: Object)
    requires Addressing(hash, rank) && Addressed(store, hash)
    ensures Extends(store, store[hash(o) := o]) && Addressed(store[hash(o) := o], hash)
  {
  }

  method StoreDir(store: Store, node: DirNode, hash: Object -> ObjectId, ghost rank: ObjectId -> nat)
    returns (store': Store, id: ObjectId)
    requires Addressing(hash, rank) && Addressed(store, hash)
    ensures Extends(store, store') && Addressed(store', hash)
    ensures Represents(store', id, node)
    decreases node
  {
    hide Represents, Addressing, Addressed, Extends, Partly;
    store' := store;
    var entries := map n | n in node.files :: Entry(node.files[n], BlobEntry);
    var names := InOrder(node.dirs.Keys);
    ghost var stored: set<string> := {};
    PartlyNone(store, entries, node);
    for i := 0 to |names|
      invariant Extends(store, store') && Addressed(store', hash)
      invariant stored == set n | n in names[..i]
      invariant Partly(store', entries, node, stored)
    {
      assert names[i] in names && names[i] !in stored;
      ghost var before := store';
      var child;
      store', child := StoreDir(store', node.dirs[names[i]], hash, rank);
      ExtendsTrans(store, before, store');
      PartlyGrow(before, store', entries, node, stored, names[i], child);
      entries := entries[names[i] := Entry(child, TreeEntry)];
      stored := stored + {names[i]};
    }
    assert names[..|names|] == names;
    assert stored == node.dirs.Keys;
    id := hash(Tree(entries));
    PutTree(store', hash, rank, Tree(entries));
    PartlyAll(store', store'[id := Tree(entries)], entries, node, id);
    ExtendsTrans(store, store', store'[id := Tree(entries)]);
    store' := store'[id := Tree(entries)];
  }

  lemma PartlyNone(store: Store, entries: map<string, Entry>, node: DirNode)
    requires entries == map n | n in node.files :: Entry(node.files[n], BlobEntry)
    ensures Extends(store, store) && Partly(store, entries, node, {})
  {
  }

  lemma ExtendsTrans(a: Store, b: Store, c: Store)
    requires Extends(a, b) && Extends(b, c)
    ensures Extends(a, c)
  {
  }

  /** Reading a represented directory back, segment by segment. */
  lemma {:induction false} RepresentsAt(store: Store, id: ObjectId, node: DirNode, q: Segments)
    requires Represents(store, id, node)
    ensures DirAt(store, id, q).Some? <==> DirIn(node, q)
    ensures DirIn(node, q) ==> IsTree(store, DirAt(store, id, q).value)
    ensures q != [] ==> FileAt(store, id, q) == if DirIn(node, q) then None else Lookup(node, q)
    decreases |q|
  {
    if q != [] {
      assert [q[0]] + q[1..] == q && [] + [q[0]] == [q[0]];
      DirCons(store, id, q[0], q[1..]);
      DirSnoc(store, id, [], q[0]);
      if |q| > 1 { FileCons(store, id, q[0], q[1..]); } else { assert q == [q[0]]; }
      if q[0] in node.dirs {
        RepresentsAt(store, store[id].entries[q[0]].id, node.dirs[q[0]], q[1..]);
      }
    }
  }
}
