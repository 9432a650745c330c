/** The two tree walkers, the filtered one with its depth bound. Each is a loop over
    a stack; what it computes is said by the recursive walk `Visits`. */
module Walks {
  import opened Wrappers
  import opened Objects
  import opened Lattice
  import opened Rules
  import opened Access
  import opened Trees

  const MAX_TREE_DEPTH: nat := 256

  datatype View = View(lattice: LabelLattice, rules: seq<LabelRule>, accessor: Accessor)

  /** The unfiltered walk shows everything. */
  ghost predicate Shows(view: Option<View>, path: string) {
    view.None? || Visible(view.value.lattice, view.value.rules, view.value.accessor, path)
  }

  // ----------------------------------------------------------------------
  // The string a chain of names is known by
  // ----------------------------------------------------------------------

  function JoinName(prefix: string, name: string): string {
    if prefix == "" then name else prefix + "/" + name
  }

  /** The names of a chain joined on from a prefix. Different chains can share a
      path, for a name may hold a separator or be empty. */
  ghost function PathFrom(prefix: string, c: Segments): string
    decreases |c|
  {
    if c == [] then prefix else JoinName(PathFrom(prefix, Init(c)), Last(c))
  }

  ghost function PathOf(c: Segments): string {
    PathFrom("", c)
  }

  lemma {:induction false} PathCons(prefix: string, n: string, c: Segments)
    ensures PathFrom(prefix, [n] + c) == PathFrom(JoinName(prefix, n), c)
    decreases |c|
  {
    if c == [] {
      assert [n] + c == [n] && Init([n]) == [] && Last([n]) == n;
      assert PathFrom(prefix, []) == prefix;
    } else {
      PathCons(prefix, n, Init(c));
      assert Init([n] + c) == [n] + Init(c) && Last([n] + c) == Last(c);
    }
  }

  lemma PathSnoc(prefix: string, c: Segments, n: string)
    ensures PathFrom(prefix, c + [n]) == JoinName(PathFrom(prefix, c), n)
  {
    assert Init(c + [n]) == c && Last(c + [n]) == n;
  }

  /** Some file below `root` is known by this path and has this blob. */
  ghost predicate FileOf(store: Store, root: ObjectId, path: string, id: ObjectId) {
    exists q: Segments :: q != [] && FileAt(store, root, q) == Some(id) && PathOf(q) == path
  }

  ghost predicate HasPath(store: Store, root: ObjectId, path: string) {
    exists id :: FileOf(store, root, path, id)
  }

  // ----------------------------------------------------------------------
  // One directory
  // ----------------------------------------------------------------------

  datatype Item = Item(id: ObjectId, prefix: string, depth: nat)

  datatype Emission = Emission(path: string, id: ObjectId)

  /** The entries of a tree; a missing tree has none. */
  function EntriesOf(store: Store, id: ObjectId): map<string, Entry> {
    if id in store && store[id].Tree? then store[id].entries else map[]
  }

  /** The files among some names of a directory, in order. */
  function Blobs(entries: map<string, Entry>, names: seq<string>, prefix: string): seq<Emission> {
    if names == [] then []
    else
      var n := names[|names| - 1];
      Blobs(entries, names[..|names| - 1], prefix) +
      if n in entries && entries[n].kind == BlobEntry then [Emission(JoinName(prefix, n), entries[n].id)] else []
  }

  /** The directories among some names of a directory, in order. */
  function Dirs(entries: map<string, Entry>, names: seq<string>, prefix: string, depth: nat): seq<Item> {
    if names == [] then []
    else
      var n := names[|names| - 1];
      Dirs(entries, names[..|names| - 1], prefix, depth) +
      if n in entries && entries[n].kind == TreeEntry then [Item(entries[n].id, JoinName(prefix, n), depth)] else []
  }

  function FilesIn(store: Store, item: Item): seq<Emission> {
    var entries := EntriesOf(store, item.id);
    Blobs(entries, InOrder(entries.Keys), item.prefix)
  }

  function DirsIn(store: Store, item: Item): seq<Item> {
    var entries := EntriesOf(store, item.id);
    Dirs(entries, InOrder(entries.Keys), item.prefix, item.depth + 1)
  }

  ghost predicate IsBlob(entries: map<string, Entry>, prefix: string, n: string, e: Emission) {
    n in entries && entries[n] == Entry(e.id, BlobEntry) && e.path == JoinName(prefix, n)
  }

  ghost predicate IsDir(entries: map<string, Entry>, prefix: string, depth: nat, n: string, item: Item) {
    n in entries && entries[n] == Entry(item.id, TreeEntry) && item.prefix == JoinName(prefix, n) && item.depth == depth
  }

  lemma {:induction false} BlobsAre(entries: map<string, Entry>, names: seq<string>, prefix: string)
    ensures forall e :: e in Blobs(entries, names, prefix) <==> exists n :: n in names && IsBlob(entries, prefix, n, e)
  {
    hide JoinName;
    if names != [] {
      var front, n := names[..|names| - 1], names[|names| - 1];
      BlobsAre(entries, front, prefix);
      assert names == front + [n];
      forall e ensures e in Blobs(entries, names, prefix) <==> exists m :: m in names && IsBlob(entries, prefix, m, e) {
        assert e in Blobs(entries, names, prefix) <==>
            e in Blobs(entries, front, prefix) || IsBlob(entries, prefix, n, e);
        if m :| m in front && IsBlob(entries, prefix, m, e) { assert m in names; }
      }
    }
  }

  lemma {:induction false} DirsAre(entries: map<string, Entry>, names: seq<string>, prefix: string, depth: nat)
    ensures forall x ::
              x in Dirs(entries, names, prefix, depth) <==>
                  exists n :: n in names && IsDir(entries, prefix, depth, n, x)
  {
    hide JoinName;
    if names != [] {
      var front, n := names[..|names| - 1], names[|names| - 1];
      DirsAre(entries, front, prefix, depth);
      assert names == front + [n];
      forall x
        ensures x in Dirs(entries, names, prefix, depth) <==>
                exists m :: m in names && IsDir(entries, prefix, depth, m, x)
      {
        assert x in Dirs(entries, names, prefix, depth) <==>
               x in Dirs(entries, front, prefix, depth) || IsDir(entries, prefix, depth, n, x);
        if m :| m in front && IsDir(entries, prefix, depth, m, x) { assert m in names; }
      }
    }
  }

  /** A directory's own directories rank below it. */
  lemma DirsLower(store: Store, item: Item, rank: ObjectId -> nat)
    requires Nested(store, rank)
    ensures forall i :: 0 <= i < |DirsIn(store, item)| ==> rank(DirsIn(store, item)[i].id) < rank(item.id)
  {
    hide Dirs, InOrder;
    var entries := EntriesOf(store, item.id);
    DirsAre(entries, InOrder(entries.Keys), item.prefix, item.depth + 1);
    forall i | 0 <= i < |DirsIn(store, item)| ensures rank(DirsIn(store, item)[i].id) < rank(item.id) {
      assert DirsIn(store, item)[i] in DirsIn(store, item);
    }
  }

  // ----------------------------------------------------------------------
  // The recursive walk
  // ----------------------------------------------------------------------

  /** The last part first. */
  ghost function Unwind<T>(xs: seq<seq<T>>): seq<T> {
    if xs == [] then [] else xs[|xs| - 1] + Unwind(xs[..|xs| - 1])
  }

  lemma {:induction false} UnwindConcat<T>(xs: seq<seq<T>>, ys: seq<seq<T>>)
    ensures Unwind(xs + ys) == Unwind(ys) + Unwind(xs)
    decreases |ys|
  {
    if ys == [] {
      assert xs + ys == xs;
    } else {
      UnwindConcat(xs, ys[..|ys| - 1]);
      assert (xs + ys)[..|xs + ys| - 1] == xs + ys[..|ys| - 1];
    }
  }

  lemma {:induction false} UnwindElements<T(!new)>(xs: seq<seq<T>>)
    ensures forall x :: x in Unwind(xs) <==> exists i :: 0 <= i < |xs| && x in xs[i]
  {
    if xs != [] {
      var front, last := xs[..|xs| - 1], xs[|xs| - 1];
      UnwindElements(front);
      assert xs == front + [last];
      forall x ensures x in Unwind(xs) <==> exists i :: 0 <= i < |xs| && x in xs[i] {
        if x in Unwind(front) {
          var i :| 0 <= i < |front| && x in front[i];
          assert x in xs[i];
        }
      }
    }
  }

  /** Every directory from `item` down: itself, then each of its directories with all
      below it, the last name first. */
  ghost function Visits(store: Store, item: Item, rank: ObjectId -> nat): seq<Item>
    requires Nested(store, rank)
    decreases rank(item.id)
  {
    DirsLower(store, item, rank);
    var dirs := DirsIn(store, item);
    [item] + Unwind(seq(|dirs|, i requires 0 <= i < |dirs| => Visits(store, dirs[i], rank)))
  }

  ghost function Each(store: Store, stack: seq<Item>, rank: ObjectId -> nat): seq<seq<Item>>
    requires Nested(store, rank)
  {
    seq(|stack|, i requires 0 <= i < |stack| => Visits(store, stack[i], rank))
  }

  /** What a stack still stands for. */
  ghost function Pending(store: Store, stack: seq<Item>, rank: ObjectId -> nat): seq<Item>
    requires Nested(store, rank)
  {
    Unwind(Each(store, stack, rank))
  }

  lemma VisitsUnfold(store: Store, item: Item, rank: ObjectId -> nat)
    requires Nested(store, rank)
    ensures Visits(store, item, rank) == [item] + Pending(store, DirsIn(store, item), rank)
  {
    hide Unwind, DirsIn;
    var dirs := DirsIn(store, item);
    assert seq(|dirs|, i requires 0 <= i < |dirs| => Visits(store, dirs[i], rank)) == Each(store, dirs, rank);
  }

  lemma EachConcat(store: Store, a: seq<Item>, b: seq<Item>, rank: ObjectId -> nat)
    requires Nested(store, rank)
    ensures Each(store, a + b, rank) == Each(store, a, rank) + Each(store, b, rank)
  {
    hide Visits;
  }

  lemma EachSnoc(store: Store, a: seq<Item>, top: Item, rank: ObjectId -> nat)
    requires Nested(store, rank)
    ensures Each(store, a + [top], rank) == Each(store, a, rank) + [Visits(store, top, rank)]
  {
    hide Visits;
  }

  lemma UnwindSnoc<T>(xs: seq<seq<T>>, x: seq<T>)
    ensures Unwind(xs + [x]) == x + Unwind(xs)
  {
    assert (xs + [x])[..|xs|] == xs;
  }

  /** Replacing the top of the stack by its directories is one step of the walk. */
  lemma PendingPop(store: Store, stack: seq<Item>, rank: ObjectId -> nat)
    requires Nested(store, rank) && stack != []
    ensures var top, below := stack[|stack| - 1], stack[..|stack| - 1];
            Pending(store, stack, rank) == [top] + Pending(store, below + DirsIn(store, top), rank)
  {
    hide DirsIn, Visits, Unwind, Each;
    var top, below := stack[|stack| - 1], stack[..|stack| - 1];
    var dirs := DirsIn(store, top);
    VisitsUnfold(store, top, rank);
    EachConcat(store, below, dirs, rank);
    UnwindConcat(Each(store, below, rank), Each(store, dirs, rank));
    EachSnoc(store, below, top, rank);
    assert stack == below + [top];
    UnwindSnoc(Each(store, below, rank), Visits(store, top, rank));
  }

  /** The item stands for the directory at the end of a chain below `start`. */
  ghost predicate Along(store: Store, start: Item, c: Segments, item: Item) {
    && DirAt(store, start.id, c) == Some(item.id)
    && item.prefix == PathFrom(start.prefix, c) && item.depth == start.depth + |c|
  }

  lemma AlongCons(store: Store, start: Item, n: string, kid: Item, c: Segments, item: Item)
    requires IsDir(EntriesOf(store, start.id), start.prefix, start.depth + 1, n, kid)
    ensures Along(store, kid, c, item) <==> Along(store, start, [n] + c, item)
  {
    hide JoinName, PathFrom;
    assert [] + [n] == [n];
    DirSnoc(store, start.id, [], n);
    DirCons(store, start.id, n, c);
    PathCons(start.prefix, n, c);
  }

  /** One name down: the first directory of a chain is on the list. */
  lemma AlongHead(store: Store, start: Item, c: Segments, item: Item) returns (kid: Item)
    requires c != [] && Along(store, start, c, item)
    ensures kid in DirsIn(store, start) && Along(store, kid, c[1..], item)
  {
    hide Dirs, InOrder, JoinName, PathFrom;
    var n, entries := c[0], EntriesOf(store, start.id);
    assert c == [n] + c[1..] && [] + [n] == [n];
    DirSnoc(store, start.id, [], n);
    DirCons(store, start.id, n, c[1..]);
    kid := Item(entries[n].id, JoinName(start.prefix, n), start.depth + 1);
    assert IsDir(entries, start.prefix, start.depth + 1, n, kid);
    DirsAre(entries, InOrder(entries.Keys), start.prefix, start.depth + 1);
    AlongCons(store, start, n, kid, c[1..], item);
  }

  lemma {:induction false} AlongVisited(store: Store, start: Item, rank: ObjectId -> nat, c: Segments, item: Item)
    requires Nested(store, rank) && Along(store, start, c, item)
    ensures item in Visits(store, start, rank)
    decreases |c|
  {
    hide Unwind, DirsIn, Visits, Dirs, JoinName;
    VisitsUnfold(store, start, rank);
    if c == [] {
      assert item == start;
    } else {
      var kid := AlongHead(store, start, c, item);
      AlongVisited(store, kid, rank, c[1..], item);
      var i :| 0 <= i < |DirsIn(store, start)| && DirsIn(store, start)[i] == kid;
      var each := Each(store, DirsIn(store, start), rank);
      assert item in each[i];
      UnwindElements(each);
    }
  }

  lemma {:induction false} VisitedAlong(store: Store, start: Item, rank: ObjectId -> nat, item: Item)
    returns (c: Segments)
    requires Nested(store, rank) && item in Visits(store, start, rank)
    ensures Along(store, start, c, item)
    decreases rank(start.id)
  {
    hide Unwind, DirsIn, Visits, InOrder, JoinName, Dirs;
    VisitsUnfold(store, start, rank);
    if item == start {
      c := [];
    } else {
      var dirs := DirsIn(store, start);
      var each := Each(store, dirs, rank);
      UnwindElements(each);
      var i :| 0 <= i < |each| && item in each[i];
      DirsLower(store, start, rank);
      var rest := VisitedAlong(store, dirs[i], rank, item);
      var n := DirName(store, start, i);
      AlongCons(store, start, n, dirs[i], rest, item);
      c := [n] + rest;
    }
  }

  lemma DirName(store: Store, start: Item, i: nat) returns (n: string)
    requires i < |DirsIn(store, start)|
    ensures IsDir(EntriesOf(store, start.id), start.prefix, start.depth + 1, n, DirsIn(store, start)[i])
  {
    hide Dirs, InOrder, JoinName;
    var entries := EntriesOf(store, start.id);
    DirsAre(entries, InOrder(entries.Keys), start.prefix, start.depth + 1);
    assert DirsIn(store, start)[i] in DirsIn(store, start);
    n :| n in InOrder(entries.Keys) && IsDir(entries, start.prefix, start.depth + 1, n, DirsIn(store, start)[i]);
  }

  // ----------------------------------------------------------------------
  // The output
  // ----------------------------------------------------------------------

  /** The files of the visited directories, in order. */
  ghost function Emissions(store: Store, visits: seq<Item>): seq<Emission> {
    if visits == [] then [] else Emissions(store, visits[..|visits| - 1]) + FilesIn(store, visits[|visits| - 1])
  }

  /** Entering files into a map one by one: the last of a path stays. */
  ghost function Enter(out: Files, es: seq<Emission>): Files {
    if es == [] then out else Enter(out, es[..|es| - 1])[es[|es| - 1].path := es[|es| - 1].id]
  }

  ghost function Shown(view: Option<View>, es: seq<Emission>): seq<Emission> {
    if es == [] then []
    else Shown(view, es[..|es| - 1]) + if Shows(view, es[|es| - 1].path) then [es[|es| - 1]] else []
  }

  lemma {:induction false} EnterConcat(out: Files, a: seq<Emission>, b: seq<Emission>)
    ensures Enter(out, a + b) == Enter(Enter(out, a), b)
    decreases |b|
  {
    if b == [] {
      assert a + b == a;
    } else {
      EnterConcat(out, a, b[..|b| - 1]);
      assert (a + b)[..|a + b| - 1] == a + b[..|b| - 1];
    }
  }

  lemma {:induction false} ShownConcat(view: Option<View>, a: seq<Emission>, b: seq<Emission>)
    ensures Shown(view, a + b) == Shown(view, a) + Shown(view, b)
    decreases |b|
  {
    hide Shows;
    if b == [] {
      assert a + b == a;
    } else {
      ShownConcat(view, a, b[..|b| - 1]);
      assert (a + b)[..|a + b| - 1] == a + b[..|b| - 1];
    }
  }

  /** What the walk under a view hands back, to the last writer of every path. */
  ghost function WalkMap(store: Store, root: ObjectId, rank: ObjectId -> nat, view: Option<View>): Files
    requires Nested(store, rank)
  {
    Enter(map[], Shown(view, Emissions(store, Visits(store, Item(root, "", 0), rank))))
  }

  /** The same without the order: exactly the shown paths, each with a blob it has. */
  ghost predicate Walked(store: Store, root: ObjectId, view: Option<View>, out: Files) {
    && (forall p :: p in out <==> Shows(view, p) && HasPath(store, root, p))
    && (forall p :: p in out ==> FileOf(store, root, p, out[p]))
  }

  lemma {:induction false} EnterElements(es: seq<Emission>)
    ensures forall p :: p in Enter(map[], es) ==> Emission(p, Enter(map[], es)[p]) in es
    ensures forall e :: e in es ==> e.path in Enter(map[], es)
  {
    if es != [] {
      EnterElements(es[..|es| - 1]);
      assert es == es[..|es| - 1] + [es[|es| - 1]];
    }
  }

  lemma {:induction false} ShownElements(view: Option<View>, es: seq<Emission>)
    ensures forall e :: e in Shown(view, es) <==> e in es && Shows(view, e.path)
  {
    hide Shows;
    if es != [] {
      ShownElements(view, es[..|es| - 1]);
      assert es == es[..|es| - 1] + [es[|es| - 1]];
    }
  }

  lemma {:induction false} EmissionElements(store: Store, visits: seq<Item>)
    ensures forall e :: e in Emissions(store, visits) <==> exists x :: x in visits && e in FilesIn(store, x)
  {
    hide FilesIn;
    if visits != [] {
      EmissionElements(store, visits[..|visits| - 1]);
      assert visits == visits[..|visits| - 1] + [visits[|visits| - 1]];
    }
  }

  /** A directory's files are the files one name below its chain. */
  lemma FilesAre(store: Store, root: ObjectId, c: Segments, item: Item, e: Emission)
    requires Along(store, Item(root, "", 0), c, item)
    ensures e in FilesIn(store, item) <==>
            exists n :: FileAt(store, root, c + [n]) == Some(e.id) && e.path == PathOf(c + [n])
  {
    hide Blobs, InOrder, JoinName, PathFrom, DirAt, FileAt;
    var entries := EntriesOf(store, item.id);
    BlobsAre(entries, InOrder(entries.Keys), item.prefix);
    forall n ensures IsBlob(entries, item.prefix, n, e) <==>
      FileAt(store, root, c + [n]) == Some(e.id) && e.path == PathOf(c + [n])
    {
      DirSnoc(store, root, c, n);
      PathSnoc("", c, n);
    }
  }

  lemma WalkEmits(store: Store, root: ObjectId, rank: ObjectId -> nat, e: Emission)
    requires Nested(store, rank)
    ensures e in Emissions(store, Visits(store, Item(root, "", 0), rank)) <==> FileOf(store, root, e.path, e.id)
  {
    hide Emissions, Visits, FilesIn, FileAt, PathFrom, Along;
    var start := Item(root, "", 0);
    var visits := Visits(store, start, rank);
    EmissionElements(store, visits);
    if e in Emissions(store, visits) {
      var x :| x in visits && e in FilesIn(store, x);
      var c := VisitedAlong(store, start, rank, x);
      FilesAre(store, root, c, x, e);
    }
    if q: Segments :| q != [] && FileAt(store, root, q) == Some(e.id) && PathOf(q) == e.path {
      var x := FileDir(store, root, q);
      assert Init(q) + [Last(q)] == q;
      FilesAre(store, root, Init(q), x, e);
      AlongVisited(store, start, rank, Init(q), x);
    }
  }

  lemma FileDir(store: Store, root: ObjectId, q: Segments) returns (x: Item)
    requires q != [] && FileAt(store, root, q).Some?
    ensures Along(store, Item(root, "", 0), Init(q), x)
  {
    x := Item(DirAt(store, root, Init(q)).value, PathOf(Init(q)), |Init(q)|);
  }

  lemma WalkMapWalked(store: Store, root: ObjectId, rank: ObjectId -> nat, view: Option<View>)
    requires Nested(store, rank)
    ensures Walked(store, root, view, WalkMap(store, root, rank, view))
  {
    hide Shows, FileOf, Emissions, Visits, Enter, Shown;
    var es := Emissions(store, Visits(store, Item(root, "", 0), rank));
    var out := WalkMap(store, root, rank, view);
    ShownElements(view, es);
    EnterElements(Shown(view, es));
    forall e ensures e in es <==> FileOf(store, root, e.path, e.id) { WalkEmits(store, root, rank, e); }
    forall p ensures p in out <==> Shows(view, p) && HasPath(store, root, p) {
      if Shows(view, p) && HasPath(store, root, p) {
        var id :| FileOf(store, root, p, id);
        assert Emission(p, id) in Shown(view, es);
      }
    }
  }

  // ----------------------------------------------------------------------
  // The walkers
  // ----------------------------------------------------------------------

  method IsShown(view: Option<View>, path: string) returns (r: bool)
    ensures r <==> Shows(view, path)
  {
    hide Visible;
    if view.None? { return true; }
    r := IsVisible(view.value.lattice, view.value.rules, view.value.accessor, path);
  }

  /** What one more name adds. */
  lemma DirsNext(entries: map<string, Entry>, names: seq<string>, i: nat, item: Item)
    requires i < |names| && names[i] in entries
    ensures var n, p := names[i], JoinName(item.prefix, names[i]);
            Dirs(entries, names[..i + 1], item.prefix, item.depth + 1) ==
            Dirs(entries, names[..i], item.prefix, item.depth + 1) +
            if entries[n].kind == TreeEntry then [Item(entries[n].id, p, item.depth + 1)] else []
  {
    hide JoinName;
    assert names[..i + 1][..i] == names[..i];
  }

  lemma BlobsNext(entries: map<string, Entry>, names: seq<string>, i: nat, prefix: string)
    requires i < |names| && names[i] in entries
    ensures var n, p := names[i], JoinName(prefix, names[i]);
            Blobs(entries, names[..i + 1], prefix) ==
            Blobs(entries, names[..i], prefix) +
            if entries[n].kind == BlobEntry then [Emission(p, entries[n].id)] else []
  {
    hide JoinName;
    assert names[..i + 1][..i] == names[..i];
  }

  lemma EntersNext(
    entries: map<string, Entry>, names: seq<string>, i: nat, prefix: string, view: Option<View>, out: Files)
    requires i < |names| && names[i] in entries
    ensures var n, p := names[i], JoinName(prefix, names[i]);
            var before := Enter(out, Shown(view, Blobs(entries, names[..i], prefix)));
            Enter(out, Shown(view, Blobs(entries, names[..i + 1], prefix))) ==
            if entries[n].kind == BlobEntry && Shows(view, p) then before[p := entries[n].id] else before
  {
    hide Shows, JoinName, Enter, Shown, Blobs;
    var n, es := names[i], Blobs(entries, names[..i], prefix);
    BlobsNext(entries, names, i, prefix);
    var e := Emission(JoinName(prefix, n), entries[n].id);
    ShownOne(view, es, e);
    EnterOne(out, Shown(view, es), e);
    assert es + [] == es && Shown(view, es) + [] == Shown(view, es);
  }

  lemma ShownOne(view: Option<View>, es: seq<Emission>, e: Emission)
    ensures Shown(view, es + [e]) == Shown(view, es) + if Shows(view, e.path) then [e] else []
  {
    hide Shows;
    assert (es + [e])[..|es|] == es;
  }

  lemma EnterOne(out: Files, es: seq<Emission>, e: Emission)
    ensures Enter(out, es + [e]) == Enter(out, es)[e.path := e.id]
    ensures es + [] == es
  {
    assert (es + [e])[..|es|] == es;
  }

  /** The inner loop: one directory's entries. */
  method EmitEntries(store: Store, item: Item, view: Option<View>, out: Files) returns (out': Files, dirs: seq<Item>)
    ensures out' == Enter(out, Shown(view, FilesIn(store, item)))
    ensures dirs == DirsIn(store, item)
  {
    hide *;
    var entries := EntriesOf(store, item.id);
    var names := InOrder(entries.Keys);
    out', dirs := out, [];
    NoNames(entries, item, view, out);
    for i := 0 to |names|
      invariant out' == Enter(out, Shown(view, Blobs(entries, names[..i], item.prefix)))
      invariant dirs == Dirs(entries, names[..i], item.prefix, item.depth + 1)
    {
      var n := names[i];
      assert n in names;
      var path := JoinName(item.prefix, n);
      DirsNext(entries, names, i, item);
      EntersNext(entries, names, i, item.prefix, view, out);
      match entries[n].kind {
        case BlobEntry =>
          var shown := IsShown(view, path);
          if shown { out' := out'[path := entries[n].id]; }
        case TreeEntry =>
          dirs := dirs + [Item(entries[n].id, path, item.depth + 1)];
      }
    }
    assert names[..|names|] == names;
    AllNames(store, item);
  }

  lemma NoNames(entries: map<string, Entry>, item: Item, view: Option<View>, out: Files)
    ensures Enter(out, Shown(view, Blobs(entries, [], item.prefix))) == out
    ensures Dirs(entries, [], item.prefix, item.depth + 1) == []
  {
  }

  lemma AllNames(store: Store, item: Item)
    ensures var entries := EntriesOf(store, item.id);
            && FilesIn(store, item) == Blobs(entries, InOrder(entries.Keys), item.prefix)
            && DirsIn(store, item) == Dirs(entries, InOrder(entries.Keys), item.prefix, item.depth + 1)
  {
  }

  /** `visited` has been dealt with and the stack stands for the rest of the walk. */
  ghost predicate WalkInv(
    store: Store, root: ObjectId, rank: ObjectId -> nat, view: Option<View>, visited: seq<Item>, stack: seq<Item>,
    out: Files)
    requires Nested(store, rank)
  {
    && visited + Pending(store, stack, rank) == Visits(store, Item(root, "", 0), rank)
    && out == Enter(map[], Shown(view, Emissions(store, visited)))
  }

  lemma WalkInit(store: Store, root: ObjectId, rank: ObjectId -> nat, view: Option<View>)
    requires Nested(store, rank)
    ensures WalkInv(store, root, rank, view, [], [Item(root, "", 0)], map[])
  {
    hide Visits;
    var start := Item(root, "", 0);
    var each := Each(store, [start], rank);
    assert each == [Visits(store, start, rank)] && each[..0] == [];
    assert Unwind(each) == Visits(store, start, rank) + [];
  }

  lemma WalkStep(
    store: Store, root: ObjectId, rank: ObjectId -> nat, view: Option<View>, visited: seq<Item>, stack: seq<Item>,
    out: Files)
    requires Nested(store, rank) && stack != [] && WalkInv(store, root, rank, view, visited, stack, out)
    ensures var top, below := stack[|stack| - 1], stack[..|stack| - 1];
            && WalkInv(store, root, rank, view, visited + [top], below + DirsIn(store, top),
                       Enter(out, Shown(view, FilesIn(store, top))))
            && |Pending(store, below + DirsIn(store, top), rank)| < |Pending(store, stack, rank)|
            && top in Visits(store, Item(root, "", 0), rank)
  {
    hide Pending, Visits, FilesIn, DirsIn, Shown, Enter;
    var top, below := stack[|stack| - 1], stack[..|stack| - 1];
    PendingPop(store, stack, rank);
    var rest := Pending(store, below + DirsIn(store, top), rank);
    assert visited + ([top] + rest) == visited + [top] + rest;
    assert top in visited + [top];
    var es := Emissions(store, visited);
    assert (visited + [top])[..|visited|] == visited;
    ShownConcat(view, es, FilesIn(store, top));
    EnterConcat(map[], Shown(view, es), Shown(view, FilesIn(store, top)));
  }

  /** Some directory chain leads to something that is not a stored tree. */
  ghost predicate Broken(store: Store, root: ObjectId) {
    exists id :: BrokenBy(store, root, id)
  }

  ghost predicate BrokenBy(store: Store, root: ObjectId, id: ObjectId) {
    !IsTree(store, id) && exists c :: DirAt(store, root, c) == Some(id)
  }

  ghost predicate TooDeep(store: Store, root: ObjectId) {
    exists c :: DirAt(store, root, c).Some? && |c| >= MAX_TREE_DEPTH
  }

  datatype WalkError = NotATree(id: ObjectId) | NestingTooDeep

  /** What a visit tells about the chains below the root. */
  lemma VisitTells(store: Store, root: ObjectId, rank: ObjectId -> nat, item: Item)
    requires Nested(store, rank) && item in Visits(store, Item(root, "", 0), rank)
    ensures !IsTree(store, item.id) ==> BrokenBy(store, root, item.id)
    ensures item.depth >= MAX_TREE_DEPTH ==> TooDeep(store, root)
  {
    hide Visits, DirAt, PathFrom;
    var c := VisitedAlong(store, Item(root, "", 0), rank, item);
  }

  /** A walk that met no trouble shows there is none. */
  lemma NoTrouble(store: Store, root: ObjectId, rank: ObjectId -> nat, visited: seq<Item>)
    requires Nested(store, rank) && visited == Visits(store, Item(root, "", 0), rank)
    ensures (forall x :: x in visited ==> IsTree(store, x.id)) ==> !Broken(store, root)
    ensures (forall x :: x in visited ==> x.depth < MAX_TREE_DEPTH) ==> !TooDeep(store, root)
  {
    hide Visits, DirAt, PathFrom;
    forall c | DirAt(store, root, c).Some?
      ensures Item(DirAt(store, root, c).value, PathOf(c), |c|) in visited
    {
      AlongVisited(store, Item(root, "", 0), rank, c, Item(DirAt(store, root, c).value, PathOf(c), |c|));
    }
  }

  /** The unfiltered walk: every file, or an error exactly when a tree is missing. */
  method WalkTree(store: Store, root: ObjectId, ghost rank: ObjectId -> nat) returns (r: Result<Files, WalkError>)
    requires Nested(store, rank)
    ensures r.Err? <==> Broken(store, root)
    ensures r.Err? ==> r.error.NotATree? && BrokenBy(store, root, r.error.id)
    ensures r.Ok? ==> r.value == WalkMap(store, root, rank, None) && Walked(store, root, None, r.value)
  {
    hide *;
    var stack := [Item(root, "", 0)];
    var out: Files := map[];
    ghost var visited: seq<Item> := [];
    WalkInit(store, root, rank, None);
    while stack != []
      invariant WalkInv(store, root, rank, None, visited, stack, out)
      invariant forall x :: x in visited ==> IsTree(store, x.id)
      decreases |Pending(store, stack, rank)|
    {
      var item := stack[|stack| - 1];
      WalkStep(store, root, rank, None, visited, stack, out);
      VisitTells(store, root, rank, item);
      TreeIs(store, item.id);
      if item.id !in store || !store[item.id].Tree? {
        BrokenIs(store, root, item.id);
        return Err(NotATree(item.id));
      }
      var dirs;
      out, dirs := EmitEntries(store, item, None, out);
      stack := stack[..|stack| - 1] + dirs;
      visited := visited + [item];
    }
    WalkDone(store, root, rank, None, visited, out);
    NoTrouble(store, root, rank, visited);
    r := Ok(out);
  }

  lemma TreeIs(store: Store, id: ObjectId)
    ensures IsTree(store, id) <==> id in store && store[id].Tree?
  {
  }

  lemma BrokenIs(store: Store, root: ObjectId, id: ObjectId)
    requires BrokenBy(store, root, id)
    ensures Broken(store, root)
  {
  }

  lemma WalkDone(
    store: Store, root: ObjectId, rank: ObjectId -> nat, view: Option<View>, visited: seq<Item>, out: Files)
    requires Nested(store, rank) && WalkInv(store, root, rank, view, visited, [], out)
    ensures visited == Visits(store, Item(root, "", 0), rank)
    ensures out == WalkMap(store, root, rank, view) && Walked(store, root, view, out)
  {
    hide Visits, Walked, Enter, Shown, Emissions;
    assert Each(store, [], rank) == [];
    WalkMapWalked(store, root, rank, view);
  }

  /** The filtered walk: the visible files, with missing trees skipped and an error
      exactly when some chain is too deep. */
  method WalkTreeFiltered(store: Store, view: View, root: ObjectId, ghost rank: ObjectId -> nat)
    returns (r: Result<Files, WalkError>)
    requires Nested(store, rank)
    ensures r.Err? <==> TooDeep(store, root)
    ensures r.Err? ==> r.error == NestingTooDeep
    ensures r.Ok? ==> r.value == WalkMap(store, root, rank, Some(view)) && Walked(store, root, Some(view), r.value)
  {
    hide *;
    var stack := [Item(root, "", 0)];
    var out: Files := map[];
    ghost var visited: seq<Item> := [];
    WalkInit(store, root, rank, Some(view));
    while stack != []
      invariant WalkInv(store, root, rank, Some(view), visited, stack, out)
      invariant forall x :: x in visited ==> x.depth < MAX_TREE_DEPTH
      decreases |Pending(store, stack, rank)|
    {
      var item := stack[|stack| - 1];
      WalkStep(store, root, rank, Some(view), visited, stack, out);
      VisitTells(store, root, rank, item);
      if item.depth >= MAX_TREE_DEPTH {
        return Err(NestingTooDeep);
      }
      visited := visited + [item];
      stack := stack[..|stack| - 1];
      if item.id !in store || !store[item.id].Tree? {
        SkipIs(store, item, Some(view), out);
        assert stack + [] == stack;
        continue;
      }
      var dirs;
      out, dirs := EmitEntries(store, item, Some(view), out);
      stack := stack + dirs;
    }
    WalkDone(store, root, rank, Some(view), visited, out);
    NoTrouble(store, root, rank, visited);
    r := Ok(out);
  }

  /** A missing tree adds nothing. */
  lemma SkipIs(store: Store, item: Item, view: Option<View>, out: Files)
    requires item.id !in store || !store[item.id].Tree?
    ensures Enter(out, Shown(view, FilesIn(store, item))) == out && DirsIn(store, item) == []
  {
    assert EntriesOf(store, item.id).Keys == {};
  }

  // ----------------------------------------------------------------------
  // Filtering
  // ----------------------------------------------------------------------

  ghost function Restricted(full: Files, view: View): Files {
    map p | p in full && Shows(Some(view), p) :: full[p]
  }

  lemma RestrictedPut(full: Files, view: View, p: string, id: ObjectId)
    ensures Restricted(full[p := id], view) ==
            if Shows(Some(view), p) then Restricted(full, view)[p := id] else Restricted(full, view)
  {
    hide Shows;
  }

  lemma {:induction false} ShownNone(es: seq<Emission>)
    ensures Shown(None, es) == es
  {
    if es != [] {
      ShownNone(es[..|es| - 1]);
      assert es == es[..|es| - 1] + [es[|es| - 1]];
    }
  }

  lemma {:induction false} EnterShown(view: View, es: seq<Emission>)
    ensures Enter(map[], Shown(Some(view), es)) == Restricted(Enter(map[], es), view)
  {
    hide Shows, Restricted;
    if es == [] {
      RestrictedNone(view);
    } else {
      var front, e := es[..|es| - 1], es[|es| - 1];
      EnterShown(view, front);
      RestrictedPut(Enter(map[], front), view, e.path, e.id);
      EnterOne(map[], Shown(Some(view), front), e);
    }
  }

  lemma RestrictedNone(view: View)
    ensures Restricted(map[], view) == map[]
  {
  }

  /** The filtered walk is the full one restricted to visible paths, whatever the
      names in the trees, down to which blob of a shared path is kept. */
  lemma FilteredIsRestricted(store: Store, root: ObjectId, rank: ObjectId -> nat, view: View)
    requires Nested(store, rank)
    ensures var full := WalkMap(store, root, rank, None);
            WalkMap(store, root, rank, Some(view)) == map p | p in full && Shows(Some(view), p) :: full[p]
  {
    hide Visible, Enter, Shown, Emissions, Visits;
    var es := Emissions(store, Visits(store, Item(root, "", 0), rank));
    ShownNone(es);
    EnterShown(view, es);
  }

  /** The privileged accessor walks everything under two-point labels. */
  lemma PrivilegedWalk(store: Store, root: ObjectId, rank: ObjectId -> nat, rules: seq<LabelRule>)
    requires Nested(store, rank)
    ensures WalkMap(store, root, rank, Some(View(TwoPoint(), rules, Privileged()))) == WalkMap(store, root, rank, None)
  {
    hide WalkMap, Visible;
    var view := View(TwoPoint(), rules, Privileged());
    FilteredIsRestricted(store, root, rank, view);
    forall p ensures Shows(Some(view), p) { PrivilegedSeesAll(rules, p); }
  }

  /** The explanation of a path at a snapshot's root. Under two-point labels it says
      the path is there and readable exactly when the accessor's own walk shows it. */
  method ExplainAt(store: Store, view: View, root: ObjectId, path: string, ghost rank: ObjectId -> nat)
    returns (r: Result<Explanation, WalkError>)
    requires Nested(store, rank)
    ensures r.Err? <==> TooDeep(store, root)
    ensures r.Ok? ==> (r.value.read.allowed <==> Visible(view.lattice, view.rules, view.accessor, path))
    ensures r.Ok? ==> (r.value.write.allowed <==> Writable(view.lattice, view.rules, view.accessor, path))
    ensures r.Ok? && view.lattice == TwoPoint() ==>
              (path in WalkMap(store, root, rank, Some(view)) <==> r.value.present && r.value.read.allowed)
  {
    hide *;
    var all := WalkTreeFiltered(store, View(view.lattice, view.rules, Privileged()), root, rank);
    if all.Err? { return Err(all.error); }
    var x := ExplainPath(view.lattice, view.rules, view.accessor, path in all.value, path);
    if view.lattice == TwoPoint() {
      PresentAndVisible(store, root, rank, view, path);
    }
    r := Ok(x);
  }

  lemma PresentAndVisible(store: Store, root: ObjectId, rank: ObjectId -> nat, view: View, path: string)
    requires Nested(store, rank) && view.lattice == TwoPoint()
    ensures path in WalkMap(store, root, rank, Some(view)) <==>
            && path in WalkMap(store, root, rank, Some(View(view.lattice, view.rules, Privileged())))
            && Visible(view.lattice, view.rules, view.accessor, path)
  {
    hide WalkMap, Visible;
    FilteredIsRestricted(store, root, rank, view);
    PrivilegedWalk(store, root, rank, view.rules);
  }
}
