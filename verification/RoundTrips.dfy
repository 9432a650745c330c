/** Flat maps there and back: building nested trees and walking them, and when the
    result of a clean merge survives it. */
module RoundTrips {
  import opened Wrappers
  import opened Objects
  import opened Trees
  import opened Walks
  import opened Merge

  // ----------------------------------------------------------------------
  // Names that can be told apart
  // ----------------------------------------------------------------------

  ghost predicate Unrooted(p: string) {
    p != "" ==> p[0] != '/'
  }

  /** No separator in a name and no unnamed directory at the root. */
  ghost predicate WellNamed(store: Store, root: ObjectId) {
    PlainBelow(store, root) && NamedRoot(store, root)
  }

  lemma JoinUnrooted(prefix: string, n: string)
    requires Unrooted(prefix) && PlainName(n)
    ensures Unrooted(JoinName(prefix, n))
  {
  }

  lemma {:induction false} DirUnrooted(store: Store, root: ObjectId, c: Segments)
    requires PlainBelow(store, root) && DirAt(store, root, c).Some?
    ensures Unrooted(PathOf(c))
    decreases |c|
  {
    hide JoinName;
    DirPlain(store, root, c);
    if c != [] {
      DirUnrooted(store, root, Init(c));
      JoinUnrooted(PathOf(Init(c)), Last(c));
    }
  }

  /** With plain names no path starts with a separator. */
  lemma FileUnrooted(store: Store, root: ObjectId, path: string, id: ObjectId)
    requires PlainBelow(store, root) && FileOf(store, root, path, id)
    ensures Unrooted(path)
  {
    hide JoinName, Unrooted, DirAt;
    var q: Segments :| q != [] && FileAt(store, root, q) == Some(id) && PathOf(q) == path;
    assert Init(q) + [Last(q)] == q;
    DirSnoc(store, root, Init(q), Last(q));
    DirUnrooted(store, root, Init(q));
    JoinUnrooted(PathOf(Init(q)), Last(q));
  }

  lemma {:induction false} DirPath(store: Store, root: ObjectId, c: Segments)
    requires WellNamed(store, root) && DirAt(store, root, c).Some?
    ensures c == [] ==> PathOf(c) == ""
    ensures c != [] ==> PathOf(c) == Glue(c) && Glue(c) != ""
    decreases |c|
  {
    hide PlainBelow, NamedRoot;
    if c != [] {
      DirPath(store, root, Init(c));
      DirFirst(store, root, c);
      GlueInit(c);
    }
  }

  lemma GlueInit(c: Segments)
    requires c != [] && c[0] != ""
    ensures Glue(c) == if |c| == 1 then c[0] else Glue(Init(c)) + "/" + Last(c)
    ensures Glue(c) != ""
  {
    if |c| > 1 {
      GlueSnoc(Init(c), Last(c));
      assert Init(c) + [Last(c)] == c;
    }
  }

  /** With well-named trees a file's path splits back into its segments. */
  lemma FilePath(store: Store, root: ObjectId, q: Segments)
    requires WellNamed(store, root) && q != [] && FileAt(store, root, q).Some?
    ensures PathOf(q) == Glue(q) && Split(Glue(q)) == q
  {
    hide DirAt, Split;
    var c, n := Init(q), Last(q);
    assert c + [n] == q;
    DirSnoc(store, root, c, n);
    DirPath(store, root, c);
    DirPlain(store, root, c);
    SplitGlue(q);
    if c == [] {
      assert q == [n];
    } else {
      GlueSnoc(c, n);
    }
  }

  lemma FileOfIs(store: Store, root: ObjectId, path: string, id: ObjectId)
    requires WellNamed(store, root)
    ensures FileOf(store, root, path, id) <==> FileAt(store, root, Split(path)) == Some(id)
  {
    hide DirAt, Split, WellNamed, FileAt, PathFrom, Glue;
    if q: Segments :| q != [] && FileAt(store, root, q) == Some(id) && PathOf(q) == path {
      FilePath(store, root, q);
    }
    if FileAt(store, root, Split(path)) == Some(id) {
      FilePath(store, root, Split(path));
      GlueSplit(path);
    }
  }

  // ----------------------------------------------------------------------
  // There and back
  // ----------------------------------------------------------------------

  /** What the stored trees say of the flat map they were built from. */
  ghost predicate BuiltFrom(store: Store, root: ObjectId, files: Files) {
    && PlainBelow(store, root) && !Broken(store, root)
    && (forall c :: DirAt(store, root, c).Some? <==> c == [] || IsDirOf(files, c))
    && (forall p :: FileAt(store, root, Split(p)) == if p in files && !IsDirOf(files, Split(p)) then Some(files[p])
        else None)
  }

  method BuildTree(store: Store, files: Files, hash: Object -> ObjectId, ghost rank: ObjectId -> nat)
    returns (store': Store, root: ObjectId)
    requires Addressing(hash, rank) && Addressed(store, hash)
    ensures Extends(store, store') && Addressed(store', hash)
    ensures BuiltFrom(store', root, files)
  {
    hide *;
    var node := BuildDir(files);
    store', root := StoreDir(store, node, hash, rank);
    BuiltIs(store', root, node, files);
  }

  lemma BuiltIs(store: Store, root: ObjectId, node: DirNode, files: Files)
    requires Represents(store, root, node) && Holds(node, files)
    ensures BuiltFrom(store, root, files)
  {
    hide Represents, Split, Glue, Lookup, DirIn, DirAt, FileAt;
    forall q: Segments
      ensures DirAt(store, root, q).Some? <==> DirIn(node, q)
      ensures DirIn(node, q) ==> IsTree(store, DirAt(store, root, q).value)
      ensures q != [] ==> FileAt(store, root, q) == if DirIn(node, q) then None else Lookup(node, q)
    {
      RepresentsAt(store, root, node, q);
    }
    forall c, n | DirTree(store, root, c) && n in EntriesAt(store, root, c) ensures PlainName(n) {
      NameIsPlain(store, root, node, files, c, n);
    }
  }

  lemma NameIsPlain(store: Store, root: ObjectId, node: DirNode, files: Files, c: Segments, n: string)
    requires Represents(store, root, node) && Holds(node, files)
    requires DirTree(store, root, c) && n in EntriesAt(store, root, c)
    ensures PlainName(n)
  {
    hide Represents, Split, Glue, Lookup, DirIn, DirAt;
    var q := c + [n];
    DirSnoc(store, root, c, n);
    RepresentsAt(store, root, node, q);
    assert q[|c|] == n;
    if DirAt(store, root, q).Some? {
      var p :| p in files && ProperPrefix(q, Split(p));
      assert Split(p)[..|q|][|c|] == Split(p)[|c|];
    } else {
      assert Split(Glue(q)) == q;
    }
  }

  /** No path is a directory of another, and no path starts at an unnamed root. */
  ghost predicate PrefixFree(files: Files) {
    forall p, q :: p in files && q in files ==> !ProperPrefix(Split(p), Split(q))
  }

  ghost predicate NoLeadingSlash(files: Files) {
    forall p :: p in files ==> Unrooted(p)
  }

  lemma RootedSplit(p: string)
    ensures !Unrooted(p) <==> ProperPrefix([""], Split(p))
  {
    if !Unrooted(p) {
      assert Cut(p) == 0 && p[..0] == "";
      assert Split(p)[..1] == [Split(p)[0]];
    }
    if ProperPrefix([""], Split(p)) {
      assert Split(p)[..1][0] == Split(p)[0];
      assert p[..Cut(p)] == "";
    }
  }

  lemma BuiltRoot(store: Store, root: ObjectId, files: Files)
    requires BuiltFrom(store, root, files)
    ensures NamedRoot(store, root) <==> NoLeadingSlash(files)
  {
    hide Split, FileAt, PlainBelow, Broken, Unrooted;
    assert [] + [""] == [""];
    DirSnoc(store, root, [], "");
    forall p | p in files ensures !Unrooted(p) <==> ProperPrefix([""], Split(p)) { RootedSplit(p); }
    assert DirAt(store, root, []) == Some(root);
    if !NoLeadingSlash(files) {
      var p :| p in files && !Unrooted(p);
      assert IsDirOf(files, [""]);
    }
  }

  /** What comes back of a built tree: the files no other path runs through. */
  lemma BuiltWalk(store: Store, root: ObjectId, files: Files, out: Files)
    requires BuiltFrom(store, root, files) && Walked(store, root, None, out) && WellNamed(store, root)
    ensures forall p :: p in out <==> p in files && !IsDirOf(files, Split(p))
    ensures forall p :: p in out ==> out[p] == files[p]
  {
    hide Split, FileAt, DirAt, PlainBelow, WellNamed, Broken, IsDirOf, FileOf;
    forall p, id: ObjectId ensures FileOf(store, root, p, id) <==> FileAt(store, root, Split(p)) == Some(id) {
      FileOfIs(store, root, p, id);
    }
    forall p ensures p in out <==> p in files && !IsDirOf(files, Split(p)) {
      assert p in out <==> HasPath(store, root, p);
      if p in files && !IsDirOf(files, Split(p)) { assert FileOf(store, root, p, files[p]); }
    }
  }

  lemma FreeIs(files: Files)
    ensures PrefixFree(files) <==> forall p :: p in files ==> !IsDirOf(files, Split(p))
  {
    hide Split, ProperPrefix;
  }

  lemma RootedLost(store: Store, root: ObjectId, files: Files, out: Files)
    requires BuiltFrom(store, root, files) && Walked(store, root, None, out) && !NoLeadingSlash(files)
    ensures out != files
  {
    hide Split, FileAt, DirAt, PlainBelow, WellNamed, Broken, IsDirOf, Unrooted, FileOf;
    var p :| p in files && !Unrooted(p);
    if p in out {
      FileUnrooted(store, root, p, out[p]);
    }
  }

  /** Building nested trees and walking them back restores the flat map exactly
      when the map is prefix-free and no path starts with a separator. */
  lemma RoundTrip(store: Store, root: ObjectId, files: Files, out: Files)
    requires BuiltFrom(store, root, files) && Walked(store, root, None, out)
    ensures out == files <==> PrefixFree(files) && NoLeadingSlash(files)
  {
    hide Split, WellNamed, PrefixFree, NoLeadingSlash, BuiltFrom, Walked, IsDirOf;
    if NoLeadingSlash(files) {
      BuiltSound(store, root, files);
      BuiltWalk(store, root, files, out);
      FreeIs(files);
      if PrefixFree(files) { assert out == files; }
    } else {
      RootedLost(store, root, files, out);
    }
  }

  /** The depth-bounded walk of a built tree succeeds exactly when no path has more
      segments than the bound. */
  lemma BuiltDepth(store: Store, root: ObjectId, files: Files)
    requires BuiltFrom(store, root, files)
    ensures TooDeep(store, root) <==> exists p :: p in files && |Split(p)| > MAX_TREE_DEPTH
  {
    hide Split, FileAt, DirAt, PlainBelow, NamedRoot, Broken;
    if p :| p in files && |Split(p)| > MAX_TREE_DEPTH {
      var c := Init(Split(p));
      assert IsDirOf(files, c);
      assert DirAt(store, root, c).Some?;
    }
    if c :| DirAt(store, root, c).Some? && |c| >= MAX_TREE_DEPTH {
      var p :| p in files && ProperPrefix(c, Split(p));
    }
  }

  /** Both walkers over a freshly built tree. */
  method BuildAndWalk(store: Store, files: Files, view: View, hash: Object -> ObjectId, ghost rank: ObjectId -> nat)
    returns (full: Result<Files, WalkError>, seen: Result<Files, WalkError>)
    requires Addressing(hash, rank) && Addressed(store, hash)
    ensures full.Ok? && (full.value == files <==> PrefixFree(files) && NoLeadingSlash(files))
    ensures seen.Ok? <==> forall p :: p in files ==> |Split(p)| <= MAX_TREE_DEPTH
    ensures seen.Ok? ==> seen.value == map p | p in full.value && Shows(Some(view), p) :: full.value[p]
  {
    hide *;
    var store', root := BuildTree(store, files, hash, rank);
    AddressedNested(store', hash, rank);
    full := WalkTree(store', root, rank);
    seen := WalkTreeFiltered(store', view, root, rank);
    BuiltSound(store', root, files);
    RoundTrip(store', root, files, full.value);
    BuiltDepth(store', root, files);
    FilteredIsRestricted(store', root, rank, view);
  }

  lemma BuiltSound(store: Store, root: ObjectId, files: Files)
    requires BuiltFrom(store, root, files)
    ensures !Broken(store, root)
    ensures NoLeadingSlash(files) ==> WellNamed(store, root)
  {
    hide NamedRoot, PlainBelow, NoLeadingSlash, Broken;
    BuiltRoot(store, root, files);
  }

  // ----------------------------------------------------------------------
  // Rebuilding a merge
  // ----------------------------------------------------------------------

  /** One side adds a path and the other adds one that runs through it. */
  ghost predicate AddsCross(base: Files, ours: Files, theirs: Files) {
    exists p, q ::
      && p !in base && q !in base
      && ((p in ours && q in theirs) || (p in theirs && q in ours))
      && ProperPrefix(Split(p), Split(q))
  }

  /** A path of a clean merge that one side lacks was added by the other. */
  lemma AddedBySide(base: Files, ours: Files, theirs: Files, m: Files, p: string)
    requires IsMerge(base, ours, theirs, m, [])
    ensures p in m ==> p in ours || p in theirs
    ensures p in m && (p !in ours || p !in theirs) ==> p !in base
    ensures p !in base && (p in ours || p in theirs) ==> p in m
  {
    hide IsMerge;
    ConflictedIff(base, ours, theirs, m, [], p);
    MergedAt(base, ours, theirs, m, [], p);
  }

  /** Merging two maps without a clash of file and directory gives one exactly when
      both sides add paths and one added path runs through another. */
  lemma MergeClash(base: Files, ours: Files, theirs: Files, m: Files)
    requires IsMerge(base, ours, theirs, m, []) && PrefixFree(ours) && PrefixFree(theirs)
    ensures PrefixFree(m) <==> !AddsCross(base, ours, theirs)
  {
    hide IsMerge, Split, ProperPrefix;
    forall p
      ensures p in m ==> p in ours || p in theirs
      ensures p in m && (p !in ours || p !in theirs) ==> p !in base
      ensures p !in base && (p in ours || p in theirs) ==> p in m
    {
      AddedBySide(base, ours, theirs, m, p);
    }
  }

  /** So a clean merge of two maps that survive rebuilding survives it too, unless
      the sides' additions cross. */
  lemma MergeRebuilds(base: Files, ours: Files, theirs: Files, m: Files, store: Store, root: ObjectId, out: Files)
    requires IsMerge(base, ours, theirs, m, [])
    requires PrefixFree(ours) && NoLeadingSlash(ours) && PrefixFree(theirs) && NoLeadingSlash(theirs)
    requires BuiltFrom(store, root, m) && Walked(store, root, None, out)
    ensures out == m <==> !AddsCross(base, ours, theirs)
  {
    hide IsMerge, BuiltFrom, Walked, PrefixFree, AddsCross, Unrooted;
    MergeClash(base, ours, theirs, m);
    RoundTrip(store, root, m, out);
    forall p | p in m ensures Unrooted(p) { AddedBySide(base, ours, theirs, m, p); }
  }
}
