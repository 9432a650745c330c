/** The packed object backend: loose object files plus immutable packs. As in the
    journal, a `budget` counts the disk operations that complete before the
    process dies, and a contract that holds for every budget holds for a crash at
    every step. */
module Packed {
  import opened Wrappers
  import opened Reach
  import opened Objects

  /** The digest in a pack's file name. */
  type PackName = nat

  datatype LooseFile = LooseFile(data: Object, mtime: nat)

  datatype Status = Completed | Crashed

  const U64_MAX: nat := 0xFFFF_FFFF_FFFF_FFFF

  function SaturatingAdd(a: nat, b: nat): nat {
    if a + b > U64_MAX then U64_MAX else a + b
  }

  predicate Kept(keep: Option<set<ObjectId>>, id: ObjectId) {
    keep.None? || id in keep.value
  }

  /** The ids copied forward: first occurrences, in order, that are kept. */
  function Gather(ids: seq<ObjectId>, keep: Option<set<ObjectId>>): seq<ObjectId> {
    if ids == [] then []
    else
      var rest, z := ids[..|ids| - 1], ids[|ids| - 1];
      Gather(rest, keep) + if z in rest || !Kept(keep, z) then [] else [z]
  }

  lemma {:induction false} GatherElements(ids: seq<ObjectId>, keep: Option<set<ObjectId>>)
    ensures forall x :: x in Gather(ids, keep) <==> x in ids && Kept(keep, x)
    ensures forall i, j :: 0 <= i < j < |Gather(ids, keep)| ==> Gather(ids, keep)[i] != Gather(ids, keep)[j]
  {
    if ids != [] {
      GatherElements(ids[..|ids| - 1], keep);
      assert forall x :: x in ids <==> x in ids[..|ids| - 1] || x == ids[|ids| - 1];
    }
  }

  /** One more id at the end. */
  lemma GatherOne(ids: seq<ObjectId>, z: ObjectId, keep: Option<set<ObjectId>>)
    ensures Gather(ids + [z], keep) == Gather(ids, keep) + if z in ids || !Kept(keep, z) then [] else [z]
  {
    assert (ids + [z])[..|ids|] == ids;
  }

  /** Distinct kept ids are copied forward as they stand. */
  lemma {:induction false} GatherAll(ids: seq<ObjectId>, keep: Option<set<ObjectId>>)
    requires forall i, j :: 0 <= i < j < |ids| ==> ids[i] != ids[j]
    requires forall x :: x in ids ==> Kept(keep, x)
    ensures Gather(ids, keep) == ids
  {
    hide Gather, Kept;
    if ids == [] {
      GatherNone(keep);
    } else {
      var front, z := ids[..|ids| - 1], ids[|ids| - 1];
      assert ids == front + [z];
      assert z in ids && z !in front;
      assert forall x :: x in front ==> x in ids;
      GatherAll(front, keep);
      GatherOne(front, z, keep);
    }
  }

  lemma GatherNone(keep: Option<set<ObjectId>>)
    ensures Gather([], keep) == []
  {
  }

  /** What is not kept leaves no trace in front. */
  lemma {:induction false} GatherSkip(a: seq<ObjectId>, b: seq<ObjectId>, keep: Option<set<ObjectId>>)
    requires forall x :: x in a ==> !Kept(keep, x)
    ensures Gather(a + b, keep) == Gather(b, keep)
    decreases |b|
  {
    hide Gather, Kept;
    if b == [] {
      assert Gather(a, keep) == [] || Gather(a, keep)[0] in Gather(a, keep);
      GatherElements(a, keep);
      GatherNone(keep);
      assert a + b == a;
    } else {
      var front, z := b[..|b| - 1], b[|b| - 1];
      GatherSkip(a, front, keep);
      assert b == front + [z] && a + b == (a + front) + [z];
      GatherOne(front, z, keep);
      GatherOne(a + front, z, keep);
    }
  }

  lemma {:induction false} GatherAscending(ids: seq<ObjectId>, keep: Option<set<ObjectId>>)
    requires Ascending(ids)
    ensures Ascending(Gather(ids, keep))
  {
    hide Gather, Kept;
    if ids == [] {
      GatherNone(keep);
    } else {
      var front, z := ids[..|ids| - 1], ids[|ids| - 1];
      assert ids == front + [z];
      GatherAscending(front, keep);
      GatherElements(front, keep);
      GatherOne(front, z, keep);
      assert forall i :: 0 <= i < |Gather(front, keep)| ==> Gather(front, keep)[i] in front;
    }
  }

  /** The files that survive a crash. */
  datatype Disk = Disk(
    loose: map<ObjectId, LooseFile>,                    // loose objects with their modification times
    packFiles: map<PackName, map<ObjectId, Object>>,    // pack-<name>.pack
    idxFiles: set<PackName>)                            // pack-<name>.idx, listing exactly the ids of its pack

  ghost function PackedIds(d: Disk): set<ObjectId> {
    set n, id | n in d.packFiles && n in d.idxFiles && id in d.packFiles[n] :: id
  }

  /** What a process opening this disk can read. */
  ghost function Readable(d: Disk): set<ObjectId> {
    d.loose.Keys + PackedIds(d)
  }

  /** A pack is loaded only when both of its files are there. */
  predicate Complete(d: Disk, n: PackName) {
    n in d.packFiles && n in d.idxFiles
  }

  /** Every copy of an object carries the content its id names. */
  ghost predicate Sound(d: Disk, content: ObjectId -> Object) {
    && (forall id :: id in d.loose ==> d.loose[id].data == content(id))
    && (forall n, id :: n in d.packFiles && id in d.packFiles[n] ==> d.packFiles[n][id] == content(id))
  }

  /** The loaded packs are exactly the complete ones, each once. */
  ghost predicate Loads(d: Disk, packs: seq<PackName>) {
    && (forall i :: 0 <= i < |packs| ==> Complete(d, packs[i]))
    && (forall n :: Complete(d, n) ==> n in packs)
    && (forall i, j :: 0 <= i < j < |packs| ==> packs[i] != packs[j])
  }

  /** The ids of the named packs, pack by pack, each in index order. */
  ghost function IndexedIds(d: Disk, names: seq<PackName>): seq<ObjectId>
    requires forall i :: 0 <= i < |names| ==> names[i] in d.packFiles
  {
    if names == [] then []
    else IndexedIds(d, names[..|names| - 1]) + Sorted(d.packFiles[names[|names| - 1]].Keys)
  }

  lemma {:induction false} IndexedElements(d: Disk, names: seq<PackName>)
    requires forall i :: 0 <= i < |names| ==> names[i] in d.packFiles
    ensures forall x :: x in IndexedIds(d, names) <==> exists n :: n in names && x in d.packFiles[n]
  {
    if names != [] {
      var rest, z := names[..|names| - 1], names[|names| - 1];
      IndexedElements(d, rest);
      assert forall n :: n in names <==> n in rest || n == z;
    }
  }

  /** The listing a directory scan returned names each loose object once. */
  ghost predicate IsListing(d: Disk, listing: seq<ObjectId>) {
    && (forall x :: x in listing <==> x in d.loose)
    && (forall i, j :: 0 <= i < j < |listing| ==> listing[i] != listing[j])
  }

  /** The ids a repack copies forward, in pack order; the pack is named after them. */
  ghost function Sources(d: Disk, packs: seq<PackName>, listing: seq<ObjectId>, keep: Option<set<ObjectId>>)
    : seq<ObjectId>
    requires Loads(d, packs)
  {
    Gather(listing + IndexedIds(d, packs), keep)
  }

  lemma SourcesElements(d: Disk, packs: seq<PackName>, listing: seq<ObjectId>, keep: Option<set<ObjectId>>)
    requires Loads(d, packs) && IsListing(d, listing)
    ensures forall x :: x in listing + IndexedIds(d, packs) <==> x in Readable(d)
    ensures forall x :: x in Sources(d, packs, listing, keep) <==> x in Readable(d) && Kept(keep, x)
  {
    IndexedElements(d, packs);
    GatherElements(listing + IndexedIds(d, packs), keep);
    forall x ensures x in listing + IndexedIds(d, packs) <==> x in Readable(d) {
      if x in PackedIds(d) {
        var n :| n in d.packFiles && n in d.idxFiles && x in d.packFiles[n];
        assert Complete(d, n);
        assert n in packs;
      }
      if x in IndexedIds(d, packs) {
        var n :| n in packs && x in d.packFiles[n];
        assert Complete(d, n);
      }
    }
  }

  // ----------------------------------------------------------------------
  // Counting
  // ----------------------------------------------------------------------

  ghost function PackSizes(d: Disk, names: seq<PackName>): nat
    requires forall i :: 0 <= i < |names| ==> names[i] in d.packFiles
  {
    if names == [] then 0 else PackSizes(d, names[..|names| - 1]) + |d.packFiles[names[|names| - 1]]|
  }

  ghost function IdsOf(d: Disk, names: seq<PackName>): set<ObjectId>
    requires forall i :: 0 <= i < |names| ==> names[i] in d.packFiles
  {
    if names == [] then {} else IdsOf(d, names[..|names| - 1]) + d.packFiles[names[|names| - 1]].Keys
  }

  /** No two of the packs hold the same object. */
  ghost predicate Separate(d: Disk, names: seq<PackName>)
    requires forall i :: 0 <= i < |names| ==> names[i] in d.packFiles
  {
    forall i, j :: 0 <= i < j < |names| ==> d.packFiles[names[i]].Keys !! d.packFiles[names[j]].Keys
  }

  /** What `count` adds up: every pack's own count, and the loose objects in no pack. */
  ghost function CountOf(d: Disk, packs: seq<PackName>): nat
    requires Loads(d, packs)
  {
    PackSizes(d, packs) + |d.loose.Keys - PackedIds(d)|
  }

  lemma {:induction false} IdsElements(d: Disk, names: seq<PackName>)
    requires forall i :: 0 <= i < |names| ==> names[i] in d.packFiles
    ensures forall x :: x in IdsOf(d, names) <==> exists i :: 0 <= i < |names| && x in d.packFiles[names[i]]
  {
    if names != [] {
      var front := names[..|names| - 1];
      IdsElements(d, front);
      forall x ensures x in IdsOf(d, names) <==> exists i :: 0 <= i < |names| && x in d.packFiles[names[i]] {
        if x in IdsOf(d, front) {
          var i :| 0 <= i < |front| && x in d.packFiles[front[i]];
          assert x in d.packFiles[names[i]];
        }
        if i :| 0 <= i < |names| - 1 && x in d.packFiles[names[i]] { assert x in d.packFiles[front[i]]; }
      }
    }
  }

  lemma UnionSize<T>(a: set<T>, b: set<T>)
    ensures |a + b| == |a| + |b| - |a * b|
    ensures |a + b| == |a| + |b| <==> a !! b
  {
    assert a + b == a + (b - a * b) && a !! (b - a * b);
    assert |b - a * b| == |b| - |a * b|;
    if |a * b| == 0 { assert a * b == {}; }
    assert a !! b ==> a * b == {};
  }

  lemma {:induction false} SizesBound(d: Disk, names: seq<PackName>)
    requires forall i :: 0 <= i < |names| ==> names[i] in d.packFiles
    ensures |IdsOf(d, names)| <= PackSizes(d, names)
    ensures |IdsOf(d, names)| == PackSizes(d, names) <==> Separate(d, names)
  {
    if names != [] {
      var front, z := names[..|names| - 1], names[|names| - 1];
      SizesBound(d, front);
      UnionSize(IdsOf(d, front), d.packFiles[z].Keys);
      assert |d.packFiles[z]| == |d.packFiles[z].Keys|;
      SeparateNext(d, names);
    }
  }

  lemma SeparateNext(d: Disk, names: seq<PackName>)
    requires names != [] && forall i :: 0 <= i < |names| ==> names[i] in d.packFiles
    ensures var front, z := names[..|names| - 1], names[|names| - 1];
            Separate(d, names) <==> Separate(d, front) && IdsOf(d, front) !! d.packFiles[z].Keys
  {
    hide IdsOf;
    var front, z := names[..|names| - 1], names[|names| - 1];
    IdsElements(d, front);
    assert forall i :: 0 <= i < |front| ==> front[i] == names[i];
    if Separate(d, names) {
      forall x | x in IdsOf(d, front) ensures x !in d.packFiles[z].Keys {
        var i :| 0 <= i < |front| && x in d.packFiles[front[i]];
        assert d.packFiles[names[i]].Keys !! d.packFiles[names[|names| - 1]].Keys;
      }
    }
    if Separate(d, front) && IdsOf(d, front) !! d.packFiles[z].Keys {
      forall i, j | 0 <= i < j < |names| ensures d.packFiles[names[i]].Keys !! d.packFiles[names[j]].Keys {
        if j < |names| - 1 {
          assert d.packFiles[front[i]].Keys !! d.packFiles[front[j]].Keys;
        } else {
          forall x | x in d.packFiles[names[i]].Keys ensures x !in d.packFiles[z].Keys {
            assert x in d.packFiles[front[i]];
          }
        }
      }
    }
  }

  lemma IdsArePacked(d: Disk, packs: seq<PackName>)
    requires Loads(d, packs)
    ensures IdsOf(d, packs) == PackedIds(d)
  {
    hide IdsOf;
    IdsElements(d, packs);
    forall x ensures x in IdsOf(d, packs) <==> x in PackedIds(d) {
      if n :| n in d.packFiles && n in d.idxFiles && x in d.packFiles[n] {
        assert Complete(d, n);
        var i :| 0 <= i < |packs| && packs[i] == n;
        assert x in d.packFiles[packs[i]];
      }
      if i :| 0 <= i < |packs| && x in d.packFiles[packs[i]] { assert Complete(d, packs[i]); }
    }
  }

  /** The count is the number of readable objects exactly when no two loaded packs
      hold the same one; otherwise it is too high. */
  lemma CountExact(d: Disk, packs: seq<PackName>)
    requires Loads(d, packs)
    ensures |Readable(d)| <= CountOf(d, packs)
    ensures |Readable(d)| == CountOf(d, packs) <==> Separate(d, packs)
  {
    hide IdsOf, PackSizes, Separate, PackedIds;
    SizesBound(d, packs);
    IdsArePacked(d, packs);
    var packed, extra := PackedIds(d), d.loose.Keys - PackedIds(d);
    assert Readable(d) == packed + extra;
    UnionSize(packed, extra);
  }

  // ----------------------------------------------------------------------
  // The stages of a repack, each possibly cut short
  // ----------------------------------------------------------------------

  ghost predicate Written(d: Disk, d': Disk, name: PackName, pack: map<ObjectId, Object>) {
    || d' == d
    || d' == d.(packFiles := d.packFiles[name := pack])
    || FullyWritten(d, d', name, pack)
  }

  ghost predicate FullyWritten(d: Disk, d': Disk, name: PackName, pack: map<ObjectId, Object>) {
    d' == Disk(d.loose, d.packFiles[name := pack], d.idxFiles + {name})
  }

  /** Only files of the named packs went away. */
  ghost predicate Retired(d: Disk, d': Disk, names: seq<PackName>) {
    && d'.loose == d.loose
    && (forall n :: n in d'.packFiles ==> n in d.packFiles && d'.packFiles[n] == d.packFiles[n])
    && d'.idxFiles <= d.idxFiles
    && (forall n :: n !in names ==> (n in d.packFiles ==> n in d'.packFiles) && (n in d.idxFiles ==> n in d'.idxFiles))
  }

  /** Only loose copies of these ids went away. */
  ghost predicate Dropped(d: Disk, d': Disk, ids: seq<ObjectId>) {
    && d'.packFiles == d.packFiles && d'.idxFiles == d.idxFiles
    && (forall x :: x in d'.loose ==> x in d.loose && d'.loose[x] == d.loose[x])
    && (forall x :: x in d.loose && x !in ids ==> x in d'.loose)
  }

  lemma PackedAt(d: Disk, n: PackName, x: ObjectId)
    requires Complete(d, n) && x in d.packFiles[n]
    ensures x in PackedIds(d)
  {
  }

  /** Where a packed id was found. */
  lemma PackOf(d: Disk, x: ObjectId) returns (n: PackName)
    requires x in PackedIds(d)
    ensures Complete(d, n) && x in d.packFiles[n]
  {
    n :| n in d.packFiles && n in d.idxFiles && x in d.packFiles[n];
  }

  lemma WrittenReadable(d: Disk, d': Disk, name: PackName, pack: map<ObjectId, Object>)
    requires Written(d, d', name, pack) && pack.Keys <= Readable(d)
    ensures Readable(d') <= Readable(d)
    ensures !Complete(d, name) ==> Readable(d) <= Readable(d')
    ensures FullyWritten(d, d', name, pack) ==> pack.Keys <= PackedIds(d')
  {
    hide PackedIds;
    forall x | x in PackedIds(d') ensures x in Readable(d) {
      var n := PackOf(d', x);
      if n != name || d' == d { PackedAt(d, n, x); }
    }
    if !Complete(d, name) {
      forall x | x in PackedIds(d) ensures x in PackedIds(d') {
        var n := PackOf(d, x);
        PackedAt(d', n, x);
      }
    }
    if FullyWritten(d, d', name, pack) {
      forall x | x in pack ensures x in PackedIds(d') { PackedAt(d', name, x); }
    }
  }

  lemma RetiredReadable(d: Disk, d': Disk, names: seq<PackName>)
    requires Retired(d, d', names)
    ensures PackedIds(d') <= PackedIds(d) && Readable(d') <= Readable(d)
    ensures forall n :: Complete(d, n) && n !in names ==> d.packFiles[n].Keys <= PackedIds(d')
    ensures (forall n :: n in names ==> !Complete(d', n)) ==>
              forall x :: x in PackedIds(d') ==> exists n :: Complete(d, n) && n !in names && x in d.packFiles[n]
  {
    forall x | x in PackedIds(d') ensures x in PackedIds(d) {
      var n :| n in d'.packFiles && n in d'.idxFiles && x in d'.packFiles[n];
      assert d.packFiles[n] == d'.packFiles[n];
    }
    if forall n :: n in names ==> !Complete(d', n) {
      forall x | x in PackedIds(d') ensures exists n :: Complete(d, n) && n !in names && x in d.packFiles[n] {
        var n :| n in d'.packFiles && n in d'.idxFiles && x in d'.packFiles[n];
        assert Complete(d, n) && n !in names;
      }
    }
  }

  lemma StagesSound(
    content: ObjectId -> Object, d: Disk, d1: Disk, d2: Disk, d3: Disk, name: PackName, pack: map<ObjectId, Object>,
    names: seq<PackName>, ids: seq<ObjectId>)
    requires Sound(d, content) && forall id :: id in pack ==> pack[id] == content(id)
    requires Written(d, d1, name, pack) && Retired(d1, d2, names) && Dropped(d2, d3, ids)
    ensures Sound(d3, content)
  {
  }

  /** With a fresh name, no cut through the stages loses a copied object. */
  lemma StagesSafe(
    d: Disk, d1: Disk, d2: Disk, d3: Disk, name: PackName, pack: map<ObjectId, Object>, names: seq<PackName>,
    ids: seq<ObjectId>)
    requires Loads(d, names) && pack.Keys <= Readable(d) && pack.Keys == Elements(ids)
    requires Written(d, d1, name, pack) && Retired(d1, d2, names) && Dropped(d2, d3, ids)
    requires FullyWritten(d, d1, name, pack) || d3 == d1
    ensures Readable(d3) <= Readable(d)
    ensures name !in names ==> pack.Keys <= Readable(d3)
  {
    hide Readable, Sorted;
    WrittenReadable(d, d1, name, pack);
    RetiredReadable(d1, d2, names);
    assert PackedIds(d3) == PackedIds(d2);
    ReadableSplit(d, d1, d2, d3);
    if name !in names && FullyWritten(d, d1, name, pack) {
      assert Complete(d1, name) && d1.packFiles[name] == pack;
    }
  }

  lemma ReadableSplit(d: Disk, d1: Disk, d2: Disk, d3: Disk)
    ensures Readable(d) == d.loose.Keys + PackedIds(d) && Readable(d1) == d1.loose.Keys + PackedIds(d1)
    ensures Readable(d2) == d2.loose.Keys + PackedIds(d2) && Readable(d3) == d3.loose.Keys + PackedIds(d3)
  {
  }

  /** Disk operations of a full repack. */
  function RepackCost(packs: seq<PackName>, sources: seq<ObjectId>): nat {
    4 + 2 * |packs| + |sources|
  }

  /** What a finished repack leaves readable: the copied objects exactly when the
      new pack's name was fresh, and the loose objects that were not copied. */
  ghost predicate RepackResult(d: Disk, d': Disk, keep: Option<set<ObjectId>>, isFresh: bool) {
    && (forall x :: x in Readable(d') <==>
        (x in Readable(d) && Kept(keep, x) && isFresh) || (x in d.loose && !Kept(keep, x)))
    && (forall x :: x in PackedIds(d') ==> Kept(keep, x))
  }

  lemma StagesExact(
    d: Disk, d1: Disk, d2: Disk, d3: Disk, name: PackName, pack: map<ObjectId, Object>, names: seq<PackName>,
    ids: seq<ObjectId>, keep: Option<set<ObjectId>>)
    requires Loads(d, names) && pack.Keys == Elements(ids)
    requires forall x :: x in pack <==> x in Readable(d) && Kept(keep, x)
    requires FullyWritten(d, d1, name, pack) && Retired(d1, d2, names) && Dropped(d2, d3, ids)
    requires forall n :: n in names ==> !Complete(d2, n)
    requires forall x :: x in ids ==> x !in d3.loose
    ensures RepackResult(d, d3, keep, name !in names)
  {
    StagesSafe(d, d1, d2, d3, name, pack, names, ids);
    RetiredReadable(d1, d2, names);
    assert PackedIds(d3) == PackedIds(d2);
    forall x | x in PackedIds(d2) ensures name !in names && x in pack {
      var n :| Complete(d1, n) && n !in names && x in d1.packFiles[n];
      assert n == name by { if n != name { assert Complete(d, n); } }
    }
  }

  /** One pack is loaded, holding exactly these ids. */
  ghost predicate OnlyPack(d: Disk, packs: seq<PackName>, name: PackName, ids: seq<ObjectId>) {
    packs == [name] && name in d.packFiles && d.packFiles[name].Keys == Elements(ids)
  }

  lemma StagesOnePack(
    d: Disk, d1: Disk, d2: Disk, d3: Disk, name: PackName, pack: map<ObjectId, Object>, names: seq<PackName>,
    ids: seq<ObjectId>, packs: seq<PackName>)
    requires Loads(d, names) && Loads(d3, packs)
    requires FullyWritten(d, d1, name, pack) && Retired(d1, d2, names) && Dropped(d2, d3, ids)
    requires forall n :: n in names ==> !Complete(d2, n)
    ensures |packs| <= 1
  {
    assert |packs| <= 1 || packs[0] != packs[1];
    assert forall n :: Complete(d3, n) && n != name ==> Complete(d, n);
    assert forall i :: 0 <= i < |packs| ==> packs[i] == name;
  }

  lemma AllRetired(d: Disk, d': Disk, names: seq<PackName>, packs: seq<PackName>)
    requires Loads(d, names) && Loads(d', packs) && Retired(d, d', names)
    requires forall n :: n in names ==> !Complete(d', n)
    ensures packs == []
  {
    assert packs == [] || Complete(d', packs[0]);
    assert forall n :: Complete(d', n) ==> Complete(d, n);
  }

  lemma StagesOnlyPack(
    d: Disk, d1: Disk, d2: Disk, d3: Disk, name: PackName, pack: map<ObjectId, Object>, names: seq<PackName>,
    ids: seq<ObjectId>, packs: seq<PackName>)
    requires Loads(d, names) && Loads(d3, packs) && pack.Keys == Elements(ids) && name !in names
    requires FullyWritten(d, d1, name, pack) && Retired(d1, d2, names) && Dropped(d2, d3, ids)
    requires forall n :: n in names ==> !Complete(d2, n)
    ensures OnlyPack(d3, packs, name, ids)
  {
    assert |packs| <= 1 || packs[0] != packs[1];
    assert Complete(d1, name) && Complete(d3, name);
    assert forall n :: Complete(d3, n) && n != name ==> Complete(d, n);
    assert forall i :: 0 <= i < |packs| ==> packs[i] == name;
    assert name in packs;
  }

  // ----------------------------------------------------------------------
  // The backend
  // ----------------------------------------------------------------------

  class PackedDiskBackend {
    /** What each id's content is; an id names one content. */
    ghost const content: ObjectId -> Object
    var disk: Disk
    /** The packs loaded in memory, in probe order; lost in a crash. */
    var packs: seq<PackName>

    constructor (ghost content: ObjectId -> Object)
      ensures this.content == content && Valid() && Loaded() && Readable(disk) == {}
    {
      this.content := content;
      disk, packs := Disk(map[], map[], {}), [];
    }

    ghost predicate Valid()
      reads this
    {
      Sound(disk, content)
    }

    ghost predicate Loaded()
      reads this
    {
      Loads(disk, packs)
    }

    /** The store this disk stands for. */
    ghost function Contents(): Store
      reads this
    {
      map id | id in Readable(disk) :: content(id)
    }

    /** Re-scans the pack directory: an index without its pack is skipped. */
    method LoadPacks()
      modifies this`packs
      ensures Loaded()
    {
      var names := Sorted(set n | n in disk.idxFiles && n in disk.packFiles);
      assert forall i :: 0 <= i < |names| ==> names[i] in names;
      packs := seq(|names|, i requires 0 <= i < |names| => names[|names| - 1 - i]); // newest name first
      forall n | Complete(disk, n) ensures n in packs {
        assert n in names;
        var i :| 0 <= i < |names| && names[i] == n;
        assert packs[|names| - 1 - i] == n;
      }
    }

    /** Loose first, then the packs in probe order. */
    method GetObject(id: ObjectId) returns (r: Option<Object>)
      requires Valid() && Loaded()
      ensures r == if id in Readable(disk) then Some(content(id)) else None
    {
      if id in disk.loose { return Some(disk.loose[id].data); }
      for i := 0 to |packs|
        invariant forall j :: 0 <= j < i ==> id !in disk.packFiles[packs[j]]
      {
        if id in disk.packFiles[packs[i]] { return Some(disk.packFiles[packs[i]][id]); }
      }
      r := None;
      assert id !in Readable(disk) by {
        if n :| n in disk.packFiles && n in disk.idxFiles && id in disk.packFiles[n] { assert Complete(disk, n); }
      }
    }

    method InAnyPack(id: ObjectId) returns (r: bool)
      requires Loaded()
      ensures r <==> id in PackedIds(disk)
    {
      for i := 0 to |packs|
        invariant forall j :: 0 <= j < i ==> id !in disk.packFiles[packs[j]]
      {
        if id in disk.packFiles[packs[i]] {
          assert Complete(disk, packs[i]);
          return true;
        }
      }
      r := false;
      if n :| n in disk.packFiles && n in disk.idxFiles && id in disk.packFiles[n] { assert Complete(disk, n); }
    }

    /** Adds up the packs' counts, and the loose objects no pack holds. */
    method CountObjects(listing: seq<ObjectId>) returns (n: nat)
      requires Loaded() && IsListing(disk, listing)
      ensures n == CountOf(disk, packs)
    {
      hide PackedIds;
      n := 0;
      for i := 0 to |packs|
        invariant n == PackSizes(disk, packs[..i])
      {
        assert packs[..i + 1][..i] == packs[..i];
        n := n + |disk.packFiles[packs[i]]|;
      }
      assert packs[..|packs|] == packs;
      ghost var found: set<ObjectId> := {};
      for i := 0 to |listing|
        invariant forall x :: x in found <==> x in listing[..i] && x !in PackedIds(disk)
        invariant n == PackSizes(disk, packs) + |found|
      {
        assert listing[i] !in listing[..i];
        var packed := InAnyPack(listing[i]);
        if !packed {
          n := n + 1;
          found := found + {listing[i]};
        }
      }
      assert listing[..|listing|] == listing;
      assert found == disk.loose.Keys - PackedIds(disk);
    }

    /** Writes land loose, unless a pack already holds the object. */
    method PutObject(id: ObjectId, data: Object, now: nat)
      requires Valid() && Loaded() && data == content(id)
      modifies this`disk
      ensures Valid() && Loaded() && Readable(disk) == old(Readable(disk)) + {id}
      ensures disk == old(disk) ||
          (id !in old(disk.loose) && disk == old(disk).(loose := old(disk.loose)[id := LooseFile(data, now)]))
    {
      for i := 0 to |packs|
      {
        if id in disk.packFiles[packs[i]] { return; }
      }
      if id !in disk.loose {
        disk := disk.(loose := disk.loose[id := LooseFile(data, now)]);
      }
    }

    /** Lists every candidate and reads the kept ones, first occurrence only. */
    method Collect(listing: seq<ObjectId>, keep: Option<set<ObjectId>>)
      returns (sources: seq<ObjectId>, pack: map<ObjectId, Object>)
      requires Valid() && Loaded() && IsListing(disk, listing)
      ensures sources == Sources(disk, packs, listing, keep)
      ensures pack.Keys == Elements(sources) && forall id :: id in pack ==> pack[id] == content(id)
    {
      hide Sorted, Readable, Sound;
      var ids := listing;
      for i := 0 to |packs|
        invariant ids == listing + IndexedIds(disk, packs[..i])
      {
        assert packs[..i + 1][..i] == packs[..i];
        ids := ids + Sorted(disk.packFiles[packs[i]].Keys);
      }
      assert packs[..|packs|] == packs;
      SourcesElements(disk, packs, listing, keep);
      sources, pack := CollectFrom(ids, keep);
    }

    method CollectFrom(ids: seq<ObjectId>, keep: Option<set<ObjectId>>)
      returns (sources: seq<ObjectId>, pack: map<ObjectId, Object>)
      requires Valid() && Loaded() && forall x :: x in ids ==> x in Readable(disk)
      ensures sources == Gather(ids, keep)
      ensures pack.Keys == Elements(sources) && forall id :: id in pack ==> pack[id] == content(id)
    {
      hide Readable, Sound, Loads;
      sources, pack := [], map[];
      var seen: set<ObjectId> := {};
      for i := 0 to |ids|
        invariant sources == Gather(ids[..i], keep)
        invariant forall x :: x in seen <==> x in ids[..i]
        invariant pack.Keys == Elements(sources) && forall id :: id in pack ==> pack[id] == content(id)
      {
        assert ids[..i + 1][..i] == ids[..i];
        if ids[i] !in seen {
          seen := seen + {ids[i]};
          if Kept(keep, ids[i]) {
            var data := GetObject(ids[i]);
            sources, pack := sources + [ids[i]], pack[ids[i] := data.value];
          }
        }
      }
      assert ids[..|ids|] == ids;
    }

    /** Each file is written aside and renamed into place, the index last. */
    method WritePack(name: PackName, pack: map<ObjectId, Object>, budget: nat) returns (s: Status, left: nat)
      modifies this`disk
      ensures Written(old(disk), disk, name, pack)
      ensures s.Completed? ==> FullyWritten(old(disk), disk, name, pack) && left == budget - 4
      ensures budget >= 4 ==> s.Completed?
    {
      if budget < 2 { return Crashed, 0; } // the pack was not renamed into place
      disk := disk.(packFiles := disk.packFiles[name := pack]);
      if budget < 4 { return Crashed, 0; } // the index was not renamed into place
      disk := disk.(idxFiles := disk.idxFiles + {name});
      s, left := Completed, budget - 4;
    }

    /** Unlinks the files of each named pack, the pack before its index. */
    method RetirePacks(names: seq<PackName>, budget: nat) returns (s: Status, left: nat)
      modifies this`disk
      ensures Retired(old(disk), disk, names)
      ensures s.Completed? ==> (forall n :: n in names ==> !Complete(disk, n)) && left == budget - 2 * |names|
      ensures budget >= 2 * |names| ==> s.Completed?
    {
      left := budget;
      for i := 0 to |names|
        invariant Retired(old(disk), disk, names)
        invariant forall j :: 0 <= j < i ==> names[j] !in disk.packFiles
        invariant left == budget - 2 * i
      {
        if left == 0 { return Crashed, 0; }
        disk := disk.(packFiles := disk.packFiles - {names[i]});
        if left == 1 { return Crashed, 0; }
        disk := disk.(idxFiles := disk.idxFiles - {names[i]});
        left := left - 2;
      }
      s := Completed;
    }

    /** Deletes loose copies one by one. */
    method DropLoose(ids: seq<ObjectId>, budget: nat) returns (s: Status, left: nat)
      modifies this`disk
      ensures Dropped(old(disk), disk, ids)
      ensures s.Completed? ==> (forall x :: x in ids ==> x !in disk.loose) && left == budget - |ids|
      ensures budget >= |ids| ==> s.Completed?
    {
      for i := 0 to |ids|
        invariant Dropped(old(disk), disk, ids)
        invariant forall j :: 0 <= j < i ==> ids[j] !in disk.loose
        invariant i <= budget
      {
        if i == budget { return Crashed, 0; }
        disk := disk.(loose := disk.loose - {ids[i]});
      }
      s, left := Completed, budget - |ids|;
    }

    /** Copies the kept objects into one new pack, retires the old packs, then drops
        the loose copies. With a fresh name a crash at any point loses no kept
        object; a finished run leaves exactly what `RepackResult` says, and if there
        was anything to keep it kept it if and only if the name was fresh. */
    method RepackKeeping(
      listing: seq<ObjectId>, keep: Option<set<ObjectId>>, digest: seq<ObjectId> -> PackName, budget: nat)
      returns (s: Status, left: nat, name: Option<PackName>)
      requires Valid() && Loaded() && IsListing(disk, listing)
      modifies this
      ensures Valid() && (s.Completed? ==> Loaded())
      ensures Readable(disk) <= old(Readable(disk))
      ensures forall x :: x in disk.loose ==> x in old(disk).loose && disk.loose[x] == old(disk).loose[x]
      ensures forall x :: x in old(disk).loose && !Kept(keep, x) ==> x in disk.loose
      ensures digest(old(Sources(disk, packs, listing, keep))) !in old(packs) ==>
                forall x :: x in old(Readable(disk)) && Kept(keep, x) ==> x in Readable(disk)
      ensures digest(old(Sources(disk, packs, listing, keep))) !in old(packs) ==>
                forall x :: x in old(Readable(disk)) && (keep.Some? ==> x in keep.value) ==> x in Readable(disk)
      ensures s.Completed? ==>
                RepackResult(old(disk), disk, keep, digest(old(Sources(disk, packs, listing, keep))) !in old(packs))
      ensures s.Completed? && (exists x :: x in old(Readable(disk)) && Kept(keep, x)) ==>
                ((forall x :: x in old(Readable(disk)) && Kept(keep, x) ==> x in Readable(disk)) <==>
                  digest(old(Sources(disk, packs, listing, keep))) !in old(packs))
      ensures s.Completed? && keep.Some? ==> |packs| <= 1
      ensures budget >= RepackCost(old(packs), old(Sources(disk, packs, listing, keep))) ==>
                s.Completed? && left >= budget - RepackCost(old(packs), old(Sources(disk, packs, listing, keep)))
      ensures s.Completed? && old(Sources(disk, packs, listing, keep)) != [] &&
              digest(old(Sources(disk, packs, listing, keep))) !in old(packs) ==>
                OnlyPack(disk, packs, digest(old(Sources(disk, packs, listing, keep))),
                         old(Sources(disk, packs, listing, keep)))
    {
      hide Sources, Loads, Readable, IsListing, Sound;
      ghost var d := disk;
      SourcesElements(disk, packs, listing, keep);
      var sources, pack := Collect(listing, keep);
      left := budget;
      if sources == [] {
        name := None;
        if keep.Some? {
          var names := packs;
          s, left := RetirePacks(packs, budget);
          NothingKept(content, d, disk, names, keep, s);
          if s.Crashed? { return; }
          LoadPacks();
          AllRetired(d, disk, names, packs);
        } else {
          NothingReadable(d);
        }
        s := Completed;
        return;
      }
      name := Some(digest(sources));
      ghost var names := packs;
      s, left := WritePack(name.value, pack, budget);
      ghost var d1 := disk;
      if s.Crashed? {
        Reflexive(d1, names, sources);
        StagesSafe(d, d1, d1, d1, name.value, pack, names, sources);
        StagesSound(content, d, d1, d1, d1, name.value, pack, names, sources);
        return;
      }
      s, left := RetirePacks(packs, left);
      ghost var d2 := disk;
      if s.Crashed? {
        Reflexive(d2, names, sources);
        StagesSafe(d, d1, d2, d2, name.value, pack, names, sources);
        StagesSound(content, d, d1, d2, d2, name.value, pack, names, sources);
        return;
      }
      LoadPacks();
      s, left := DropLoose(sources, left);
      StagesSafe(d, d1, d2, disk, name.value, pack, names, sources);
      StagesSound(content, d, d1, d2, disk, name.value, pack, names, sources);
      LoadedStill(d2, disk, packs, sources);
      if s.Completed? {
        StagesExact(d, d1, d2, disk, name.value, pack, names, sources, keep);
        StagesOnePack(d, d1, d2, disk, name.value, pack, names, sources, packs);
        if name.value !in names { StagesOnlyPack(d, d1, d2, disk, name.value, pack, names, sources, packs); }
      }
    }

    /** An unreachable loose object young enough to be protected. */
    static predicate InGrace(f: LooseFile, grace: nat, now: nat) {
      now < SaturatingAdd(f.mtime, grace)
    }

    /** Rewrites the packs keeping only reachable objects, then deletes unreachable
        loose objects past the grace window. The reported number is by how much the
        count went down, which is the number of objects lost to reading exactly when
        the packs loaded at the start held no object twice. */
    method Sweep(
      listing: seq<ObjectId>, reachable: set<ObjectId>, grace: nat, now: nat, digest: seq<ObjectId> -> PackName,
      budget: nat)
      returns (s: Status, removed: nat)
      requires Valid() && Loaded() && IsListing(disk, listing)
      modifies this
      ensures Valid() && (s.Completed? ==> Loaded() && |packs| <= 1)
      ensures Readable(disk) <= old(Readable(disk))
      ensures digest(old(Sources(disk, packs, listing, Some(reachable)))) !in old(packs) ==>
                forall x :: x in old(Readable(disk)) && x in reachable ==> x in Readable(disk)
      ensures s.Completed? ==> SweepResult(old(disk), disk, reachable, grace, now,
                digest(old(Sources(disk, packs, listing, Some(reachable)))) !in old(packs))
      ensures forall x :: x in disk.loose ==> x in old(disk).loose
      ensures s.Completed? ==>
                forall x :: x in old(disk).loose && x !in reachable ==>
                  (x in Readable(disk) <==> now < old(disk).loose[x].mtime + grace && now < 0xFFFF_FFFF_FFFF_FFFF)
      ensures s.Completed? ==> forall x :: x in Readable(disk) && x !in reachable ==> x in old(disk).loose
      ensures s.Completed? ==> removed == old(CountOf(disk, packs)) - |Readable(disk)|
      ensures s.Completed? ==> (removed == old(|Readable(disk)|) - |Readable(disk)| <==> old(Separate(disk, packs)))
      ensures s.Completed? && old(Sources(disk, packs, listing, Some(reachable))) != [] &&
              digest(old(Sources(disk, packs, listing, Some(reachable)))) !in old(packs) ==>
                OnlyPack(disk, packs, digest(old(Sources(disk, packs, listing, Some(reachable)))),
                         old(Sources(disk, packs, listing, Some(reachable))))
    {
      hide Sources, Loads, Readable, IsListing, Sound, CountOf, Separate;
      var keep := Some(reachable);
      var before := CountObjects(listing);
      CountExact(disk, packs);
      removed := 0;
      var left, name;
      s, left, name := RepackKeeping(listing, keep, digest, budget);
      if s.Crashed? { return; }
      ghost var d := disk;
      var doomed := Doomed(disk, reachable, grace, now);
      s, left := DropLoose(doomed, left);
      SweptSafe(content, old(disk), d, disk, packs, doomed, reachable);
      if s.Crashed? { return; }
      ghost var isFresh := digest(old(Sources(disk, packs, listing, keep))) !in old(packs);
      SweptExact(old(disk), d, disk, doomed, reachable, grace, now, isFresh);
      SweepMeans(old(disk), disk, reachable, grace, now, isFresh);
      AnyListing(disk);
      var after := CountObjects(Sorted(disk.loose.Keys));
      CountExact(disk, packs);
      OneIsSeparate(disk, packs);
      SubsetSize(Readable(disk), old(Readable(disk)));
      removed := if before < after then 0 else before - after;
    }
  }

  lemma AnyListing(d: Disk)
    ensures IsListing(d, Sorted(d.loose.Keys))
  {
  }

  lemma OneIsSeparate(d: Disk, packs: seq<PackName>)
    requires Loads(d, packs) && |packs| <= 1
    ensures Separate(d, packs)
  {
  }

  /** The loose objects a sweep deletes. */
  function Doomed(d: Disk, reachable: set<ObjectId>, grace: nat, now: nat): (r: seq<ObjectId>)
    ensures forall x :: x in r <==>
        x in d.loose && x !in reachable && !PackedDiskBackend.InGrace(d.loose[x], grace, now)
  {
    Sorted(set x | x in d.loose && x !in reachable && !PackedDiskBackend.InGrace(d.loose[x], grace, now))
  }

  /** What a finished sweep leaves readable: every reachable object when the new
      pack's name was fresh, and unreachable loose objects inside the grace window. */
  ghost predicate SweepResult(d: Disk, d': Disk, reachable: set<ObjectId>, grace: nat, now: nat, isFresh: bool) {
    forall x :: x in Readable(d') <==>
      || (x in Readable(d) && x in reachable && isFresh)
      || (x in d.loose && x !in reachable && PackedDiskBackend.InGrace(d.loose[x], grace, now))
  }

  lemma SweptSafe(
    content: ObjectId -> Object, d: Disk, d1: Disk, d2: Disk, packs: seq<PackName>, doomed: seq<ObjectId>,
    reachable: set<ObjectId>)
    requires Sound(d1, content) && Loads(d1, packs) && Dropped(d1, d2, doomed)
    requires forall x :: x in doomed ==> x !in reachable
    ensures Sound(d2, content) && Loads(d2, packs) && Readable(d2) <= Readable(d1)
    ensures forall x :: x in Readable(d1) && x in reachable ==> x in Readable(d2)
  {
    LoadedStill(d1, d2, packs, doomed);
    assert PackedIds(d2) == PackedIds(d1);
  }

  lemma SweptExact(
    d: Disk, d1: Disk, d2: Disk, doomed: seq<ObjectId>, reachable: set<ObjectId>, grace: nat, now: nat, isFresh: bool)
    requires Dropped(d1, d2, doomed) && doomed == Doomed(d1, reachable, grace, now)
    requires RepackResult(d, d1, Some(reachable), isFresh)
    requires forall x :: x in d1.loose ==> x in d.loose && d1.loose[x] == d.loose[x]
    requires forall x :: x in d.loose && x !in reachable ==> x in d1.loose
    requires forall x :: x in doomed ==> x !in d2.loose
    requires forall x :: x in PackedIds(d1) ==> x in reachable
    ensures SweepResult(d, d2, reachable, grace, now, isFresh)
  {
    hide Doomed;
    DoomedElements(d1, reachable, grace, now);
    assert PackedIds(d2) == PackedIds(d1);
    forall x ensures x in Readable(d2) <==>
      || (x in Readable(d) && x in reachable && isFresh)
      || (x in d.loose && x !in reachable && PackedDiskBackend.InGrace(d.loose[x], grace, now))
    {
      assert x in Readable(d2) <==> x in d2.loose || x in PackedIds(d2);
      assert x in Readable(d1) <==> x in d1.loose || x in PackedIds(d1);
    }
  }

  /** Which unreachable objects survive: loose ones written less than the grace period
      ago, counting in seconds that stop at the largest 64-bit number. */
  lemma SweepMeans(d: Disk, d': Disk, reachable: set<ObjectId>, grace: nat, now: nat, isFresh: bool)
    requires SweepResult(d, d', reachable, grace, now, isFresh)
    ensures forall x :: x in d.loose && x !in reachable ==>
              (x in Readable(d') <==> now < d.loose[x].mtime + grace && now < 0xFFFF_FFFF_FFFF_FFFF)
    ensures forall x :: x in Readable(d') && x !in reachable ==> x in d.loose
  {
    hide Readable;
  }

  lemma DoomedElements(d: Disk, reachable: set<ObjectId>, grace: nat, now: nat)
    ensures forall x :: x in Doomed(d, reachable, grace, now) <==>
                        x in d.loose && x !in reachable && !PackedDiskBackend.InGrace(d.loose[x], grace, now)
  {
  }

  lemma Reflexive(d: Disk, names: seq<PackName>, ids: seq<ObjectId>)
    ensures Retired(d, d, names) && Dropped(d, d, ids)
  {
  }

  lemma LoadedStill(d: Disk, d': Disk, packs: seq<PackName>, ids: seq<ObjectId>)
    requires Loads(d, packs) && Dropped(d, d', ids)
    ensures Loads(d', packs)
  {
  }

  lemma NothingReadable(d: Disk)
    ensures (forall x :: x !in Readable(d)) ==> RepackResult(d, d, None, true) && RepackResult(d, d, None, false)
  {
  }

  lemma NothingKept(
    content: ObjectId -> Object, d: Disk, d': Disk, names: seq<PackName>, keep: Option<set<ObjectId>>, s: Status)
    requires Sound(d, content) && Loads(d, names) && Retired(d, d', names)
    requires forall x :: x in Readable(d) ==> !Kept(keep, x)
    requires s.Completed? ==> forall n :: n in names ==> !Complete(d', n)
    ensures Sound(d', content) && Readable(d') <= Readable(d)
    ensures s.Completed? ==> RepackResult(d, d', keep, true) && RepackResult(d, d', keep, false)
  {
    RetiredReadable(d, d', names);
  }

  // ----------------------------------------------------------------------
  // Consequences
  // ----------------------------------------------------------------------

  /** From a lone pack, with nothing loose to keep, the kept ids come in index order. */
  lemma LonePackSources(d: Disk, n: PackName, listing: seq<ObjectId>, keep: Option<set<ObjectId>>)
    requires Loads(d, [n]) && IsListing(d, listing) && forall x :: x in d.loose ==> !Kept(keep, x)
    ensures n in d.packFiles
    ensures Sources(d, [n], listing, keep) == Sorted(set x | x in d.packFiles[n] && Kept(keep, x))
  {
    hide Gather, Kept, Sorted;
    assert Complete(d, [n][0]);
    var s := Sorted(d.packFiles[n].Keys);
    assert [n][..0] == [] && IndexedIds(d, []) == [];
    assert IndexedIds(d, [n]) == [] + s == s;
    GatherSkip(listing, s, keep);
    GatherAscending(s, keep);
    GatherElements(s, keep);
    AscendingUnique(Gather(s, keep), Sorted(set x | x in d.packFiles[n] && Kept(keep, x)));
  }

  /** Once copied forward like this, the next repack takes the same name. */
  lemma SameNameAgain(d: Disk, n: PackName, listing: seq<ObjectId>, keep: Option<set<ObjectId>>,
                      d': Disk, n': PackName, listing': seq<ObjectId>)
    requires Loads(d, [n]) && IsListing(d, listing) && forall x :: x in d.loose ==> !Kept(keep, x)
    requires Loads(d', [n']) && IsListing(d', listing') && forall x :: x in d'.loose ==> !Kept(keep, x)
    requires n' in d'.packFiles && d'.packFiles[n'].Keys == Elements(Sources(d, [n], listing, keep))
    ensures Sources(d', [n'], listing', keep) == Sources(d, [n], listing, keep)
  {
    hide Kept, Sorted, Sources;
    LonePackSources(d, n, listing, keep);
    LonePackSources(d', n', listing', keep);
    var ids := set x | x in d.packFiles[n] && Kept(keep, x);
    assert forall x :: x in d'.packFiles[n'] <==> x in ids;
    assert ids == set x | x in d'.packFiles[n'] && Kept(keep, x);
  }

  /** The name is not always fresh: a pack is named after its ids in index order, so
      the second of two repacks of a lone pack writes over its own pack and then
      retires it. Nothing is readable afterwards. */
  method RepackTwice(b: PackedDiskBackend, digest: seq<ObjectId> -> PackName, budget: nat)
    requires b.Valid() && b.Loaded() && b.disk.loose == map[] && |b.packs| == 1
    requires budget >= RepackCost(b.packs, Sources(b.disk, b.packs, [], None))
    modifies b
    ensures Readable(b.disk) == {}
  {
    hide Sources, Sorted;
    ghost var d, n := b.disk, b.packs[0];
    assert b.packs == [n];
    SourcesElements(d, [n], [], None);
    ghost var ids := Sources(d, [n], [], None);
    var s, left, name := b.RepackKeeping([], None, digest, budget);
    assert b.disk.loose == map[];
    if ids != [] && digest(ids) != n {
      SameNameAgain(d, n, [], None, b.disk, digest(ids), []);
    } else {
      assert Readable(b.disk) == {};
    }
    s, left, name := b.RepackKeeping([], None, digest, budget);
  }
}
