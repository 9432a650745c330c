/** Have/want negotiation: which objects a sender must transfer. */
module Negotiate {
  import opened Wrappers
  import opened Reach
  import opened Objects
  import opened Trees
  import opened Walks
  import opened Conservation

  /** The sender's graph with everything the receiver has cut away. */
  ghost function Pruned(src: Store, have: set<ObjectId>): Graph<ObjectId> {
    map id | id in src && id !in have :: ChildEdges(src[id])
  }

  /** The walk's own meaning, whatever the two stores hold: everything the sender
      stores and the receiver lacks that is reached without passing through
      something the receiver has. */
  method MissingClosure(src: Store, wants: seq<ObjectId>, have: set<ObjectId>) returns (out: seq<ObjectId>)
    ensures forall i, j :: 0 <= i < j < |out| ==> out[i] != out[j]
    ensures forall x :: x in out <==> x in src && x !in have && From(Pruned(src, have), Elements(wants), x)
  {
    hide *;
    ghost var g, roots := Pruned(src, have), Elements(wants);
    out := [];
    var seen: set<ObjectId> := {};
    var stack := wants;
    // Everything popped so far: `seen`, and what was skipped because the receiver has it.
    ghost var done: set<ObjectId> := {};
    SearchInit(g, wants);
    while stack != []
      invariant SearchInv(g, roots, done, stack)
      invariant forall x :: x in seen <==> x in done && x !in have
      invariant forall x :: x in out <==> x in seen && x in src
      invariant forall i, j :: 0 <= i < j < |out| ==> out[i] != out[j]
      decreases Universe(g, roots) - done, |stack|
    {
      var id := stack[|stack| - 1];
      SearchTop(g, roots, done, stack);
      PrunedSucc(src, have, id);
      if id in have || id in seen {
        if id in done {
          SearchDrop(g, roots, done, stack);
        } else {
          SearchExpand(g, roots, done, stack, []);
          assert stack[..|stack| - 1] + [] == stack[..|stack| - 1];
          done := done + {id};
        }
        stack := stack[..|stack| - 1];
      } else {
        var next := [];
        if id in src {
          out := out + [id];
          next := Enumerate(ChildEdges(src[id]));
        }
        SearchExpand(g, roots, done, stack, next);
        seen, done := seen + {id}, done + {id};
        stack := stack[..|stack| - 1] + next;
      }
    }
    SearchDone(g, roots, done);
  }

  lemma PrunedSucc(src: Store, have: set<ObjectId>, id: ObjectId)
    ensures Succ(Pruned(src, have), id) == if id in src && id !in have then ChildEdges(src[id]) else {}
    ensures Elements<ObjectId>([]) == {}
  {
  }

  function Enumerate(s: set<ObjectId>): (r: seq<ObjectId>)
    ensures Elements(r) == s
  {
    Sorted(s)
  }

  /** The receiver misses nothing that its own objects refer to. */
  ghost predicate ReceiverClosed(dst: Store) {
    forall id :: id in dst ==> ChildEdges(dst[id]) <= dst.Keys
  }

  /** The sender stores everything the wants lead to. */
  ghost predicate SenderComplete(src: Store, wants: set<ObjectId>) {
    forall x :: From(ChildGraph(src), wants, x) ==> x in src
  }

  /** An id names one content, wherever it is stored. */
  ghost predicate Agree(src: Store, dst: Store) {
    forall id :: id in src && id in dst ==> src[id] == dst[id]
  }

  lemma {:induction false} PastHave(src: Store, dst: Store, r: ObjectId, x: ObjectId, n: nat)
    requires ReceiverClosed(dst) && Agree(src, dst)
    requires ReachIn(ChildGraph(src), r, x, n)
    ensures x in dst || Reaches(Pruned(src, dst.Keys), r, x)
    decreases n
  {
    var g := Pruned(src, dst.Keys);
    if n == 0 {
      ReachRefl(g, r);
    } else {
      var m :| ReachIn(ChildGraph(src), r, m, n - 1) && x in Succ(ChildGraph(src), m);
      PastHave(src, dst, r, m, n - 1);
      if m in dst {
        assert x in ChildEdges(dst[m]);
      } else {
        ReachStep(g, r, m, x);
      }
    }
  }

  /** Between a complete sender and a closed receiver the pruned walk finds exactly
      the closure of the wants minus what the receiver has. */
  lemma PrunedIsExact(src: Store, dst: Store, wants: set<ObjectId>, x: ObjectId)
    requires ReceiverClosed(dst) && Agree(src, dst) && SenderComplete(src, wants)
    ensures (x in src && x !in dst && From(Pruned(src, dst.Keys), wants, x)) <==>
        (x !in dst && From(ChildGraph(src), wants, x))
  {
    var g := Pruned(src, dst.Keys);
    if From(g, wants, x) {
      var r :| r in wants && Reaches(g, r, x);
      ReachMono(g, ChildGraph(src), r, x);
    }
    if x !in dst && From(ChildGraph(src), wants, x) {
      var r :| r in wants && Reaches(ChildGraph(src), r, x);
      var n: nat :| ReachIn(ChildGraph(src), r, x, n);
      PastHave(src, dst, r, x, n);
    }
  }

  /** One transfer: the receiver gains the whole closure of the wants and nothing
      it had is touched; it is closed again afterwards. */
  method Transfer(src: Store, dst: Store, wants: seq<ObjectId>) returns (sent: seq<ObjectId>, after: Store)
    requires ReceiverClosed(dst) && Agree(src, dst) && SenderComplete(src, Elements(wants))
    ensures forall i, j :: 0 <= i < j < |sent| ==> sent[i] != sent[j]
    ensures forall x :: x in sent <==> x !in dst && From(ChildGraph(src), Elements(wants), x)
    ensures forall x :: x in after <==> x in dst || x in sent
    ensures forall x :: x in after ==> after[x] == if x in dst then dst[x] else src[x]
    ensures ReceiverClosed(after)
    ensures forall x :: From(ChildGraph(src), Elements(wants), x) ==> x in after
    ensures Arrived(src, after, wants)
  {
    hide *;
    sent := MissingClosure(src, wants, dst.Keys);
    SentIs(src, dst, wants, sent);
    after := dst + map x | x in sent :: src[x];
    AfterClosed(src, dst, wants, sent, after);
    AllArrived(src, after, wants);
  }

  lemma SentIs(src: Store, dst: Store, wants: seq<ObjectId>, sent: seq<ObjectId>)
    requires ReceiverClosed(dst) && Agree(src, dst) && SenderComplete(src, Elements(wants))
    requires forall x :: x in sent <==> x in src && x !in dst.Keys && From(Pruned(src, dst.Keys), Elements(wants), x)
    ensures forall x :: x in sent <==> x !in dst && From(ChildGraph(src), Elements(wants), x)
    ensures forall x :: x in sent ==> x in src
  {
    hide From, ReceiverClosed, SenderComplete, Pruned, ChildGraph;
    forall x: ObjectId ensures x in sent <==> x !in dst && From(ChildGraph(src), Elements(wants), x) {
      PrunedIsExact(src, dst, Elements(wants), x);
    }
  }

  lemma AfterClosed(src: Store, dst: Store, wants: seq<ObjectId>, sent: seq<ObjectId>, after: Store)
    requires ReceiverClosed(dst) && Agree(src, dst) && SenderComplete(src, Elements(wants))
    requires forall x :: x in sent <==> x !in dst && From(ChildGraph(src), Elements(wants), x)
    requires forall x :: x in after <==> x in dst || x in sent
    requires forall x :: x in sent ==> x in src
    requires forall x :: x in after ==> after[x] == if x in dst then dst[x] else src[x]
    ensures ReceiverClosed(after)
    ensures forall x :: From(ChildGraph(src), Elements(wants), x) ==> x in after && x in src && after[x] == src[x]
  {
    hide Reaches, ChildEdges;
    var ws := Elements(wants);
    forall id, y | id in after && y in ChildEdges(after[id]) ensures y in after {
      if id !in dst {
        var r :| r in ws && Reaches(ChildGraph(src), r, id);
        ReachStep(ChildGraph(src), r, id, y);
        assert From(ChildGraph(src), ws, y);
      }
    }
  }

  /** What a receiver has of the wanted snapshots: every ancestor, and of every ancestor
      every directory and every file, as the sender has them. */
  ghost predicate Arrived(src: Store, after: Store, wants: seq<ObjectId>) {
    && (forall w :: w in wants ==> w in after)
    && (forall w, x :: w in wants && Reaches(ParentGraph(src), w, x) ==> x in after)
    && (forall w, x, c ::
          w in wants && Reaches(ParentGraph(src), w, x) && x in src && src[x].Snapshot? ==>
            && DirAt(src, src[x].root, c) == DirAt(after, src[x].root, c)
            && (DirAt(src, src[x].root, c).Some? ==> DirAt(src, src[x].root, c).value in after))
    && (forall w, x, q: Segments ::
          w in wants && Reaches(ParentGraph(src), w, x) && x in src && src[x].Snapshot? && q != [] ==>
            && FileAt(src, src[x].root, q) == FileAt(after, src[x].root, q)
            && (FileAt(src, src[x].root, q).Some? ==> FileAt(src, src[x].root, q).value in after))
  }

  lemma AllArrived(src: Store, after: Store, wants: seq<ObjectId>)
    requires SenderComplete(src, Elements(wants))
    requires forall x :: From(ChildGraph(src), Elements(wants), x) ==> x in after && x in src && after[x] == src[x]
    ensures Arrived(src, after, wants)
  {
    hide Reaches, From, Retains, DirAt, FileAt;
    var s := ClosureOf(src, wants);
    AncestorsSent(src, s, wants);
    assert AgreeOn(src, after, s);
    forall w, x, c | w in wants && Reaches(ParentGraph(src), w, x) && x in src && src[x].Snapshot?
      ensures DirAt(src, src[x].root, c) == DirAt(after, src[x].root, c)
      ensures DirAt(src, src[x].root, c).Some? ==> DirAt(src, src[x].root, c).value in after
    {
      RootSent(src, s, x);
      DirsKept(src, after, s, src[x].root, c);
    }
    forall w, x, q: Segments | w in wants && Reaches(ParentGraph(src), w, x) && x in src && src[x].Snapshot? && q != []
      ensures FileAt(src, src[x].root, q) == FileAt(after, src[x].root, q)
      ensures FileAt(src, src[x].root, q).Some? ==> FileAt(src, src[x].root, q).value in after
    {
      RootSent(src, s, x);
      FilesKept(src, after, s, src[x].root, q);
    }
  }

  lemma RootSent(src: Store, s: set<ObjectId>, x: ObjectId)
    requires Retains(src, s) && x in s && x in src && src[x].Snapshot?
    ensures src[x].root in s
  {
  }

  lemma AncestorsSent(src: Store, s: set<ObjectId>, wants: seq<ObjectId>)
    requires Retains(src, s) && forall w :: w in wants ==> w in s
    ensures forall w, x :: w in wants && Reaches(ParentGraph(src), w, x) ==> x in s
  {
    hide Reaches, Retains;
    forall w, x: ObjectId | w in wants && Reaches(ParentGraph(src), w, x) ensures x in s { AncestorsIn(src, s, w, x); }
  }

  /** The closure of the wants, which retains what it holds. */
  lemma ClosureOf(src: Store, wants: seq<ObjectId>) returns (s: set<ObjectId>)
    requires SenderComplete(src, Elements(wants))
    ensures forall x :: x in s <==> From(ChildGraph(src), Elements(wants), x)
    ensures (forall w :: w in wants ==> w in s) && Retains(src, s) && RetainsPolicy(src, s)
  {
    hide Reaches, Retains, RetainsPolicy;
    var g := ChildGraph(src);
    s := set x | x in src && From(g, Elements(wants), x);
    forall w | w in wants ensures w in s {
      ReachRefl(g, w);
      assert w in Elements(wants) && From(g, Elements(wants), w);
    }
    forall x, y | x in s && y in Succ(g, x) ensures y in s {
      var r :| r in Elements(wants) && Reaches(g, r, x);
      ReachStep(g, r, x, y);
      assert From(g, Elements(wants), y);
    }
    EdgesMean(src, s);
  }
}
