/** Depth-bounded traversal of the trust graph. The three walks are breadth-first
    loops over a queue; each is proved against a definition that mentions no queue. */
module Trust {
  import opened Wrappers
  import opened Collab
  import opened Reach

  // ----------------------------------------------------------------------
  // Follow edges
  // ----------------------------------------------------------------------

  ghost function Sources(edges: seq<TrustEdge>): set<Key> {
    set e | e in edges :: e.from
  }

  ghost function FollowTargets(edges: seq<TrustEdge>, from: Key): set<Key> {
    set e | e in edges && e.kind == Follow && e.from == from :: e.to
  }

  ghost function FollowGraph(edges: seq<TrustEdge>): Graph<Key> {
    map a | a in Sources(edges) :: FollowTargets(edges, a)
  }

  function Follows(edges: seq<TrustEdge>, from: Key): (r: seq<Key>) {
    if edges == [] then []
    else (if edges[0].kind == Follow && edges[0].from == from then [edges[0].to] else []) + Follows(edges[1..], from)
  }

  lemma FollowsElements(edges: seq<TrustEdge>, from: Key)
    ensures forall x :: x in Follows(edges, from) <==> x in Succ(FollowGraph(edges), from)
    ensures forall root, x :: x in Follows(edges, from) ==> x in Nodes(edges, root)
  {
    FollowsMembers(edges, from);
    forall x ensures x in Succ(FollowGraph(edges), from) <==>
                     exists e :: e in edges && e.kind == Follow && e.from == from && e.to == x
    {
    }
  }

  lemma FollowsMembers(edges: seq<TrustEdge>, from: Key)
    ensures forall x :: x in Follows(edges, from) <==>
                        exists e :: e in edges && e.kind == Follow && e.from == from && e.to == x
  {
    if edges != [] {
      FollowsMembers(edges[1..], from);
      assert forall e :: e in edges <==> e == edges[0] || e in edges[1..];
    }
  }

  ghost function Nodes(edges: seq<TrustEdge>, root: Key): set<Key> {
    {root} + set e | e in edges :: e.to
  }

  /** The recorded distances are those of the discoveries, the root left out. */
  ghost predicate DistRecord(root: Key, b: Found<Key>, dist: map<Key, nat>) {
    && dist.Keys == Seen(b) - {root}
    && forall k :: 0 <= k < |b| && b[k].0 != root ==> dist[b[k].0] == b[k].1
  }

  lemma DistPush(root: Key, b: Found<Key>, dist: map<Key, nat>, n: Key, d: nat)
    requires DistRecord(root, b, dist) && root in Seen(b) && n !in Seen(b)
    ensures DistRecord(root, b + [(n, d)], dist[n := d])
  {
    SeenPush(b, (n, d));
    assert forall k :: 0 <= k < |b| ==> b[k].0 in Seen(b);
  }

  /** Every key within `hops` Follow steps of the root, the root left out, with
      its least distance. */
  method FollowNeighborhood(edges: seq<TrustEdge>, root: Key, hops: nat) returns (dist: map<Key, nat>)
    requires hops <= 255
    ensures forall k :: k in dist <==> k != root && Within(FollowGraph(edges), root, hops, k)
    ensures forall k :: k in dist ==> IsDist(FollowGraph(edges), root, k, dist[k])
  {
    hide *;
    ghost var g := FollowGraph(edges);
    dist := map[];
    var q := [(root, 0)];
    var seen := {root};
    ghost var b: Found<Key>, i := [(root, 0)], 0;
    BfsInit(g, root, hops);
    DistInit(edges, root);
    while q != []
      invariant BfsInv(g, root, hops, b, i, {}) && DistRecord(root, b, dist)
      invariant i <= |b| && q == b[i..]
      invariant root in seen && seen == Seen(b) <= Nodes(edges, root)
      decreases Nodes(edges, root) - seen, |q|
    {
      var (node, d) := q[0];
      q := q[1..];
      ghost var done: set<Key> := {};
      BfsHead(g, root, hops, b, i, done);
      if d != hops {
        var nexts := Follows(edges, node);
        FollowsElements(edges, node);
        ghost var before, rest := seen, q;
        for j := 0 to |nexts|
          invariant BfsInv(g, root, hops, b, i, done) && DistRecord(root, b, dist)
          invariant i < |b| && b[i] == (node, d) && q == b[i + 1..]
          invariant root in seen && before <= seen == Seen(b) <= Nodes(edges, root)
          invariant forall k :: 0 <= k < j ==> nexts[k] in done
          invariant seen == before ==> q == rest
        {
          var next := nexts[j];
          if next !in seen {
            BfsPush(g, root, hops, b, i, done, next);
            DistPush(root, b, dist, next, d + 1);
            b := b + [(next, d + 1)];
            seen := seen + {next};
            dist := dist[next := d + 1];
            q := q + [(next, d + 1)];
          } else {
            BfsSkip(g, root, hops, b, i, done, next);
          }
          done := done + {next};
        }
      }
      BfsNext(g, root, hops, b, i, done);
      i := i + 1;
    }
    BfsDone(g, root, hops, b);
    DistDone(g, root, b, dist);
  }

  lemma DistInit(edges: seq<TrustEdge>, root: Key)
    ensures DistRecord(root, [(root, 0)], map[]) && root in Nodes(edges, root)
  {
  }

  lemma DistDone(g: Graph<Key>, root: Key, b: Found<Key>, dist: map<Key, nat>)
    requires DistRecord(root, b, dist)
    requires forall k :: 0 <= k < |b| ==> IsDist(g, root, b[k].0, b[k].1)
    ensures dist.Keys == Seen(b) - {root}
    ensures forall k :: k in dist ==> IsDist(g, root, k, dist[k])
  {
  }

  // ----------------------------------------------------------------------
  // Minimal-hop Follow paths
  // ----------------------------------------------------------------------

  /** A chain of Follow edges, every key after the first reached from its predecessor. */
  ghost predicate FollowChain(edges: seq<TrustEdge>, p: seq<Key>) {
    forall i :: 0 < i < |p| ==> p[i] in Succ(FollowGraph(edges), p[i - 1])
  }

  ghost predicate PathTo(edges: seq<TrustEdge>, root: Key, key: Key, depth: nat, p: seq<Key>) {
    |p| == depth + 1 && p[0] == root && p[depth] == key && FollowChain(edges, p)
  }

  ghost predicate PathRecord(edges: seq<TrustEdge>, root: Key, b: Found<Key>, paths: map<Key, seq<Key>>) {
    && paths.Keys == Seen(b)
    && forall k :: 0 <= k < |b| ==> PathTo(edges, root, b[k].0, b[k].1, paths[b[k].0])
  }

  lemma PathPush(edges: seq<TrustEdge>, root: Key, b: Found<Key>, paths: map<Key, seq<Key>>, i: nat, n: Key)
    requires PathRecord(edges, root, b, paths) && i < |b|
    requires n !in Seen(b) && n in Succ(FollowGraph(edges), b[i].0)
    ensures PathRecord(edges, root, b + [(n, b[i].1 + 1)], paths[n := paths[b[i].0] + [n]])
  {
    SeenPush(b, (n, b[i].1 + 1));
    assert PathTo(edges, root, b[i].0, b[i].1, paths[b[i].0]);
    assert PathTo(edges, root, n, b[i].1 + 1, paths[b[i].0] + [n]);
    assert forall k :: 0 <= k < |b| ==> b[k].0 in Seen(b);
  }

  lemma PathInit(edges: seq<TrustEdge>, root: Key)
    ensures PathRecord(edges, root, [(root, 0)], map[root := [root]])
    ensures Firsts([(root, 0)]) == [root] && root in Nodes(edges, root)
  {
    BfsInit(FollowGraph(edges), root, 0);
  }

  lemma PathAt(edges: seq<TrustEdge>, root: Key, b: Found<Key>, paths: map<Key, seq<Key>>, i: nat)
    requires PathRecord(edges, root, b, paths) && i < |b|
    ensures b[i].0 in paths && |paths[b[i].0]| == b[i].1 + 1
  {
    assert b[i].0 in Seen(b);
  }

  lemma PathDone(edges: seq<TrustEdge>, root: Key, b: Found<Key>, paths: map<Key, seq<Key>>)
    requires PathRecord(edges, root, b, paths)
    requires forall k :: 0 <= k < |b| ==> IsDist(FollowGraph(edges), root, b[k].0, b[k].1)
    ensures paths.Keys == Seen(b)
    ensures forall k :: k in paths ==>
              && |paths[k]| > 0 && paths[k][0] == root && paths[k][|paths[k]| - 1] == k
              && FollowChain(edges, paths[k])
              && IsDist(FollowGraph(edges), root, k, |paths[k]| - 1)
  {
  }

  ghost function Firsts(b: Found<Key>): (r: seq<Key>)
    ensures |r| == |b|
  {
    seq(|b|, k requires 0 <= k < |b| => b[k].0)
  }

  lemma FirstsPush(b: Found<Key>, x: (Key, nat))
    ensures Firsts(b + [x]) == Firsts(b) + [x.0]
  {
  }

  lemma FirstsPop(b: Found<Key>, i: nat)
    requires i < |b|
    ensures Firsts(b)[i..][0] == b[i].0 && Firsts(b)[i..][1..] == Firsts(b)[i + 1..]
  {
  }

  /** Some key lies exactly this many Follow steps away. */
  ghost predicate SomeAt(edges: seq<TrustEdge>, root: Key, d: nat) {
    exists k :: IsDist(FollowGraph(edges), root, k, d)
  }

  /** The least-hop path to every key of the neighbourhood: same domain as
      `FollowNeighborhood`, real Follow edges, and one edge per unit of distance.
      `None` is the overflow of `len as u8 - 1`: it happens exactly when 255 hops are
      asked for and some key is that far away. */
  method FollowPaths(edges: seq<TrustEdge>, root: Key, hops: nat) returns (r: Option<map<Key, seq<Key>>>)
    requires hops <= 255
    ensures r.None? <==> hops == 255 && SomeAt(edges, root, 255)
    ensures r.Some? ==> forall k :: k in r.value <==> k != root && Within(FollowGraph(edges), root, hops, k)
    ensures r.Some? ==> forall k :: k in r.value ==>
              && |r.value[k]| > 0 && r.value[k][0] == root && r.value[k][|r.value[k]| - 1] == k
              && FollowChain(edges, r.value[k])
              && IsDist(FollowGraph(edges), root, k, |r.value[k]| - 1)
  {
    hide *;
    ghost var g := FollowGraph(edges);
    var paths: map<Key, seq<Key>> := map[root := [root]];
    var q := [root];
    ghost var b: Found<Key>, i := [(root, 0)], 0;
    BfsInit(g, root, hops);
    PathInit(edges, root);
    while q != []
      invariant BfsInv(g, root, hops, b, i, {}) && PathRecord(edges, root, b, paths)
      invariant i <= |b| && q == Firsts(b)[i..]
      invariant root in paths && paths.Keys == Seen(b) <= Nodes(edges, root)
      invariant forall j :: 0 <= j < i ==> b[j].1 < 255
      decreases Nodes(edges, root) - paths.Keys, |q|
    {
      FirstsPop(b, i);
      var node := q[0];
      q := q[1..];
      PathAt(edges, root, b, paths, i);
      var nodePath := paths[node];
      ghost var done: set<Key> := {};
      BfsHead(g, root, hops, b, i, done);
      if |nodePath| % 256 == 0 {
        BfsDist(g, root, hops, b, i);
        FarAway(edges, root, node);
        return None;
      }
      if |nodePath| % 256 - 1 != hops {
        var nexts := Follows(edges, node);
        FollowsElements(edges, node);
        ghost var before, rest := paths, q;
        for j := 0 to |nexts|
          invariant BfsInv(g, root, hops, b, i, done) && PathRecord(edges, root, b, paths)
          invariant i < |b| && b[i].0 == node && b[i].1 == |nodePath| - 1 < hops && q == Firsts(b)[i + 1..]
          invariant root in paths && node in paths && paths[node] == nodePath
          invariant before.Keys <= paths.Keys == Seen(b) <= Nodes(edges, root)
          invariant forall k :: 0 <= k < j ==> nexts[k] in done
          invariant paths.Keys == before.Keys ==> q == rest
          invariant forall j :: 0 <= j < i ==> b[j].1 < 255
        {
          var next := nexts[j];
          if next !in paths {
            BfsPush(g, root, hops, b, i, done, next);
            PathPush(edges, root, b, paths, i, next);
            FirstsPush(b, (next, b[i].1 + 1));
            b := b + [(next, b[i].1 + 1)];
            paths := paths[next := nodePath + [next]];
            q := q + [next];
          } else {
            BfsSkip(g, root, hops, b, i, done, next);
          }
          done := done + {next};
        }
      }
      BfsNext(g, root, hops, b, i, done);
      i := i + 1;
    }
    BfsDone(g, root, hops, b);
    PathDone(edges, root, b, paths);
    NoneFar(edges, root, hops, b);
    r := Some(paths - {root});
  }

  lemma FarAway(edges: seq<TrustEdge>, root: Key, node: Key)
    requires IsDist(FollowGraph(edges), root, node, 255)
    ensures SomeAt(edges, root, 255)
  {
  }

  lemma NoneFar(edges: seq<TrustEdge>, root: Key, hops: nat, b: Found<Key>)
    requires forall k :: 0 <= k < |b| ==> b[k].1 < 255 && IsDist(FollowGraph(edges), root, b[k].0, b[k].1)
    requires forall n :: n in Seen(b) <==> Within(FollowGraph(edges), root, hops, n)
    ensures hops == 255 ==> !SomeAt(edges, root, 255)
  {
    var g := FollowGraph(edges);
    if n :| hops == 255 && IsDist(g, root, n, 255) {
      assert Within(g, root, hops, n);
      assert false;
    }
  }

  // ----------------------------------------------------------------------
  // Trust paths over Follow and Vouch edges
  // ----------------------------------------------------------------------

  datatype TrustHop = TrustHop(key: Key, via: TrustKind)

  predicate IsLink(e: TrustEdge, from: Key, to: Key) {
    e.from == from && e.to == to && (e.kind == Follow || e.kind == Vouch)
  }

  ghost predicate Linked(edges: seq<TrustEdge>, from: Key, to: Key) {
    exists e :: e in edges && IsLink(e, from, to)
  }

  /** The stronger kind wins when both connect the two keys. */
  ghost function Via(edges: seq<TrustEdge>, from: Key, to: Key): TrustKind {
    if exists e :: e in edges && IsLink(e, from, to) && e.kind == Vouch then Vouch else Follow
  }

  lemma NoLinks(from: Key)
    ensures forall k :: !Linked([], from, k)
  {
  }

  /** What one more edge adds. */
  lemma LinksNext(edges: seq<TrustEdge>, i: nat, from: Key)
    requires i < |edges|
    ensures forall k :: Linked(edges[..i + 1], from, k) <==> Linked(edges[..i], from, k) || IsLink(edges[i], from, k)
    ensures forall k :: Via(edges[..i + 1], from, k) == if IsLink(edges[i], from, k) && edges[i].kind == Vouch then
        Vouch else Via(edges[..i], from, k)
    ensures forall k :: !Linked(edges[..i], from, k) ==> Via(edges[..i], from, k) == Follow
  {
    var e := edges[i];
    assert edges[..i + 1] == edges[..i] + [e];
    assert forall x :: x in edges[..i + 1] <==> x in edges[..i] || x == e;
  }

  /** The trust neighbours of a key in ascending order, each with its stronger kind. */
  method TrustNeighbors(edges: seq<TrustEdge>, from: Key) returns (r: seq<TrustHop>)
    ensures forall i, j :: 0 <= i < j < |r| ==> r[i].key < r[j].key
    ensures forall i :: 0 <= i < |r| ==> Linked(edges, from, r[i].key) && r[i].via == Via(edges, from, r[i].key)
    ensures forall k :: Linked(edges, from, k) ==> exists i :: 0 <= i < |r| && r[i].key == k
  {
    hide Linked, Via, Sorted, Listing, Ascending;
    var best: map<Key, TrustKind> := map[];
    NoLinks(from);
    for i := 0 to |edges|
      invariant forall k :: k in best <==> Linked(edges[..i], from, k)
      invariant forall k :: k in best ==> best[k] == Via(edges[..i], from, k)
    {
      var e := edges[i];
      LinksNext(edges, i, from);
      if e.from == from && (e.kind == Follow || e.kind == Vouch) {
        if e.to in best {
          if e.kind == Vouch {
            best := best[e.to := Vouch];
          }
        } else {
          best := best[e.to := e.kind];
        }
      }
    }
    assert edges[..|edges|] == edges;
    var keys := Sorted(best.Keys);
    r := Listing(best, keys);
    ListingIs(best, keys);
  }

  /** A map's entries in the order of its keys. */
  function Listing(best: map<Key, TrustKind>, keys: seq<Key>): (r: seq<TrustHop>)
    requires forall k :: k in keys ==> k in best
  {
    seq(|keys|, i requires 0 <= i < |keys| => TrustHop(keys[i], best[keys[i]]))
  }

  lemma ListingIs(best: map<Key, TrustKind>, keys: seq<Key>)
    requires Ascending(keys) && forall k :: k in keys <==> k in best
    ensures var r := Listing(best, keys);
            && (forall i, j :: 0 <= i < j < |r| ==> r[i].key < r[j].key)
            && (forall i :: 0 <= i < |r| ==> r[i].key in best && r[i].via == best[r[i].key])
            && (forall k :: k in best ==> exists i :: 0 <= i < |r| && r[i].key == k)
  {
    var r := Listing(best, keys);
    assert forall i :: 0 <= i < |r| ==> r[i] == TrustHop(keys[i], best[keys[i]]);
    forall k | k in best ensures exists i :: 0 <= i < |r| && r[i].key == k {
      assert k in keys;
      var i :| 0 <= i < |keys| && keys[i] == k;
      assert r[i].key == k;
    }
  }

  // A path is the sequence of keys after the root; `[]` is the root itself.

  function Init(p: seq<Key>): seq<Key>
    requires p != []
  {
    p[..|p| - 1]
  }

  function Last(p: seq<Key>): Key
    requires p != []
  {
    p[|p| - 1]
  }

  function End(root: Key, p: seq<Key>): Key {
    if p == [] then root else Last(p)
  }

  ghost predicate Walk(edges: seq<TrustEdge>, root: Key, p: seq<Key>) {
    p == [] || (Walk(edges, root, Init(p)) && Linked(edges, End(root, Init(p)), Last(p)))
  }

  /** Shorter first; equal lengths key by key from the front. */
  ghost predicate Before(u: seq<Key>, v: seq<Key>)
    decreases |u|
  {
    || |u| < |v|
    || (|u| == |v| > 0 && (Before(Init(u), Init(v)) || (Init(u) == Init(v) && Last(u) < Last(v))))
  }

  ghost predicate NotAfter(u: seq<Key>, v: seq<Key>) {
    u == v || Before(u, v)
  }

  lemma {:induction false} BeforeTrans(u: seq<Key>, v: seq<Key>, w: seq<Key>)
    requires Before(u, v) && Before(v, w)
    ensures Before(u, w)
    decreases |u|
  {
    if |u| == |v| == |w| && Before(Init(u), Init(v)) && Before(Init(v), Init(w)) {
      BeforeTrans(Init(u), Init(v), Init(w));
    }
  }

  lemma {:induction false} BeforeIrrefl(u: seq<Key>)
    ensures !Before(u, u)
    decreases |u|
  {
    if u != [] {
      BeforeIrrefl(Init(u));
    }
  }

  lemma {:induction false} BeforeTotal(u: seq<Key>, v: seq<Key>)
    ensures NotAfter(u, v) || Before(v, u)
    decreases |u|
  {
    if |u| == |v| > 0 {
      BeforeTotal(Init(u), Init(v));
      assert u == Init(u) + [Last(u)] && v == Init(v) + [Last(v)];
    }
  }

  lemma Extend(u: seq<Key>, x: Key)
    ensures Init(u + [x]) == u && Last(u + [x]) == x
  {
  }

  /** Appending one key to each side keeps the order. */
  lemma BeforeExtend(u: seq<Key>, v: seq<Key>, x: Key, y: Key)
    requires Before(u, v) || (u == v && x < y)
    ensures Before(u + [x], v + [y])
  {
    Extend(u, x);
    Extend(v, y);
  }

  /** The path `p` comes first among all walks from the root to `target` of at most `max` hops. */
  ghost predicate IsBest(edges: seq<TrustEdge>, root: Key, target: Key, max: nat, p: seq<Key>) {
    && IsRoute(edges, root, target, max, p)
    && forall w :: IsRoute(edges, root, target, max, w) ==> NotAfter(p, w)
  }

  ghost predicate IsRoute(edges: seq<TrustEdge>, root: Key, target: Key, max: nat, p: seq<Key>) {
    Walk(edges, root, p) && End(root, p) == target && |p| <= max
  }

  lemma BestUnique(edges: seq<TrustEdge>, root: Key, target: Key, max: nat, p: seq<Key>, q: seq<Key>)
    requires IsBest(edges, root, target, max, p) && IsBest(edges, root, target, max, q)
    ensures p == q
  {
    if p != q {
      BeforeTrans(p, q, p);
      BeforeIrrefl(p);
    }
  }

  ghost function Hops(edges: seq<TrustEdge>, root: Key, p: seq<Key>): (r: seq<TrustHop>)
    ensures |r| == |p|
  {
    if p == [] then []
    else Hops(edges, root, Init(p)) + [TrustHop(Last(p), Via(edges, End(root, Init(p)), Last(p)))]
  }

  /** What `TrustPath` computes, said without a queue. */
  ghost function BestPath(edges: seq<TrustEdge>, root: Key, target: Key, max: nat): Option<seq<TrustHop>> {
    if exists p :: IsBest(edges, root, target, max, p) then
      var p :| IsBest(edges, root, target, max, p);
      Some(Hops(edges, root, p))
    else
      None
  }

  ghost predicate ReachedBy(root: Key, order: seq<seq<Key>>, n: Key, q: seq<Key>) {
    exists k :: 0 <= k < |order| && End(root, order[k]) == n && NotAfter(order[k], q)
  }

  /** The discovered paths, in order of discovery: the first `i` have been expanded,
      and `done` holds the neighbours of the next one dealt with so far. */
  ghost predicate PathInv(edges: seq<TrustEdge>, root: Key, max: nat, order: seq<seq<Key>>, i: nat, done: set<Key>) {
    && 0 < |order| && i <= |order| && order[0] == []
    && (forall k, l :: 0 <= k < l < |order| ==>
        Before(order[k], order[l]) && End(root, order[k]) != End(root, order[l]))
    && (forall k :: 0 <= k < |order| ==> |order[k]| <= max && Walk(edges, root, order[k]))
    && (i < |order| ==> forall k :: 0 < k < |order| ==>
          order[k] != [] &&
              (Before(Init(order[k]), order[i]) || (Init(order[k]) == order[i] && Last(order[k]) in done)))
    && (forall j, n :: 0 <= j < i && |order[j]| < max && Linked(edges, End(root, order[j]), n) ==>
          ReachedBy(root, order, n, order[j] + [n]))
    && (i < |order| ==> forall n :: n in done ==> ReachedBy(root, order, n, order[i] + [n]))
  }

  lemma Expanded(
    edges: seq<TrustEdge>, root: Key, max: nat, order: seq<seq<Key>>, i: nat, done: set<Key>, j: nat, n: Key)
    returns (k: nat)
    requires PathInv(edges, root, max, order, i, done)
    requires j < i && |order[j]| < max && Linked(edges, End(root, order[j]), n)
    ensures k < |order| && End(root, order[k]) == n && NotAfter(order[k], order[j] + [n])
  {
    assert ReachedBy(root, order, n, order[j] + [n]);
    k :| 0 <= k < |order| && End(root, order[k]) == n && NotAfter(order[k], order[j] + [n]);
  }

  lemma IndexBefore(edges: seq<TrustEdge>, root: Key, max: nat, order: seq<seq<Key>>, i: nat, done: set<Key>, k: nat)
    requires PathInv(edges, root, max, order, i, done)
    requires i < |order| && k < |order| && Before(order[k], order[i])
    ensures k < i
  {
    if i <= k {
      if i < k { BeforeTrans(order[k], order[i], order[k]); }
      BeforeIrrefl(order[k]);
    }
  }

  lemma NotAfterTrans(u: seq<Key>, v: seq<Key>, w: seq<Key>)
    requires NotAfter(u, v) && NotAfter(v, w)
    ensures NotAfter(u, w)
    ensures Before(u, v) || Before(v, w) ==> Before(u, w)
  {
    if u != v && v != w { BeforeTrans(u, v, w); }
  }

  lemma NotAfterExtend(u: seq<Key>, v: seq<Key>, x: Key)
    requires NotAfter(u, v)
    ensures NotAfter(u + [x], v + [x]) && |u| <= |v|
  {
    if u != v { BeforeExtend(u, v, x, x); }
  }

  /** Walks that come before the next unexpanded discovery end at expanded nodes. */
  lemma {:induction false} PathBehind(
    edges: seq<TrustEdge>, root: Key, max: nat, order: seq<seq<Key>>, i: nat, done: set<Key>, w: seq<Key>)
    returns (k: nat)
    requires PathInv(edges, root, max, order, i, done)
    requires Walk(edges, root, w) && |w| <= max
    requires i == |order| || Before(w, order[i])
    ensures k < i <= |order| && End(root, order[k]) == End(root, w) && NotAfter(order[k], w)
    decreases |w|
  {
    assert 0 < |order| && order[0] == [] && i <= |order|;
    hide PathInv, Before;
    if w == [] {
      k := 0;
      assert i != 0 by { BeforeIrrefl([]); }
    } else {
      var v, n := Init(w), Last(w);
      assert w == v + [n];
      assert Before(v, w) by { ShorterBefore(v, w); }
      if i < |order| { NotAfterTrans(v, w, order[i]); }
      var j := PathBehind(edges, root, max, order, i, done, v);
      NotAfterExtend(order[j], v, n);
      k := Expanded(edges, root, max, order, i, done, j, n);
      NotAfterTrans(order[k], order[j] + [n], w);
      if i < |order| {
        NotAfterTrans(order[k], w, order[i]);
        IndexBefore(edges, root, max, order, i, done, k);
      }
    }
  }

  lemma ShorterBefore(u: seq<Key>, v: seq<Key>)
    requires |u| < |v|
    ensures Before(u, v)
  {
  }

  ghost function Ends(root: Key, order: seq<seq<Key>>): set<Key> {
    set k | 0 <= k < |order| :: End(root, order[k])
  }

  lemma RouteInit(edges: seq<TrustEdge>, root: Key, max: nat)
    ensures PathInv(edges, root, max, [[]], 0, {})
    ensures Ends(root, [[]]) == {root} <= Nodes(edges, root) && EndSeq(root, [[]]) == [root]
  {
    var o: seq<seq<Key>> := [[]];
    assert o[0] == [];
  }

  lemma ReachedPush(root: Key, order: seq<seq<Key>>, p: seq<Key>, n: Key, q: seq<Key>)
    requires ReachedBy(root, order, n, q)
    ensures ReachedBy(root, order + [p], n, q)
  {
    var k :| 0 <= k < |order| && End(root, order[k]) == n && NotAfter(order[k], q);
    assert (order + [p])[k] == order[k];
  }

  /** Every path found so far comes before the one that extends the current node by a larger key. */
  lemma AllBefore(
    edges: seq<TrustEdge>, root: Key, max: nat, order: seq<seq<Key>>, i: nat, done: set<Key>, n: Key, k: nat)
    requires PathInv(edges, root, max, order, i, done) && i < |order| && k < |order|
    requires forall m :: m in done ==> m < n
    ensures Before(order[k], order[i] + [n])
  {
    if k > 0 {
      BeforeExtend(Init(order[k]), order[i], Last(order[k]), n);
      assert order[k] == Init(order[k]) + [Last(order[k])];
    }
  }

  lemma EndsPush(root: Key, order: seq<seq<Key>>, p: seq<Key>)
    ensures Ends(root, order + [p]) == Ends(root, order) + {End(root, p)}
  {
    var o := order + [p];
    assert o[|order|] == p;
    assert forall k :: 0 <= k < |order| ==> o[k] == order[k];
  }

  lemma RoutePush(edges: seq<TrustEdge>, root: Key, max: nat, order: seq<seq<Key>>, i: nat, done: set<Key>, n: Key)
    requires PathInv(edges, root, max, order, i, done) && i < |order| && |order[i]| < max
    requires Linked(edges, End(root, order[i]), n) && n !in Ends(root, order)
    requires forall m :: m in done ==> m < n
    ensures PathInv(edges, root, max, order + [order[i] + [n]], i, done + {n})
    ensures Ends(root, order + [order[i] + [n]]) == Ends(root, order) + {n}
  {
    var p := order[i] + [n];
    var o := order + [p];
    Extend(order[i], n);
    EndsPush(root, order, p);
    assert o[i] == order[i] && forall k :: 0 <= k < |order| ==> o[k] == order[k];
    forall k | 0 <= k < |order| ensures Before(o[k], p) && End(root, o[k]) != n {
      AllBefore(edges, root, max, order, i, done, n, k);
      assert End(root, order[k]) in Ends(root, order);
    }
    forall j, m | 0 <= j < i && |o[j]| < max && Linked(edges, End(root, o[j]), m)
        ensures ReachedBy(root, o, m, o[j] + [m]) {
      ReachedPush(root, order, p, m, order[j] + [m]);
    }
    forall m | m in done + {n} ensures ReachedBy(root, o, m, o[i] + [m]) {
      if m in done { ReachedPush(root, order, p, m, order[i] + [m]); } else { assert o[|order|] == p; }
    }
    assert Walk(edges, root, p);
    hide Before, Walk, ReachedBy, Linked, Ends;
  }

  lemma RouteSkip(edges: seq<TrustEdge>, root: Key, max: nat, order: seq<seq<Key>>, i: nat, done: set<Key>, n: Key)
    requires PathInv(edges, root, max, order, i, done) && i < |order| && n in Ends(root, order)
    ensures PathInv(edges, root, max, order, i, done + {n})
  {
    var k :| 0 <= k < |order| && End(root, order[k]) == n;
    assert NotAfter(order[k], order[i] + [n]) by {
      if k > 0 {
        assert order[k] == Init(order[k]) + [n];
        if Init(order[k]) != order[i] { BeforeExtend(Init(order[k]), order[i], n, n); }
      }
    }
    assert ReachedBy(root, order, n, order[i] + [n]);
  }

  lemma RouteNext(edges: seq<TrustEdge>, root: Key, max: nat, order: seq<seq<Key>>, i: nat, done: set<Key>)
    requires PathInv(edges, root, max, order, i, done) && i < |order|
    requires |order[i]| < max ==> forall n :: Linked(edges, End(root, order[i]), n) ==> n in done
    ensures PathInv(edges, root, max, order, i + 1, {})
  {
    if i + 1 < |order| {
      forall k | 0 < k < |order| ensures order[k] != [] && Before(Init(order[k]), order[i + 1]) {
        if Init(order[k]) != order[i] { BeforeTrans(Init(order[k]), order[i], order[i + 1]); }
      }
    }
  }

  /** The first discovery of the target is the best path to it. */
  lemma RouteFound(edges: seq<TrustEdge>, root: Key, max: nat, order: seq<seq<Key>>, i: nat, done: set<Key>, t: Key)
    requires PathInv(edges, root, max, order, i, done) && i < |order| && |order[i]| < max
    requires Linked(edges, End(root, order[i]), t) && t !in Ends(root, order)
    ensures IsBest(edges, root, t, max, order[i] + [t])
  {
    var p := order[i] + [t];
    Extend(order[i], t);
    forall w | IsRoute(edges, root, t, max, w) ensures NotAfter(p, w) {
      BeforeTotal(p, w);
      if Before(w, p) {
        assert root in Ends(root, order) by { assert End(root, order[0]) == root; }
        assert w == Init(w) + [t] && Before(Init(w), order[i]);
        var j := PathBehind(edges, root, max, order, i, done, Init(w));
        NotAfterExtend(order[j], Init(w), t);
        var k := Expanded(edges, root, max, order, i, done, j, t);
        assert false;
      }
    }
  }

  lemma RouteNone(edges: seq<TrustEdge>, root: Key, max: nat, order: seq<seq<Key>>, t: Key)
    requires PathInv(edges, root, max, order, |order|, {}) && t !in Ends(root, order)
    ensures BestPath(edges, root, t, max) == None
    ensures forall w :: !IsRoute(edges, root, t, max, w)
  {
    forall w ensures !IsRoute(edges, root, t, max, w) {
      if IsRoute(edges, root, t, max, w) {
        var k := PathBehind(edges, root, max, order, |order|, {}, w);
        assert false;
      }
    }
  }

  lemma BestIs(edges: seq<TrustEdge>, root: Key, target: Key, max: nat, p: seq<Key>)
    requires IsBest(edges, root, target, max, p)
    ensures BestPath(edges, root, target, max) == Some(Hops(edges, root, p))
  {
    forall q | IsBest(edges, root, target, max, q) ensures q == p {
      BestUnique(edges, root, target, max, p, q);
    }
  }

  ghost predicate HopRecord(edges: seq<TrustEdge>, root: Key, order: seq<seq<Key>>, paths: map<Key, seq<TrustHop>>) {
    && paths.Keys == Ends(root, order)
    && forall k :: 0 <= k < |order| ==> paths[End(root, order[k])] == Hops(edges, root, order[k])
  }

  lemma HopInit(edges: seq<TrustEdge>, root: Key)
    ensures HopRecord(edges, root, [[]], map[root := []])
  {
    RouteInit(edges, root, 0);
  }

  lemma HopPush(
    edges: seq<TrustEdge>, root: Key, order: seq<seq<Key>>, paths: map<Key, seq<TrustHop>>, i: nat, h: TrustHop)
    requires HopRecord(edges, root, order, paths) && i < |order|
    requires h.key !in Ends(root, order) && h.via == Via(edges, End(root, order[i]), h.key)
    ensures paths[End(root, order[i])] + [h] == Hops(edges, root, order[i] + [h.key])
    ensures HopRecord(edges, root, order + [order[i] + [h.key]], paths[h.key := paths[End(root, order[i])] + [h]])
  {
    EndsPush(root, order, order[i] + [h.key]);
    Extend(order[i], h.key);
    assert forall k :: 0 <= k < |order| ==> End(root, order[k]) in Ends(root, order);
  }

  lemma HopAt(edges: seq<TrustEdge>, root: Key, order: seq<seq<Key>>, paths: map<Key, seq<TrustHop>>, i: nat)
    requires HopRecord(edges, root, order, paths) && i < |order|
    ensures End(root, order[i]) in paths && |paths[End(root, order[i])]| == |order[i]|
  {
    assert End(root, order[i]) in Ends(root, order);
  }

  lemma RouteBound(edges: seq<TrustEdge>, root: Key, max: nat, order: seq<seq<Key>>, i: nat, done: set<Key>)
    requires PathInv(edges, root, max, order, i, done) && i < |order|
    ensures |order[i]| <= max
  {
  }

  ghost function EndSeq(root: Key, order: seq<seq<Key>>): (r: seq<Key>)
    ensures |r| == |order|
  {
    seq(|order|, k requires 0 <= k < |order| => End(root, order[k]))
  }

  lemma EndSeqPush(root: Key, order: seq<seq<Key>>, i: nat, n: Key)
    requires i < |order|
    ensures EndSeq(root, order + [order[i] + [n]])[i + 1..] == EndSeq(root, order)[i + 1..] + [n]
  {
    Extend(order[i], n);
    assert EndSeq(root, order + [order[i] + [n]]) == EndSeq(root, order) + [n];
  }

  lemma EndSeqPop(root: Key, order: seq<seq<Key>>, i: nat)
    requires i < |order|
    ensures EndSeq(root, order)[i..][0] == End(root, order[i]) &&
        EndSeq(root, order)[i..][1..] == EndSeq(root, order)[i + 1..]
  {
  }

  /** The key a list of hops arrives at. */
  function HopsEnd(root: Key, hops: seq<TrustHop>): Key {
    if hops == [] then root else hops[|hops| - 1].key
  }

  /** The hop is an edge of its kind from this key, and a Follow hop stands only where
      no vouch connects the two. */
  ghost predicate RealHop(edges: seq<TrustEdge>, from: Key, hop: TrustHop) {
    && (exists e :: e in edges && e.from == from && e.to == hop.key && e.kind == hop.via)
    && (hop.via == Vouch || hop.via == Follow)
    && (hop.via == Follow ==> forall e :: e in edges && e.from == from && e.to == hop.key ==> e.kind != Vouch)
  }

  /** Each hop starts where the one before it ends. */
  ghost predicate RealHops(edges: seq<TrustEdge>, root: Key, hops: seq<TrustHop>) {
    forall i :: 0 <= i < |hops| ==> RealHop(edges, HopsEnd(root, hops[..i]), hops[i])
  }

  lemma LinkReal(edges: seq<TrustEdge>, from: Key, to: Key)
    requires Linked(edges, from, to)
    ensures RealHop(edges, from, TrustHop(to, Via(edges, from, to)))
  {
    var e :| e in edges && IsLink(e, from, to);
    if v :| v in edges && IsLink(v, from, to) && v.kind == Vouch { assert v.kind == Via(edges, from, to); }
  }

  lemma RealSnoc(edges: seq<TrustEdge>, root: Key, front: seq<TrustHop>, hop: TrustHop)
    requires RealHops(edges, root, front) && RealHop(edges, HopsEnd(root, front), hop)
    ensures RealHops(edges, root, front + [hop]) && HopsEnd(root, front + [hop]) == hop.key
  {
    hide RealHop;
    var hops := front + [hop];
    assert hops[..|front|] == front;
    forall i | 0 <= i < |hops| ensures RealHop(edges, HopsEnd(root, hops[..i]), hops[i]) {
      if i < |front| { assert hops[..i] == front[..i] && hops[i] == front[i]; }
    }
  }

  lemma {:induction false} HopsReal(edges: seq<TrustEdge>, root: Key, p: seq<Key>)
    requires Walk(edges, root, p)
    ensures RealHops(edges, root, Hops(edges, root, p)) && HopsEnd(root, Hops(edges, root, p)) == End(root, p)
    decreases |p|
  {
    hide Linked, Via, RealHop;
    if p != [] {
      var from := End(root, Init(p));
      HopsReal(edges, root, Init(p));
      LinkReal(edges, from, Last(p));
      hide RealHops, HopsEnd;
      RealSnoc(edges, root, Hops(edges, root, Init(p)), TrustHop(Last(p), Via(edges, from, Last(p))));
    }
  }

  /** Some Follow or Vouch edge leads from one key to the other. */
  ghost predicate StepBy(edges: seq<TrustEdge>, from: Key, to: Key) {
    exists e :: e in edges && e.from == from && e.to == to && (e.kind == Follow || e.kind == Vouch)
  }

  lemma LinkMeans(edges: seq<TrustEdge>, from: Key, to: Key)
    ensures Linked(edges, from, to) <==> StepBy(edges, from, to)
  {
    if e :| e in edges && e.from == from && e.to == to && (e.kind == Follow || e.kind == Vouch) {
      assert IsLink(e, from, to);
    }
  }

  ghost predicate StepAt(edges: seq<TrustEdge>, root: Key, p: seq<Key>, i: nat)
    requires i < |p|
  {
    StepBy(edges, if i == 0 then root else p[i - 1], p[i])
  }

  /** A walk is a chain of Follow or Vouch edges. */
  lemma {:induction false} WalkMeans(edges: seq<TrustEdge>, root: Key, p: seq<Key>)
    ensures Walk(edges, root, p) <==> forall i :: 0 <= i < |p| ==> StepAt(edges, root, p, i)
    decreases |p|
  {
    hide Linked, StepBy;
    if p != [] {
      var a, n := Init(p), |p| - 1;
      WalkMeans(edges, root, a);
      LinkMeans(edges, End(root, a), p[n]);
      assert StepAt(edges, root, p, n) <==> Linked(edges, End(root, a), Last(p));
      assert forall i :: 0 <= i < n ==> (StepAt(edges, root, a, i) <==> StepAt(edges, root, p, i));
    }
  }

  /** The order of paths, key by key from the front. */
  lemma {:induction false} BeforeMeans(u: seq<Key>, v: seq<Key>)
    ensures |u| < |v| ==> Before(u, v)
    ensures |u| > |v| ==> !Before(u, v)
    ensures |u| == |v| ==> (Before(u, v) <==> exists i :: 0 <= i < |u| && u[..i] == v[..i] && u[i] < v[i])
    decreases |u|
  {
    if |u| == |v| > 0 {
      var a, b, n := Init(u), Init(v), |u| - 1;
      BeforeMeans(a, b);
      assert forall i :: 0 <= i < n ==> a[..i] == u[..i] && b[..i] == v[..i] && a[i] == u[i] && b[i] == v[i];
      assert u[..n] == a && v[..n] == b;
      if Before(a, b) {
        var i :| 0 <= i < n && a[..i] == b[..i] && a[i] < b[i];
        assert u[..i] == v[..i] && u[i] < v[i];
      }
      if i :| 0 <= i < |u| && u[..i] == v[..i] && u[i] < v[i] {
        if i < n { assert a[..i] == b[..i] && a[i] < b[i]; }
      }
    }
  }

  /** The neighbours of a key in the Follow graph are the targets of its Follow edges. */
  lemma FollowMeans(edges: seq<TrustEdge>, from: Key, to: Key)
    ensures to in Succ(FollowGraph(edges), from) <==>
            exists e :: e in edges && e.kind == Follow && e.from == from && e.to == to
  {
  }

  /** The best trust path within `max` hops: fewest hops, then least key by key,
      each hop carrying the stronger kind of its link; `None` exactly when no
      walk of at most `max` hops exists. */
  method TrustPath(edges: seq<TrustEdge>, root: Key, target: Key, max: nat) returns (r: Option<seq<TrustHop>>)
    requires max <= 255
    ensures r == BestPath(edges, root, target, max)
    ensures r.None? <==> forall w :: !IsRoute(edges, root, target, max, w)
    ensures r.Some? ==> exists p :: IsBest(edges, root, target, max, p) && r.value == Hops(edges, root, p)
    ensures r.Some? ==> |r.value| <= max && RealHops(edges, root, r.value) && HopsEnd(root, r.value) == target
  {
    hide *;
    if root == target {
      BestSelf(edges, root, max);
      FoundReal(edges, root, root, max, []);
      return Some([]);
    }
    var paths: map<Key, seq<TrustHop>> := map[root := []];
    var q := [root];
    ghost var order: seq<seq<Key>>, i := [[]], 0;
    RouteInit(edges, root, max);
    HopInit(edges, root);
    while q != []
      invariant PathInv(edges, root, max, order, i, {}) && HopRecord(edges, root, order, paths)
      invariant i <= |order| && q == EndSeq(root, order)[i..]
      invariant target !in paths && paths.Keys == Ends(root, order) <= Nodes(edges, root)
      decreases Nodes(edges, root) - paths.Keys, |q|
    {
      EndSeqPop(root, order, i);
      var node := q[0];
      q := q[1..];
      HopAt(edges, root, order, paths, i);
      RouteBound(edges, root, max, order, i, {});
      var nodePath := paths[node];
      ghost var done: set<Key> := {};
      if |nodePath| % 256 != max {
        var nexts := TrustNeighbors(edges, node);
        ghost var before, rest := paths, q;
        for j := 0 to |nexts|
          invariant PathInv(edges, root, max, order, i, done) && HopRecord(edges, root, order, paths)
          invariant i < |order| && End(root, order[i]) == node && |order[i]| == |nodePath| < max &&
              q == EndSeq(root, order)[i + 1..]
          invariant target !in paths && node in paths && paths[node] == nodePath
          invariant before.Keys <= paths.Keys == Ends(root, order) <= Nodes(edges, root)
          invariant done == set k | 0 <= k < j :: nexts[k].key
          invariant paths.Keys == before.Keys ==> q == rest
        {
          var next := nexts[j];
          if next.key !in paths {
            HopPush(edges, root, order, paths, i, next);
            if next.key == target {
              RouteFound(edges, root, max, order, i, done, target);
              BestIs(edges, root, target, max, order[i] + [target]);
              FoundReal(edges, root, target, max, order[i] + [target]);
              BestRoute(edges, root, target, max, order[i] + [target]);
              return Some(nodePath + [next]);
            }
            RoutePush(edges, root, max, order, i, done, next.key);
            LinkedNode(edges, root, node, next.key);
            EndSeqPush(root, order, i, next.key);
            order := order + [order[i] + [next.key]];
            paths := paths[next.key := nodePath + [next]];
            q := q + [next.key];
          } else {
            RouteSkip(edges, root, max, order, i, done, next.key);
          }
          done := done + {next.key};
        }
      }
      RouteNext(edges, root, max, order, i, done);
      i := i + 1;
    }
    RouteNone(edges, root, max, order, target);
    r := None;
  }

  lemma FoundReal(edges: seq<TrustEdge>, root: Key, target: Key, max: nat, p: seq<Key>)
    requires IsBest(edges, root, target, max, p)
    ensures var hops := Hops(edges, root, p);
            |hops| <= max && RealHops(edges, root, hops) && HopsEnd(root, hops) == target
  {
    hide RealHops;
    HopsReal(edges, root, p);
  }

  lemma BestSelf(edges: seq<TrustEdge>, root: Key, max: nat)
    ensures BestPath(edges, root, root, max) == Some([])
    ensures IsRoute(edges, root, root, max, []) && IsBest(edges, root, root, max, []) && Hops(edges, root, []) == []
  {
    assert IsRoute(edges, root, root, max, []);
    assert IsBest(edges, root, root, max, []);
    BestIs(edges, root, root, max, []);
  }

  lemma BestRoute(edges: seq<TrustEdge>, root: Key, target: Key, max: nat, p: seq<Key>)
    requires IsBest(edges, root, target, max, p)
    ensures IsRoute(edges, root, target, max, p)
  {
  }

  lemma LinkedNode(edges: seq<TrustEdge>, root: Key, from: Key, to: Key)
    requires Linked(edges, from, to)
    ensures to in Nodes(edges, root)
  {
  }
}
