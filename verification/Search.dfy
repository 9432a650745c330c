/** Relay-side search: the profiles matching a term, and the trust edges lying on
    some walk of bounded length into one of them, found by a reverse
    breadth-first walk. */
module Search {
  import opened Collab
  import opened Reach

  /** Steps against the direction of the edges, whatever their kind. */
  ghost function Reverse(edges: seq<TrustEdge>): Graph<Key> {
    map n | n in (set e | e in edges :: e.to) :: SourcesInto(edges, n)
  }

  ghost function SourcesInto(edges: seq<TrustEdge>, n: Key): set<Key> {
    set e | e in edges && e.to == n :: e.from
  }

  /** The edges pointing into `n`, in corpus order. */
  function Incoming(edges: seq<TrustEdge>, n: Key): (r: seq<TrustEdge>)
    ensures forall e :: e in r <==> e in edges && e.to == n
  {
    if edges == [] then [] else
      assert forall e :: e in edges <==> e == edges[0] || e in edges[1..];
      (if edges[0].to == n then [edges[0]] else []) + Incoming(edges[1..], n)
  }

  lemma IncomingSources(edges: seq<TrustEdge>, n: Key)
    ensures forall e :: e in Incoming(edges, n) ==> e.from in Succ(Reverse(edges), n)
    ensures forall x :: x in Succ(Reverse(edges), n) ==> exists e :: e in Incoming(edges, n) && e.from == x
  {
  }

  /** Fewer than `hops` edges of the corpus lead from `n` to `key`. */
  ghost predicate Near(edges: seq<TrustEdge>, key: Key, hops: nat, n: Key) {
    exists d: nat :: d < hops && ReachIn(Reverse(edges), key, n, d)
  }

  /** The edges that can close a walk of at most `hops` edges into `key`. */
  ghost function Ball(edges: seq<TrustEdge>, key: Key, hops: nat): set<TrustEdge> {
    set e | e in edges && Near(edges, key, hops, e.to)
  }

  /** The union of the balls around the matching profiles. */
  ghost function Balls(edges: seq<TrustEdge>, profiles: seq<Profile>, term: string, hops: nat): set<TrustEdge> {
    if profiles == [] then {}
    else
      Balls(edges, profiles[..|profiles| - 1], term, hops) +
      if ProfileMatches(profiles[|profiles| - 1], term) then Ball(edges, profiles[|profiles| - 1].key, hops) else {}
  }

  /** A chain of edges from one key to another. */
  ghost predicate Chain(edges: seq<TrustEdge>, from: Key, c: seq<TrustEdge>, to: Key)
    decreases |c|
  {
    if c == [] then from == to
    else c[0] in edges && c[0].from == from && Chain(edges, c[0].to, c[1..], to)
  }

  /** The ball holds exactly the edges from whose end a chain of fewer than `hops` edges
      of the corpus, of whatever kind, leads to the key. */
  lemma BallMeans(edges: seq<TrustEdge>, key: Key, hops: nat, e: TrustEdge)
    ensures e in Ball(edges, key, hops) <==> e in edges && exists c :: |c| < hops && Chain(edges, e.to, c, key)
  {
    if Near(edges, key, hops, e.to) {
      var d: nat :| d < hops && ReachIn(Reverse(edges), key, e.to, d);
      var c := ChainOf(edges, key, e.to, d);
    }
    if c :| |c| < hops && Chain(edges, e.to, c, key) {
      ChainReaches(edges, e.to, c, key);
    }
  }

  lemma {:induction false} ChainOf(edges: seq<TrustEdge>, key: Key, n: Key, d: nat) returns (c: seq<TrustEdge>)
    requires ReachIn(Reverse(edges), key, n, d)
    ensures |c| == d && Chain(edges, n, c, key)
    decreases d
  {
    if d == 0 {
      c := [];
    } else {
      var m :| ReachIn(Reverse(edges), key, m, d - 1) && n in Succ(Reverse(edges), m);
      var e :| e in edges && e.to == m && e.from == n;
      var rest := ChainOf(edges, key, m, d - 1);
      c := [e] + rest;
      assert c[1..] == rest;
    }
  }

  lemma {:induction false} ChainReaches(edges: seq<TrustEdge>, n: Key, c: seq<TrustEdge>, key: Key)
    requires Chain(edges, n, c, key)
    ensures ReachIn(Reverse(edges), key, n, |c|)
    decreases |c|
  {
    if c != [] {
      ChainReaches(edges, c[0].to, c[1..], key);
      assert n in Succ(Reverse(edges), c[0].to);
    }
  }

  function Matching(profiles: seq<Profile>, term: string): seq<Profile> {
    if profiles == [] then []
    else
      Matching(profiles[..|profiles| - 1], term) +
      if ProfileMatches(profiles[|profiles| - 1], term) then [profiles[|profiles| - 1]] else []
  }

  lemma MatchingSnoc(a: seq<Profile>, p: Profile, term: string)
    ensures Matching(a + [p], term) == Matching(a, term) + if ProfileMatches(p, term) then [p] else []
  {
    hide ProfileMatches;
    assert (a + [p])[..|a|] == a;
  }

  /** Matching keeps the order: it is done part by part. */
  lemma {:induction false} MatchingConcat(a: seq<Profile>, b: seq<Profile>, term: string)
    ensures Matching(a + b, term) == Matching(a, term) + Matching(b, term)
    decreases |b|
  {
    if b == [] {
      assert a + b == a && Matching([], term) == [];
    } else {
      hide Matching, ProfileMatches;
      var front, z := b[..|b| - 1], b[|b| - 1];
      MatchingConcat(a, front, term);
      assert b == front + [z] && a + b == (a + front) + [z];
      MatchingSnoc(front, z, term);
      MatchingSnoc(a + front, z, term);
    }
  }

  ghost predicate Distinct(edges: seq<TrustEdge>) {
    forall i, j :: 0 <= i < j < |edges| ==> edges[i] != edges[j]
  }

  /** `out` holds these profiles in order and each of these edges once. */
  ghost predicate Holds(out: seq<CollabObject>, profiles: seq<Profile>, ball: set<TrustEdge>) {
    && ProfilesOf(out) == profiles
    && Distinct(EdgesOf(out))
    && forall e :: e in EdgesOf(out) <==> e in ball
  }

  lemma HoldsEdge(out: seq<CollabObject>, profiles: seq<Profile>, ball: set<TrustEdge>, e: TrustEdge)
    requires Holds(out, profiles, ball) && e !in ball
    ensures Holds(out + [EdgeObject(e)], profiles, ball + {e})
  {
    assert (out + [EdgeObject(e)])[..|out|] == out;
  }

  lemma HoldsProfile(out: seq<CollabObject>, profiles: seq<Profile>, ball: set<TrustEdge>, p: Profile)
    requires Holds(out, profiles, ball)
    ensures Holds(out + [ProfileObject(p)], profiles + [p], ball)
  {
    assert (out + [ProfileObject(p)])[..|out|] == out;
  }

  ghost function Emitted(edges: seq<TrustEdge>, b: Found<Key>, hops: nat): set<TrustEdge> {
    set e | e in edges && exists k :: 0 <= k < |b| && b[k].0 == e.to && b[k].1 < hops
  }

  lemma EmittedNext(edges: seq<TrustEdge>, b: Found<Key>, i: nat, hops: nat)
    requires i < |b|
    ensures Emitted(edges, b[..i + 1], hops) ==
            Emitted(edges, b[..i], hops) + if b[i].1 < hops then (set e | e in Incoming(edges, b[i].0)) else {}
  {
    var c := b[..i + 1];
    assert c[i] == b[i] && forall k :: 0 <= k < i ==> c[k] == b[..i][k];
    forall e | e in Emitted(edges, c, hops)
      ensures e in Emitted(edges, b[..i], hops) || (b[i].1 < hops && e in Incoming(edges, b[i].0))
    {
      var k :| 0 <= k < |c| && c[k].0 == e.to && c[k].1 < hops;
      if k < i { assert b[..i][k] == c[k]; }
    }
    forall e | e in Emitted(edges, b[..i], hops) ensures e in Emitted(edges, c, hops) {
      var k :| 0 <= k < i && b[..i][k].0 == e.to && b[..i][k].1 < hops;
      assert c[k] == b[..i][k];
    }
  }

  lemma EmittedDone(edges: seq<TrustEdge>, key: Key, hops: nat, b: Found<Key>)
    requires BfsInv(Reverse(edges), key, hops, b, |b|, {})
    ensures Emitted(edges, b, hops) == Ball(edges, key, hops)
  {
    var g := Reverse(edges);
    BfsDone(g, key, hops, b);
    forall e | e in Ball(edges, key, hops) ensures e in Emitted(edges, b, hops) {
      var d: nat :| d < hops && ReachIn(g, key, e.to, d);
      BfsComplete(g, key, hops, b, e.to, d);
      var k :| 0 <= k < |b| && b[k].0 == e.to && b[k].1 <= d;
    }
    forall e | e in Emitted(edges, b, hops) ensures e in Ball(edges, key, hops) {
      var k :| 0 <= k < |b| && b[k].0 == e.to && b[k].1 < hops;
      assert ReachIn(g, key, e.to, b[k].1);
    }
  }

  ghost function Keys(edges: seq<TrustEdge>, key: Key): set<Key> {
    {key} + set e | e in edges :: e.from
  }

  /** The reverse walk around one matched key: emits the edges of its ball that
      were not emitted before. */
  method ReverseWalk(
    edges: seq<TrustEdge>, key: Key, hops: nat, out0: seq<CollabObject>, ball0: set<TrustEdge>,
    ghost profiles: seq<Profile>)
    returns (out: seq<CollabObject>, ball: set<TrustEdge>)
    requires Holds(out0, profiles, ball0)
    ensures Holds(out, profiles, ball) && ball == ball0 + Ball(edges, key, hops)
  {
    hide *;
    ghost var g := Reverse(edges);
    out, ball := out0, ball0;
    var visited := {key};
    var q := [(key, 0)];
    ghost var b: Found<Key>, i := [(key, 0)], 0;
    BfsInit(g, key, hops);
    WalkInit(edges, key, hops);
    while q != []
      invariant BfsInv(g, key, hops, b, i, {}) && Holds(out, profiles, ball)
      invariant i <= |b| && q == b[i..]
      invariant visited == Seen(b) <= Keys(edges, key)
      invariant ball == ball0 + Emitted(edges, b[..i], hops)
      decreases Keys(edges, key) - visited, |q|
    {
      var (node, depth) := q[0];
      q := q[1..];
      ghost var done: set<Key> := {};
      ghost var prefix := b[..i];
      BfsHead(g, key, hops, b, i, done);
      if depth < hops {
        var preds := Incoming(edges, node);
        IncomingSources(edges, node);
        ghost var before, rest, start := visited, q, ball;
        for j := 0 to |preds|
          invariant BfsInv(g, key, hops, b, i, done) && Holds(out, profiles, ball)
          invariant i < |b| && b[i] == (node, depth) && q == b[i + 1..]
          invariant before <= visited == Seen(b) <= Keys(edges, key)
          invariant visited == before ==> q == rest
          invariant forall k :: 0 <= k < j ==> preds[k].from in done
          invariant ball == start + set k | 0 <= k < j :: preds[k]
          invariant b[..i] == prefix
        {
          var e := preds[j];
          if e !in ball {
            HoldsEdge(out, profiles, ball, e);
            ball := ball + {e};
            out := out + [EdgeObject(e)];
          }
          if e.from !in visited {
            BfsPush(g, key, hops, b, i, done, e.from);
            KeyKnown(edges, key, e);
            b := b + [(e.from, depth + 1)];
            visited := visited + {e.from};
            q := q + [(e.from, depth + 1)];
          } else {
            BfsSkip(g, key, hops, b, i, done, e.from);
          }
          done := done + {e.from};
        }
      }
      EmittedNext(edges, b, i, hops);
      BfsNext(g, key, hops, b, i, done);
      i := i + 1;
    }
    assert b[..|b|] == b;
    EmittedDone(edges, key, hops, b);
  }

  lemma WalkInit(edges: seq<TrustEdge>, key: Key, hops: nat)
    ensures Emitted(edges, [], hops) == {} && key in Keys(edges, key)
  {
  }

  lemma KeyKnown(edges: seq<TrustEdge>, key: Key, e: TrustEdge)
    requires e in edges
    ensures e.from in Keys(edges, key)
  {
  }

  /** The relay's answer: matching profiles in corpus order, and exactly the
      edges of their balls, each once. */
  method SearchBall(corpus: seq<CollabObject>, term: string, hops: nat) returns (out: seq<CollabObject>)
    ensures ProfilesOf(out) == Matching(ProfilesOf(corpus), term)
    ensures Distinct(EdgesOf(out))
    ensures forall e :: e in EdgesOf(out) <==> e in Balls(EdgesOf(corpus), ProfilesOf(corpus), term, hops)
  {
    var profiles, edges := ProfilesOf(corpus), EdgesOf(corpus);
    out := [];
    var ball: set<TrustEdge> := {};
    for j := 0 to |profiles|
      invariant Holds(out, Matching(profiles[..j], term), ball)
      invariant ball == Balls(edges, profiles[..j], term, hops)
    {
      assert profiles[..j + 1][..j] == profiles[..j];
      if ProfileMatches(profiles[j], term) {
        HoldsProfile(out, Matching(profiles[..j], term), ball, profiles[j]);
        out := out + [ProfileObject(profiles[j])];
        out, ball := ReverseWalk(edges, profiles[j].key, hops, out, ball, Matching(profiles[..j + 1], term));
      }
    }
    assert profiles[..|profiles|] == profiles;
  }
}
