/** Asking a relay to filter the corpus first: exactly when the client's ranking of
    the filtered answer is its ranking of the whole corpus. */
module Relay {
  import opened Wrappers
  import opened Collab
  import opened Reach
  import opened Trust
  import opened Search
  import opened Discovery

  /** The most hops a relay honours; it clamps silently. */
  const MAX_SEARCH_HOPS: nat := 6

  /** Shorter terms are refused. */
  const MIN_SEARCH_TERM_LEN: nat := 3

  /** What a relay may answer for a bound of `r` hops. */
  ghost predicate IsAnswer(corpus: seq<CollabObject>, out: seq<CollabObject>, term: string, r: nat) {
    && ProfilesOf(out) == Matching(ProfilesOf(corpus), term)
    && (forall e :: e in EdgesOf(out) <==> e in Balls(EdgesOf(corpus), ProfilesOf(corpus), term, r))
  }

  /** For every corpus, a client that looks `h` hops far cannot tell the relay's answer
      from the corpus: same hits, same order, same trust paths. */
  ghost predicate Transparent(self: Key, own: seq<TrustEdge>, term: string, r: nat, h: nat, fp: Key -> string) {
    forall corpus, out :: IsAnswer(corpus, out, term, r) ==>
      Ranking(self, own, out, term, h, fp) == Ranking(self, own, corpus, term, h, fp)
  }

  /** From the client through `c`, no later than through `a`, and vouched already. */
  ghost predicate Vouched(self: Key, own: seq<TrustEdge>, a: Key, b: Key, c: Key) {
    c <= a && Linked(own, self, c) && Via(own, self, c) == Vouch && Linked(own, c, b)
  }

  /** No link the client holds of somebody else can complete a path that a corpus edge
      begins: where it leads, the client has a way of its own that comes no later. */
  ghost predicate Harmless(self: Key, own: seq<TrustEdge>) {
    forall a, b :: Linked(own, a, b) && a != self && b != self && a != b ==>
      Linked(own, self, b) || exists c :: Vouched(self, own, a, b, c)
  }

  // ----------------------------------------------------------------------
  // Best paths
  // ----------------------------------------------------------------------

  lemma {:induction false} WalkPrefix(edges: seq<TrustEdge>, root: Key, w: seq<Key>, k: nat)
    requires Walk(edges, root, w) && k < |w|
    ensures Walk(edges, root, w[..k]) && Linked(edges, End(root, w[..k]), w[k])
    decreases |w|
  {
    if k < |w| - 1 {
      WalkPrefix(edges, root, Init(w), k);
      assert Init(w)[..k] == w[..k] && Init(w)[k] == w[k];
    } else {
      assert Init(w) == w[..k];
    }
  }

  lemma {:induction false} WalkMono(part: seq<TrustEdge>, full: seq<TrustEdge>, root: Key, w: seq<Key>)
    requires Walk(part, root, w) && forall e :: e in part ==> e in full
    ensures Walk(full, root, w)
    decreases |w|
  {
    if w != [] {
      WalkMono(part, full, root, Init(w));
    }
  }

  /** The same steps from another way to the same key. */
  lemma {:induction false} WalkAppend(edges: seq<TrustEdge>, root: Key, u: seq<Key>, v: seq<Key>, s: seq<Key>)
    requires Walk(edges, root, u + s) && Walk(edges, root, v) && End(root, u) == End(root, v)
    ensures Walk(edges, root, v + s) && End(root, v + s) == End(root, u + s)
    decreases |s|
  {
    hide Linked;
    if s == [] {
      assert u + s == u && v + s == v;
    } else {
      assert Init(u + s) == u + Init(s) && Init(v + s) == v + Init(s);
      WalkAppend(edges, root, u, v, Init(s));
    }
  }

  lemma {:induction false} BeforeAppend(u: seq<Key>, v: seq<Key>, s: seq<Key>)
    requires Before(u, v)
    ensures Before(u + s, v + s)
    decreases |s|
  {
    hide Before;
    if s == [] {
      assert u + s == u && v + s == v;
    } else {
      BeforeAppend(u, v, Init(s));
      BeforeExtend(u + Init(s), v + Init(s), Last(s), Last(s));
      assert u + s == u + Init(s) + [Last(s)] && v + s == v + Init(s) + [Last(s)];
    }
  }

  lemma BeforeLength(u: seq<Key>, v: seq<Key>)
    requires NotAfter(u, v)
    ensures |u| <= |v|
  {
  }

  /** Every beginning of a best path is first among the walks to where it ends. */
  lemma PrefixBest(edges: seq<TrustEdge>, root: Key, t: Key, max: nat, p: seq<Key>, j: nat, w: seq<Key>)
    requires IsBest(edges, root, t, max, p) && j <= |p|
    requires Walk(edges, root, w) && End(root, w) == End(root, p[..j])
    ensures NotAfter(p[..j], w)
  {
    hide Before, Linked, Walk;
    BeforeTotal(p[..j], w);
    if Before(w, p[..j]) {
      var s := p[j..];
      assert p[..j] + s == p;
      WalkAppend(edges, root, p[..j], w, s);
      BeforeAppend(w, p[..j], s);
      BeforeLength(w, p[..j]);
      assert IsRoute(edges, root, t, max, w + s);
      NotAfterTrans(p, w + s, p);
      BeforeIrrefl(p);
      assert false;
    }
  }

  lemma PrefixShortest(edges: seq<TrustEdge>, root: Key, t: Key, max: nat, p: seq<Key>, j: nat, w: seq<Key>)
    requires IsBest(edges, root, t, max, p) && j <= |p| && Walk(edges, root, w)
    ensures End(root, w) == End(root, p[..j]) ==> j <= |w|
  {
    hide Walk, Before;
    if End(root, w) == End(root, p[..j]) {
      PrefixBest(edges, root, t, max, p, j, w);
      BeforeLength(p[..j], w);
    }
  }

  /** A bound on the keys that edges lead to. */
  ghost function Above(edges: seq<TrustEdge>, root: Key): (k: nat)
    ensures root < k && forall e :: e in edges ==> e.from < k && e.to < k
  {
    if edges == [] then root + 1
    else
      var k, e := Above(edges[..|edges| - 1], root), edges[|edges| - 1];
      assert edges == edges[..|edges| - 1] + [e];
      if k <= e.from || k <= e.to then e.from + e.to + 1 + k else k
  }

  /** A path as the digits of a number. */
  ghost function Value(p: seq<Key>, base: nat): nat {
    if p == [] then 0 else Value(Init(p), base) * base + Last(p)
  }

  lemma {:induction false} BeforeValue(u: seq<Key>, v: seq<Key>, base: nat)
    requires Before(u, v) && |u| == |v| && (forall i :: 0 <= i < |u| ==> u[i] < base && v[i] < base)
    ensures Value(u, base) < Value(v, base)
    decreases |u|
  {
    if Before(Init(u), Init(v)) {
      BeforeValue(Init(u), Init(v), base);
      Shifted(Value(Init(u), base), Value(Init(v), base), base, Last(u), Last(v));
    }
  }

  lemma Shifted(a: nat, b: nat, base: nat, x: nat, y: nat)
    requires a < b && x < base
    ensures a * base + x < b * base + y
  {
    assert (a + 1) * base <= b * base;
  }

  lemma {:induction false} WalkBelow(edges: seq<TrustEdge>, root: Key, w: seq<Key>, base: nat)
    requires Walk(edges, root, w) && forall e :: e in edges ==> e.to < base
    ensures forall i :: 0 <= i < |w| ==> w[i] < base
    decreases |w|
  {
    if w != [] {
      WalkBelow(edges, root, Init(w), base);
      var e :| e in edges && IsLink(e, End(root, Init(w)), Last(w));
    }
  }

  /** Where there is a route there is a best one. */
  lemma {:induction false} BestExists(edges: seq<TrustEdge>, root: Key, t: Key, max: nat, w: seq<Key>)
    requires IsRoute(edges, root, t, max, w)
    ensures exists p :: IsBest(edges, root, t, max, p)
    decreases |w|, Value(w, Above(edges, root))
  {
    hide Before, Above, Value, Walk;
    if v :| IsRoute(edges, root, t, max, v) && Before(v, w) {
      BeforeLength(v, w);
      if |v| == |w| {
        WalkBelow(edges, root, v, Above(edges, root));
        WalkBelow(edges, root, w, Above(edges, root));
        BeforeValue(v, w, Above(edges, root));
      }
      BestExists(edges, root, t, max, v);
    } else {
      forall v | IsRoute(edges, root, t, max, v) ensures NotAfter(w, v) { BeforeTotal(w, v); }
      assert IsBest(edges, root, t, max, w);
    }
  }

  // ----------------------------------------------------------------------
  // Enough: the best path survives the filter
  // ----------------------------------------------------------------------

  /** The relay kept every edge that can close a bounded walk into `t`. */
  ghost predicate KeepsBall(corpus: seq<TrustEdge>, out: seq<TrustEdge>, t: Key, max: nat) {
    && (forall e :: e in out ==> e in corpus)
    && (forall e :: e in Ball(corpus, t, max) ==> e in out)
  }

  lemma LinkKept(own: seq<TrustEdge>, corpus: seq<TrustEdge>, out: seq<TrustEdge>, t: Key, max: nat, from: Key, to: Key)
    requires KeepsBall(corpus, out, t, max) && Near(corpus, t, max, to)
    ensures Linked(own + corpus, from, to) <==> Linked(own + out, from, to)
    ensures Via(own + corpus, from, to) == Via(own + out, from, to)
  {
    hide Near;
    forall e | IsLink(e, from, to) ensures e in own + corpus <==> e in own + out {
      if e in corpus { assert e in Ball(corpus, t, max); }
    }
  }

  /** Step `i` of the path is a link of these edges. */
  ghost predicate StepIn(edges: seq<TrustEdge>, self: Key, p: seq<Key>, i: nat)
    requires i < |p|
  {
    Linked(edges, End(self, p[..i]), p[i])
  }

  /** The longest tail of a path that the corpus alone provides. */
  lemma {:induction false} CorpusTail(corpus: seq<TrustEdge>, self: Key, p: seq<Key>, n: nat) returns (k: nat)
    requires n <= |p| && forall i :: n <= i < |p| ==> StepIn(corpus, self, p, i)
    ensures k <= |p| && (forall i :: k <= i < |p| ==> StepIn(corpus, self, p, i))
    ensures k > 0 ==> !StepIn(corpus, self, p, k - 1)
  {
    hide Linked;
    if n > 0 && StepIn(corpus, self, p, n - 1) {
      k := CorpusTail(corpus, self, p, n - 1);
    } else {
      k := n;
    }
  }

  /** The keys before and on that tail reach `t` by corpus edges. */
  lemma {:induction false} TailNear(corpus: seq<TrustEdge>, self: Key, t: Key, p: seq<Key>, k: nat, i: nat)
    requires (forall j :: k <= j < |p| ==> StepIn(corpus, self, p, j)) && End(self, p) == t
    requires k <= i + 1 && i < |p|
    ensures ReachIn(Reverse(corpus), t, p[i], |p| - 1 - i)
    decreases |p| - i
  {
    if i < |p| - 1 {
      TailNear(corpus, self, t, p, k, i + 1);
      assert StepIn(corpus, self, p, i + 1);
      assert p[..i + 1] != [] && Last(p[..i + 1]) == p[i];
      var e :| e in corpus && IsLink(e, p[i], p[i + 1]);
      assert p[i] in Succ(Reverse(corpus), p[i + 1]);
    }
  }

  /** A harmless client's best path: at most two steps come before the corpus tail,
      and of two the first is a vouched link of its own. */
  lemma HarmlessHead(own: seq<TrustEdge>, corpus: seq<TrustEdge>, self: Key, t: Key, h: nat, p: seq<Key>, k: nat)
    requires Harmless(self, own) && IsBest(own + corpus, self, t, h, p)
    requires 2 <= k <= |p| && !StepIn(corpus, self, p, k - 1)
    ensures k == 2 && Linked(own, self, p[0]) && Via(own, self, p[0]) == Vouch
  {
    hide Walk, Before, Via, Harmless, Linked;
    var all, a, b := own + corpus, p[k - 2], p[k - 1];
    BestSteps(own, corpus, self, t, h, p, k);
    if Linked(own, self, b) {
      OneStep(own, corpus, self, b);
      PrefixBest(all, self, t, h, p, k, [b]);
      BeforeLength(p[..k], [b]);
      assert false;
    }
    HarmlessAt(self, own, a, b);
    var c :| Vouched(self, own, a, b, c);
    TwoSteps(own, corpus, self, c, b);
    PrefixBest(all, self, t, h, p, k, [c, b]);
    BeforeLength(p[..k], [c, b]);
    assert p[..2] == [a, b];
    FirstOfTwo(a, c, b);
  }

  lemma HarmlessAt(self: Key, own: seq<TrustEdge>, a: Key, b: Key)
    requires Harmless(self, own) && Linked(own, a, b) && a != self && b != self && a != b && !Linked(own, self, b)
    ensures exists c :: Vouched(self, own, a, b, c)
  {
  }

  /** A step the corpus lacks is the client's own, and a best path visits no key twice. */
  lemma BestSteps(own: seq<TrustEdge>, corpus: seq<TrustEdge>, self: Key, t: Key, h: nat, p: seq<Key>, k: nat)
    requires IsBest(own + corpus, self, t, h, p) && 2 <= k <= |p| && !StepIn(corpus, self, p, k - 1)
    ensures Linked(own, p[k - 2], p[k - 1]) && p[k - 2] != self && p[k - 1] != self && p[k - 2] != p[k - 1]
    ensures End(self, p[..k]) == p[k - 1]
  {
    var all := own + corpus;
    WalkPrefix(all, self, p, k - 1);
    assert Last(p[..k - 1]) == p[k - 2] && Last(p[..k]) == p[k - 1];
    hide Walk, Before;
    assert Walk(all, self, []) by { NoSteps(all, self); }
    PrefixShortest(all, self, t, h, p, k - 1, []);
    PrefixShortest(all, self, t, h, p, k, []);
    PrefixShortest(all, self, t, h, p, k, p[..k - 1]);
  }

  lemma NoSteps(edges: seq<TrustEdge>, self: Key)
    ensures Walk(edges, self, [])
  {
  }

  lemma OneStep(own: seq<TrustEdge>, more: seq<TrustEdge>, self: Key, b: Key)
    requires Linked(own, self, b)
    ensures Walk(own + more, self, [b]) && End(self, [b]) == b
  {
    assert Init([b]) == [] && Walk(own + more, self, []);
  }

  lemma TwoSteps(own: seq<TrustEdge>, more: seq<TrustEdge>, self: Key, c: Key, b: Key)
    requires Linked(own, self, c) && Linked(own, c, b)
    ensures Walk(own + more, self, [c, b]) && End(self, [c, b]) == b
  {
    OneStep(own, more, self, c);
    assert Init([c, b]) == [c] && Last([c, b]) == b;
  }

  lemma FirstOfTwo(a: Key, c: Key, b: Key)
    requires NotAfter([a, b], [c, b]) && c <= a
    ensures a == c
  {
    assert Init([a, b]) == [a] && Init([c, b]) == [c] && Init([a]) == [] && Init([c]) == [];
    assert Last([a, b]) == b == Last([c, b]) && Last([a]) == a && Last([c]) == c && [a, b][0] == a && [c, b][0] == c;
    assert !Before([], []) && (Before([a], [c]) ==> a < c);
    assert Before([a, b], [c, b]) ==> Before([a], [c]);
  }

  /** The other edges have this step too, of the same kind. */
  ghost predicate StepKept(from: seq<TrustEdge>, to: seq<TrustEdge>, self: Key, p: seq<Key>, i: nat)
    requires i < |p|
  {
    StepIn(to, self, p, i) && Via(from, End(self, p[..i]), p[i]) == Via(to, End(self, p[..i]), p[i])
  }

  /** Equal links give an equal walk with equal hops. */
  lemma {:induction false} SameSteps(from: seq<TrustEdge>, to: seq<TrustEdge>, self: Key, p: seq<Key>, n: nat)
    requires n <= |p|
    requires forall i :: 0 <= i < n ==> StepKept(from, to, self, p, i)
    ensures Walk(to, self, p[..n]) && Hops(from, self, p[..n]) == Hops(to, self, p[..n])
  {
    hide Linked, Via;
    if n > 0 {
      SameSteps(from, to, self, p, n - 1);
      assert Init(p[..n]) == p[..n - 1] && Last(p[..n]) == p[n - 1];
      assert StepKept(from, to, self, p, n - 1);
    }
  }

  lemma OwnKept(own: seq<TrustEdge>, corpus: seq<TrustEdge>, out: seq<TrustEdge>, self: Key, p: seq<Key>)
    requires p != [] && Linked(own, self, p[0]) && Via(own, self, p[0]) == Vouch
    ensures StepKept(own + corpus, own + out, self, p, 0)
  {
    assert End(self, p[..0]) == self;
    var e :| e in own && IsLink(e, self, p[0]) && e.kind == Vouch;
    assert e in own + corpus && e in own + out;
  }

  lemma TailKept(
    own: seq<TrustEdge>, corpus: seq<TrustEdge>, out: seq<TrustEdge>, self: Key, t: Key, r: nat, h: nat, p: seq<Key>,
    k: nat, i: nat)
    requires KeepsBall(corpus, out, t, r) && h <= r && IsRoute(own + corpus, self, t, h, p)
    requires forall j :: k <= j < |p| ==> StepIn(corpus, self, p, j)
    requires i < |p| && k <= i + 1
    ensures StepKept(own + corpus, own + out, self, p, i)
  {
    WalkPrefix(own + corpus, self, p, i);
    TailNear(corpus, self, t, p, k, i);
    assert Near(corpus, t, r, p[i]);
    LinkKept(own, corpus, out, t, r, End(self, p[..i]), p[i]);
  }

  lemma BestKept(
    own: seq<TrustEdge>, corpus: seq<TrustEdge>, out: seq<TrustEdge>, self: Key, t: Key, r: nat, h: nat, p: seq<Key>)
    requires h <= r && (h <= 1 || Harmless(self, own))
    requires KeepsBall(corpus, out, t, r) && IsBest(own + corpus, self, t, h, p)
    ensures IsBest(own + out, self, t, h, p)
    ensures Hops(own + corpus, self, p) == Hops(own + out, self, p)
  {
    hide Linked, Via, Before, Walk, Harmless, Hops;
    var k := CorpusTail(corpus, self, p, |p|);
    if k >= 2 { HarmlessHead(own, corpus, self, t, h, p, k); }
    forall i | 0 <= i < |p| ensures StepKept(own + corpus, own + out, self, p, i) {
      if k <= i + 1 {
        TailKept(own, corpus, out, self, t, r, h, p, k, i);
      } else {
        OwnKept(own, corpus, out, self, p);
      }
    }
    SameSteps(own + corpus, own + out, self, p, |p|);
    assert p[..|p|] == p;
    forall w | IsRoute(own + out, self, t, h, w) ensures NotAfter(p, w) {
      WalkMono(own + out, own + corpus, self, w);
      assert IsRoute(own + corpus, self, t, h, w);
    }
  }

  /** Filtering keeps the trust path to `t`, tie-breaks and hop kinds included. */
  lemma PathKept(own: seq<TrustEdge>, corpus: seq<TrustEdge>, out: seq<TrustEdge>, self: Key, t: Key, r: nat, h: nat)
    requires h <= r && (h <= 1 || Harmless(self, own))
    requires KeepsBall(corpus, out, t, r)
    ensures BestPath(own + corpus, self, t, h) == BestPath(own + out, self, t, h)
  {
    hide Harmless, Before, Walk;
    if p :| IsBest(own + corpus, self, t, h, p) {
      BestKept(own, corpus, out, self, t, r, h, p);
      BestIs(own + corpus, self, t, h, p);
      BestIs(own + out, self, t, h, p);
    } else {
      forall p | IsBest(own + out, self, t, h, p) ensures false {
        WalkMono(own + out, own + corpus, self, p);
        BestExists(own + corpus, self, t, h, p);
      }
    }
  }

  lemma {:induction false} MatchingAll(ps: seq<Profile>, term: string)
    requires forall p :: p in ps ==> ProfileMatches(p, term)
    ensures Matching(ps, term) == ps
  {
    hide ProfileMatches;
    if ps != [] {
      var front, last := ps[..|ps| - 1], ps[|ps| - 1];
      assert ps == front + [last];
      assert last in ps && forall p :: p in front ==> p in ps;
      MatchingAll(front, term);
    }
  }

  lemma {:induction false} BallInBalls(edges: seq<TrustEdge>, ps: seq<Profile>, term: string, hops: nat)
    ensures forall p ::
              p in ps && ProfileMatches(p, term) ==> Ball(edges, p.key, hops) <= Balls(edges, ps, term, hops)
    ensures forall e :: e in Balls(edges, ps, term, hops) ==> e in edges
  {
    hide ProfileMatches, Near;
    if ps != [] {
      BallInBalls(edges, ps[..|ps| - 1], term, hops);
      assert ps == ps[..|ps| - 1] + [ps[|ps| - 1]];
    }
  }

  /** For a harmless client within the relay's bound every answer ranks as the corpus. */
  lemma AnswerRanks(
    self: Key, own: seq<TrustEdge>, corpus: seq<CollabObject>, out: seq<CollabObject>, term: string, r: nat, h: nat,
    fp: Key -> string)
    requires h <= r && (h <= 1 || Harmless(self, own))
    requires IsAnswer(corpus, out, term, r)
    ensures Ranking(self, own, out, term, h, fp) == Ranking(self, own, corpus, term, h, fp)
  {
    hide ProfileMatches, StableSort, BestPath, Ball, Balls, Matching, ProfilesOf, EdgesOf, Harmless;
    var ps := Matching(ProfilesOf(corpus), term);
    var es, os := EdgesOf(corpus), EdgesOf(out);
    MatchingElements(ProfilesOf(corpus), term);
    MatchingAll(ps, term);
    BallInBalls(es, ProfilesOf(corpus), term, r);
    forall i | 0 <= i < |ps| ensures HitFor(own + os, self, ps[i], h) == HitFor(own + es, self, ps[i], h) {
      assert ps[i] in ps;
      assert KeepsBall(es, os, ps[i].key, r);
      PathKept(own, es, os, self, ps[i].key, r, h);
    }
    assert HitsFor(own + os, self, ps, h) == HitsFor(own + es, self, ps, h);
  }

  // ----------------------------------------------------------------------
  // Needed: a corpus that tells them apart
  // ----------------------------------------------------------------------

  ghost function EdgeObjects(es: seq<TrustEdge>): seq<CollabObject> {
    if es == [] then [] else EdgeObjects(es[..|es| - 1]) + [EdgeObject(es[|es| - 1])]
  }

  lemma {:induction false} EdgeObjectsAre(es: seq<TrustEdge>)
    ensures EdgesOf(EdgeObjects(es)) == es && ProfilesOf(EdgeObjects(es)) == []
  {
    if es != [] {
      EdgeObjectsAre(es[..|es| - 1]);
      Appended(EdgeObjects(es[..|es| - 1]), EdgeObject(es[|es| - 1]));
      assert es == es[..|es| - 1] + [es[|es| - 1]];
    }
  }

  /** Some edges and one profile. */
  ghost function Around(es: seq<TrustEdge>, p: Profile): seq<CollabObject> {
    EdgeObjects(es) + [ProfileObject(p)]
  }

  lemma AroundIs(es: seq<TrustEdge>, p: Profile)
    ensures EdgesOf(Around(es, p)) == es && ProfilesOf(Around(es, p)) == [p]
  {
    EdgeObjectsAre(es);
    Appended(EdgeObjects(es), ProfileObject(p));
  }

  lemma OneMatch(es: seq<TrustEdge>, p: Profile, term: string, r: nat)
    requires ProfileMatches(p, term)
    ensures Matching([p], term) == [p] && Balls(es, [p], term, r) == Ball(es, p.key, r)
  {
    hide ProfileMatches, Ball;
    assert [p][..0] == [];
  }

  /** With one matching profile the ranking is its hit. */
  lemma RankOne(self: Key, own: seq<TrustEdge>, es: seq<TrustEdge>, p: Profile, term: string, h: nat, fp: Key -> string)
    requires ProfileMatches(p, term)
    ensures |Ranking(self, own, Around(es, p), term, h, fp)| == 1
    ensures Ranking(self, own, Around(es, p), term, h, fp)[0].trustPath == BestPath(own + es, self, p.key, h)
  {
    hide BestPath, RankLe, Matching, ProfilesOf, EdgesOf, Around, ProfileMatches;
    AroundIs(es, p);
    OneMatch(es, p, term, 0);
    var hits := HitsFor(own + es, self, [p], h);
    assert hits[..0] == [] && StableSort(hits, fp) == [hits[0]];
  }

  /** Two different best paths to one profile are enough to tell them apart. */
  lemma Parted(
    self: Key, own: seq<TrustEdge>, es: seq<TrustEdge>, os: seq<TrustEdge>, p: Profile, term: string, r: nat, h: nat,
    fp: Key -> string)
    requires ProfileMatches(p, term) && forall e :: e in os <==> e in Ball(es, p.key, r)
    requires BestPath(own + es, self, p.key, h) != BestPath(own + os, self, p.key, h)
    ensures !Transparent(self, own, term, r, h, fp)
  {
    hide BestPath, Ranking, Matching, Around, ProfileMatches, Balls, Ball, ProfilesOf, EdgesOf;
    AroundIs(es, p);
    AroundIs(os, p);
    OneMatch(es, p, term, r);
    RankOne(self, own, es, p, term, h, fp);
    RankOne(self, own, os, p, term, h, fp);
    assert IsAnswer(Around(es, p), Around(os, p), term, r);
  }

  /** A profile under this key that the term finds. */
  function ProfileFor(key: Key, term: string): Profile {
    Profile(key, term, "", [], [], 0, [])
  }

  lemma ProfileForMatches(key: Key, term: string)
    ensures ProfileMatches(ProfileFor(key, term), term)
  {
    assert term <= term[0..];
    assert Contains(term, term);
  }

  // A link that is not harmless

  function Edge(from: Key, to: Key, kind: TrustKind): TrustEdge {
    TrustEdge(from, to, kind, None, 0, [])
  }

  /** A key the client may reach `b` through, no later than through `a`. */
  ghost predicate Between(self: Key, own: seq<TrustEdge>, a: Key, b: Key, x: Key) {
    x <= a && (x == a || Linked(own, self, x)) && Linked(own, x, b)
  }

  lemma {:induction false} LeastBetween(self: Key, own: seq<TrustEdge>, a: Key, b: Key, x: Key) returns (c: Key)
    requires Between(self, own, a, b, x)
    ensures Between(self, own, a, b, c) && forall y :: Between(self, own, a, b, y) ==> c <= y
    decreases x
  {
    hide Linked;
    if y: Key :| Between(self, own, a, b, y) && y < x {
      c := LeastBetween(self, own, a, b, y);
    } else {
      c := x;
    }
  }

  lemma LinkedMore(own: seq<TrustEdge>, e: TrustEdge, x: Key, y: Key)
    ensures Linked(own + [e], x, y) <==> Linked(own, x, y) || IsLink(e, x, y)
    ensures IsLink(e, x, y) && e.kind == Vouch ==> Via(own + [e], x, y) == Vouch
  {
    assert e in own + [e];
  }

  /** The vouched edge to `c` puts it first on the best path to `b`. */
  lemma BestThrough(self: Key, own: seq<TrustEdge>, a: Key, b: Key, c: Key, h: nat)
    requires h >= 2 && !Linked(own, self, b) && b != self && a != b
    requires Between(self, own, a, b, c) && forall y :: Between(self, own, a, b, y) ==> c <= y
    ensures IsBest(own + [Edge(self, c, Vouch)], self, b, h, [c, b])
    ensures Via(own + [Edge(self, c, Vouch)], self, c) == Vouch
  {
    hide Linked, Via;
    var e := Edge(self, c, Vouch);
    var all := own + [e];
    forall x, y ensures Linked(all, x, y) <==> Linked(own, x, y) || (x == self && y == c) { LinkedMore(own, e, x, y); }
    LinkedMore(own, e, self, c);
    assert Init([c, b]) == [c] && Init([c]) == [] && Walk(all, self, []) && Walk(all, self, [c]);
    assert IsRoute(all, self, b, h, [c, b]);
    forall w | IsRoute(all, self, b, h, w) ensures NotAfter([c, b], w) {
      assert |w| != 0 && Last(w) == b;
      if |w| == 1 {
        assert false;
      } else if |w| == 2 {
        var x := w[0];
        assert Init(w) == [x] && Init([x]) == [] && w == [x, b];
        assert Walk(all, self, [x]) && Linked(all, End(self, [x]), b) && Linked(all, self, x);
        assert x == c || Linked(own, self, x);
        assert x <= a && x != c ==> Between(self, own, a, b, x);
        assert c <= x;
        if c < x { BeforeExtend([c], [x], b, b) by { BeforeExtend([], [], c, x); assert [] + [c] == [c] &&
            [] + [x] == [x]; } }
      }
    }
  }

  /** The relay drops that edge: nothing in the corpus leads on from `c` to `b`. */
  lemma NotNear(self: Key, c: Key, b: Key, r: nat)
    requires c != b
    ensures Ball([Edge(self, c, Vouch)], b, r) == {}
  {
    var es := [Edge(self, c, Vouch)];
    assert Succ(Reverse(es), b) == {};
    forall n: Key | Near(es, b, r, n) ensures n == b {
      var d: nat :| d < r && ReachIn(Reverse(es), b, n, d);
      if d > 0 {
        var m := ReachInHead(Reverse(es), b, n, d);
        assert false;
      }
    }
  }

  /** A foreign link with no vouched way around it: some corpus tells the answer apart. */
  lemma OwnEdgesMatter(self: Key, own: seq<TrustEdge>, term: string, r: nat, h: nat, fp: Key -> string, a: Key, b: Key)
    requires h >= 2
    requires Linked(own, a, b) && a != self && b != self && a != b
    requires !Linked(own, self, b) && forall c :: !Vouched(self, own, a, b, c)
    ensures !Transparent(self, own, term, r, h, fp)
  {
    hide Linked, Transparent, BestPath, Via, Ball, Hops, IsBest, Vouched, ProfileMatches;
    var c := LeastBetween(self, own, a, b, a);
    var p, es := ProfileFor(b, term), [Edge(self, c, Vouch)];
    ProfileForMatches(b, term);
    assert c != b;
    BestThrough(self, own, a, b, c, h);
    BestIs(own + es, self, b, h, [c, b]);
    HopsOfTwo(own + es, self, [c, b]);
    NotNear(self, c, b, r);
    assert own + [] == own;
    assert BestPath(own, self, b, h) != BestPath(own + es, self, b, h) by {
      if BestPath(own, self, b, h) == BestPath(own + es, self, b, h) {
        var q := FoundPath(own, self, b, h);
        HopsOfTwo(own, self, q);
        VouchedAlready(self, own, a, b, c, h, q);
        assert false;
      }
    }
    Parted(self, own, es, [], p, term, r, h, fp);
  }

  lemma HopsOfTwo(edges: seq<TrustEdge>, self: Key, q: seq<Key>)
    ensures |Hops(edges, self, q)| == |q|
    ensures |q| == 2 ==>
              Hops(edges, self, q) == [TrustHop(q[0], Via(edges, self, q[0])), TrustHop(q[1], Via(edges, q[0], q[1]))]
  {
    hide Via;
    if |q| == 2 {
      assert Init(q) == [q[0]] && Init([q[0]]) == [] && Last(q) == q[1];
      assert Hops(edges, self, [q[0]]) == Hops(edges, self, []) + [TrustHop(q[0], Via(edges, self, q[0]))];
    }
  }

  lemma FoundPath(edges: seq<TrustEdge>, self: Key, t: Key, h: nat) returns (q: seq<Key>)
    requires BestPath(edges, self, t, h).Some?
    ensures IsBest(edges, self, t, h, q) && BestPath(edges, self, t, h) == Some(Hops(edges, self, q))
  {
    hide IsBest, Hops;
    q :| IsBest(edges, self, t, h, q);
    BestIs(edges, self, t, h, q);
  }

  lemma VouchedAlready(self: Key, own: seq<TrustEdge>, a: Key, b: Key, c: Key, h: nat, q: seq<Key>)
    requires IsBest(own, self, b, h, q) && |q| == 2 && q[0] == c <= a && Via(own, self, c) == Vouch
    ensures Vouched(self, own, a, b, c)
  {
    hide Linked, Via;
    assert Init(q) == [c] && Init([c]) == [] && Last(q) == b;
    assert Walk(own, self, [c]) && Linked(own, End(self, []), c);
  }

  // ----------------------------------------------------------------------
  // Needed: a relay that looks as far as the client
  // ----------------------------------------------------------------------

  /** A chain from the client along keys nobody else has. */
  function Link(self: Key, k: nat, i: nat): Key {
    if i == 0 then self else k + i
  }

  ghost function ChainEdges(self: Key, k: nat, n: nat): seq<TrustEdge> {
    if n == 0 then [] else ChainEdges(self, k, n - 1) + [Edge(Link(self, k, n - 1), Link(self, k, n), Follow)]
  }

  lemma {:induction false} ChainElements(self: Key, k: nat, n: nat)
    ensures forall e :: e in ChainEdges(self, k, n) <==>
              exists i :: 0 < i <= n && e == Edge(Link(self, k, i - 1), Link(self, k, i), Follow)
  {
    if n > 0 {
      ChainElements(self, k, n - 1);
      hide Link;
      var last := Edge(Link(self, k, n - 1), Link(self, k, n), Follow);
      forall e ensures e in ChainEdges(self, k, n) <==>
        exists i :: 0 < i <= n && e == Edge(Link(self, k, i - 1), Link(self, k, i), Follow)
      {
        assert e in ChainEdges(self, k, n) <==> e in ChainEdges(self, k, n - 1) || e == last;
      }
    }
  }

  function ChainKeys(k: nat, n: nat): (p: seq<Key>)
    ensures |p| == n
  {
    seq(n, i requires 0 <= i < n => k + i + 1)
  }

  lemma {:induction false} ChainWalk(edges: seq<TrustEdge>, self: Key, k: nat, n: nat)
    requires forall i :: 0 < i <= n ==> Edge(Link(self, k, i - 1), Link(self, k, i), Follow) in edges
    ensures Walk(edges, self, ChainKeys(k, n)) && End(self, ChainKeys(k, n)) == Link(self, k, n)
  {
    if n > 0 {
      ChainWalk(edges, self, k, n - 1);
      var p := ChainKeys(k, n);
      assert Init(p) == ChainKeys(k, n - 1) && Last(p) == k + n;
      assert IsLink(Edge(Link(self, k, n - 1), Link(self, k, n), Follow), Link(self, k, n - 1), k + n);
    }
  }

  lemma ChainStep(self: Key, k: nat, n: nat, m: Key, x: Key)
    requires self <= k && k + 1 < m && x in Succ(Reverse(ChainEdges(self, k, n)), m)
    ensures x == m - 1
  {
    hide ChainEdges;
    var es := ChainEdges(self, k, n);
    ChainElements(self, k, n);
    var e :| e in es && e.to == m && e.from == x;
  }

  /** Going back from its end stays on the chain. */
  lemma {:induction false} ChainBack(self: Key, k: nat, n: nat, t: Key, x: Key, d: nat)
    requires self <= k && d < n && t == k + n && ReachIn(Reverse(ChainEdges(self, k, n)), t, x, d)
    ensures x == k + n - d
    decreases d
  {
    hide ChainEdges, Succ, Reverse;
    if d > 0 {
      var g := Reverse(ChainEdges(self, k, n));
      var m :| ReachIn(g, t, m, d - 1) && x in Succ(g, m);
      ChainBack(self, k, n, t, m, d - 1);
      ChainStep(self, k, n, m, x);
    }
  }

  /** What the relay keeps of the chain does not start at the client. */
  lemma ChainBall(self: Key, k: nat, r: nat, h: nat, e: TrustEdge)
    requires self <= k && r < h && e in Ball(ChainEdges(self, k, h), k + h, r)
    ensures e.from > k
  {
    hide ChainEdges;
    var es := ChainEdges(self, k, h);
    var t: Key := k + h;
    assert Near(es, t, r, e.to);
    var d: nat :| d < r && ReachIn(Reverse(es), t, e.to, d);
    ChainBack(self, k, h, t, e.to, d);
    ChainElements(self, k, h);
  }

  lemma {:induction false} StaysBelow(edges: seq<TrustEdge>, self: Key, k: nat, w: seq<Key>)
    requires self <= k && Walk(edges, self, w)
    requires forall e :: e in edges && e.from <= k ==> e.to <= k
    ensures End(self, w) <= k
    decreases |w|
  {
    if w != [] {
      StaysBelow(edges, self, k, Init(w));
      var e :| e in edges && IsLink(e, End(self, Init(w)), Last(w));
    }
  }

  lemma {:induction false} ListOf(s: set<TrustEdge>) returns (l: seq<TrustEdge>)
    ensures forall e :: e in l <==> e in s
  {
    if s == {} {
      l := [];
    } else {
      var e :| e in s;
      l := ListOf(s - {e});
      l := l + [e];
    }
  }

  /** A client that looks further than the relay does: a long chain tells them apart. */
  lemma ShortSighted(self: Key, own: seq<TrustEdge>, term: string, r: nat, h: nat, fp: Key -> string)
    requires r < h
    ensures !Transparent(self, own, term, r, h, fp)
  {
    hide Transparent, BestPath, ChainEdges, Ball, Walk, ProfileMatches, IsBest, Above;
    var k := Above(own, self);
    var p, es := ProfileFor(k + h, term), ChainEdges(self, k, h);
    ProfileForMatches(k + h, term);
    var os := ListOf(Ball(es, k + h, r));
    ChainFound(self, own, k, h);
    ChainLost(self, own, os, k, r, h);
    Parted(self, own, es, os, p, term, r, h, fp);
  }

  lemma ChainFound(self: Key, own: seq<TrustEdge>, k: nat, h: nat)
    requires h > 0
    ensures BestPath(own + ChainEdges(self, k, h), self, k + h, h).Some?
  {
    hide ChainEdges, Walk, IsBest;
    var all := own + ChainEdges(self, k, h);
    ChainElements(self, k, h);
    forall i | 0 < i <= h ensures Edge(Link(self, k, i - 1), Link(self, k, i), Follow) in all {
      assert Edge(Link(self, k, i - 1), Link(self, k, i), Follow) in ChainEdges(self, k, h);
    }
    ChainWalk(all, self, k, h);
    assert IsRoute(all, self, k + h, h, ChainKeys(k, h));
    BestExists(all, self, k + h, h, ChainKeys(k, h));
  }

  lemma ChainLost(self: Key, own: seq<TrustEdge>, os: seq<TrustEdge>, k: nat, r: nat, h: nat)
    requires r < h && self <= k && forall e :: e in own ==> e.to <= k
    requires forall e :: e in os <==> e in Ball(ChainEdges(self, k, h), k + h, r)
    ensures BestPath(own + os, self, k + h, h) == None
  {
    hide ChainEdges, Ball, Walk;
    forall e | e in os ensures e.from > k { ChainBall(self, k, r, h, e); }
    var t := k + h;
    forall w ensures !IsRoute(own + os, self, t, h, w) {
      if IsRoute(own + os, self, t, h, w) { StaysBelow(own + os, self, k, w); }
    }
  }

  // ----------------------------------------------------------------------
  // The exact condition
  // ----------------------------------------------------------------------

  /** The relay's filter is invisible to the client, for every corpus, if and only if
      the relay looks as far as the client and, beyond one hop, no link the client
      holds of somebody else needs the corpus to be reached first. */
  lemma RelayTransparent(self: Key, own: seq<TrustEdge>, term: string, r: nat, h: nat, fp: Key -> string)
    ensures Transparent(self, own, term, r, h, fp) <==> h <= r && (h <= 1 || Harmless(self, own))
  {
    hide Linked, Via, Ranking, IsAnswer, Vouched;
    if h > r {
      ShortSighted(self, own, term, r, h, fp);
    } else if h <= 1 || Harmless(self, own) {
      hide Harmless;
      forall corpus, out | IsAnswer(corpus, out, term, r)
        ensures Ranking(self, own, out, term, h, fp) == Ranking(self, own, corpus, term, h, fp)
      {
        AnswerRanks(self, own, corpus, out, term, r, h, fp);
      }
    } else {
      var a, b :| Linked(own, a, b) && a != self && b != self && a != b &&
        !(Linked(own, self, b) || exists c :: Vouched(self, own, a, b, c));
      OwnEdgesMatter(self, own, term, r, h, fp, a, b);
    }
  }

  /** A client whose own edges all start at itself is harmless. */
  lemma OwnAreHarmless(self: Key, own: seq<TrustEdge>)
    requires forall e :: e in own ==> e.from == self
    ensures Harmless(self, own)
  {
  }

  datatype SearchError = TermTooShort

  /** The relay's side: short terms refused, the bound clamped, the corpus filtered. */
  method AnswerSearch(corpus: seq<CollabObject>, term: string, max: nat)
    returns (r: Result<seq<CollabObject>, SearchError>)
    ensures r.Err? <==> |term| < MIN_SEARCH_TERM_LEN
    ensures r.Ok? ==> IsAnswer(corpus, r.value, term, if max < MAX_SEARCH_HOPS then max else MAX_SEARCH_HOPS)
  {
    if |term| < MIN_SEARCH_TERM_LEN { return Err(TermTooShort); }
    var hops := if max < MAX_SEARCH_HOPS then max else MAX_SEARCH_HOPS;
    var out := SearchBall(corpus, term, hops);
    r := Ok(out);
  }

  /** The whole round: the relay filters, the client ranks what it received. */
  method RelayedSearch(
    self: Key, own: seq<TrustEdge>, corpus: seq<CollabObject>, term: string, max: nat, fp: Key -> string)
    returns (r: Result<seq<StrangerHit>, SearchError>)
    requires max <= 255
    ensures r.Err? <==> |term| < MIN_SEARCH_TERM_LEN
    ensures r.Ok? && max <= MAX_SEARCH_HOPS && (max <= 1 || Harmless(self, own)) ==>
              r.value == Ranking(self, own, corpus, term, max, fp)
  {
    hide Ranking, Harmless, IsAnswer;
    var out := AnswerSearch(corpus, term, max);
    if out.Err? { return Err(out.error); }
    var hits := RankStrangers(self, own, out.value, term, max, fp);
    if max <= MAX_SEARCH_HOPS && (max <= 1 || Harmless(self, own)) {
      AnswerRanks(self, own, corpus, out.value, term, max, max, fp);
    }
    r := Ok(hits);
  }
}
