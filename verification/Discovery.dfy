/** Client-side ranking of strangers. */
module Discovery {
  import opened Wrappers
  import opened Collab
  import opened Trust
  import opened Search

  datatype StrangerHit = StrangerHit(
    key: Key, displayName: string, trustPath: Option<seq<TrustHop>>, hops: Option<nat>, relays: seq<Key>)

  // ----------------------------------------------------------------------
  // Ranking order
  // ----------------------------------------------------------------------

  predicate HasVouch(path: Option<seq<TrustHop>>) {
    path.Some? && exists i :: 0 <= i < |path.value| && path.value[i].via == Vouch
  }

  const USIZE_MAX: nat := 0xFFFF_FFFF_FFFF_FFFF

  function Bit(b: bool): nat {
    if b then 1 else 0
  }

  /** Connected first, then fewer hops, then a vouch on the path. */
  function Weight(h: StrangerHit): (nat, nat, nat) {
    (1 - Bit(h.trustPath.Some?), if h.hops.Some? then h.hops.value else USIZE_MAX, 1 - Bit(HasVouch(h.trustPath)))
  }

  predicate WeightLt(a: (nat, nat, nat), b: (nat, nat, nat)) {
    a.0 < b.0 || (a.0 == b.0 && (a.1 < b.1 || (a.1 == b.1 && a.2 < b.2)))
  }

  /** `a` may stand before `b`: by weight, then display name, then key fingerprint. */
  predicate RankLe(a: StrangerHit, b: StrangerHit, fp: Key -> string) {
    var wa, wb := Weight(a), Weight(b);
    || WeightLt(wa, wb)
    || (wa == wb && a.displayName != b.displayName && StringLe(a.displayName, b.displayName))
    || (wa == wb && a.displayName == b.displayName && StringLe(fp(a.key), fp(b.key)))
  }

  predicate Tied(a: StrangerHit, b: StrangerHit, fp: Key -> string) {
    RankLe(a, b, fp) && RankLe(b, a, fp)
  }

  lemma RankTotal(a: StrangerHit, b: StrangerHit, fp: Key -> string)
    ensures RankLe(a, b, fp) || RankLe(b, a, fp)
  {
    StringLeTotal(a.displayName, b.displayName);
    StringLeTotal(fp(a.key), fp(b.key));
  }

  lemma RankTrans(a: StrangerHit, b: StrangerHit, c: StrangerHit, fp: Key -> string)
    requires RankLe(a, b, fp) && RankLe(b, c, fp)
    ensures RankLe(a, c, fp)
  {
    var wa, wb, wc := Weight(a), Weight(b), Weight(c);
    if wa == wb == wc {
      if a.displayName == b.displayName == c.displayName {
        StringLeTrans(fp(a.key), fp(b.key), fp(c.key));
      } else {
        StringLeTotal(a.displayName, b.displayName);
        StringLeTotal(b.displayName, c.displayName);
        if StringLe(a.displayName, b.displayName) && StringLe(b.displayName, c.displayName) {
          StringLeTrans(a.displayName, b.displayName, c.displayName);
        }
      }
    }
  }

  // ----------------------------------------------------------------------
  // Stable sort
  // ----------------------------------------------------------------------

  /** Places `h` after everything it does not precede. */
  function Insert(s: seq<StrangerHit>, h: StrangerHit, fp: Key -> string): seq<StrangerHit> {
    if s == [] || RankLe(s[|s| - 1], h, fp) then s + [h]
    else Insert(s[..|s| - 1], h, fp) + [s[|s| - 1]]
  }

  function StableSort(s: seq<StrangerHit>, fp: Key -> string): seq<StrangerHit> {
    if s == [] then [] else Insert(StableSort(s[..|s| - 1], fp), s[|s| - 1], fp)
  }

  ghost predicate Ranked(s: seq<StrangerHit>, fp: Key -> string) {
    forall i, j :: 0 <= i < j < |s| ==> RankLe(s[i], s[j], fp)
  }

  /** The hits tied with `x`, in order. */
  function TiedWith(s: seq<StrangerHit>, x: StrangerHit, fp: Key -> string): seq<StrangerHit> {
    if s == [] then [] else TiedWith(s[..|s| - 1], x, fp) + if Tied(s[|s| - 1], x, fp) then [s[|s| - 1]] else []
  }

  lemma {:induction false} InsertRanked(s: seq<StrangerHit>, h: StrangerHit, fp: Key -> string)
    requires Ranked(s, fp)
    ensures Ranked(Insert(s, h, fp), fp)
    ensures multiset(Insert(s, h, fp)) == multiset(s) + multiset{h}
  {
    hide RankLe;
    if s == [] {
    } else if RankLe(s[|s| - 1], h, fp) {
      forall i | 0 <= i < |s| ensures RankLe(s[i], h, fp) {
        if i < |s| - 1 { RankTrans(s[i], s[|s| - 1], h, fp); }
      }
    } else {
      var t, z := s[..|s| - 1], s[|s| - 1];
      InsertRanked(t, h, fp);
      RankTotal(z, h, fp);
      var r := Insert(t, h, fp);
      assert s == t + [z];
      forall i | 0 <= i < |r| ensures RankLe(r[i], z, fp) {
        assert r[i] in multiset(r);
        assert r[i] in t || r[i] == h;
      }
    }
  }

  lemma {:induction false} InsertStable(s: seq<StrangerHit>, h: StrangerHit, x: StrangerHit, fp: Key -> string)
    ensures TiedWith(Insert(s, h, fp), x, fp) == TiedWith(s, x, fp) + if Tied(h, x, fp) then [h] else []
  {
    hide RankLe;
    if s == [] || RankLe(s[|s| - 1], h, fp) {
      assert (s + [h])[..|s|] == s;
    } else {
      var t, z := s[..|s| - 1], s[|s| - 1];
      InsertStable(t, h, x, fp);
      var r := Insert(t, h, fp);
      assert (r + [z])[..|r|] == r;
      if Tied(z, x, fp) && Tied(h, x, fp) { RankTrans(z, x, h, fp); }
    }
  }

  lemma NoneRanked(fp: Key -> string)
    ensures Ranked([], fp)
  {
  }

  /** The sort ranks, loses nothing, and keeps tied hits in their given order. */
  lemma {:induction false} SortCorrect(s: seq<StrangerHit>, fp: Key -> string)
    ensures Ranked(StableSort(s, fp), fp)
    ensures multiset(StableSort(s, fp)) == multiset(s)
    ensures forall x :: TiedWith(StableSort(s, fp), x, fp) == TiedWith(s, x, fp)
  {
    hide RankLe, Insert, Tied, Ranked;
    if s == [] {
      NoneRanked(fp);
    } else {
      var t, z := s[..|s| - 1], s[|s| - 1];
      SortCorrect(t, fp);
      InsertRanked(StableSort(t, fp), z, fp);
      assert s == t + [z];
      forall x ensures TiedWith(StableSort(s, fp), x, fp) == TiedWith(s, x, fp) {
        InsertStable(StableSort(t, fp), z, x, fp);
      }
    }
  }

  // ----------------------------------------------------------------------
  // Ranking
  // ----------------------------------------------------------------------

  ghost function HitFor(edges: seq<TrustEdge>, self: Key, p: Profile, max: nat): StrangerHit {
    var path := BestPath(edges, self, p.key, max);
    StrangerHit(p.key, p.displayName, path, if path.Some? then Some(|path.value|) else None, [])
  }

  ghost function HitsFor(edges: seq<TrustEdge>, self: Key, ps: seq<Profile>, max: nat): seq<StrangerHit> {
    seq(|ps|, i requires 0 <= i < |ps| => HitFor(edges, self, ps[i], max))
  }

  /** The ranked answer over a corpus. */
  ghost function Ranking(
    self: Key, own: seq<TrustEdge>, corpus: seq<CollabObject>, term: string, max: nat, fp: Key -> string)
    : seq<StrangerHit>
  {
    StableSort(HitsFor(own + EdgesOf(corpus), self, Matching(ProfilesOf(corpus), term), max), fp)
  }

  /** Ranks every matching profile. Of two hits the earlier is connected if the later
      is, over no more hops, with a vouch if the later has one at that length; then
      names decide, then fingerprints. */
  method RankStrangers(
    self: Key, own: seq<TrustEdge>, corpus: seq<CollabObject>, term: string, max: nat, fp: Key -> string)
    returns (hits: seq<StrangerHit>)
    requires max <= 255
    ensures hits == Ranking(self, own, corpus, term, max, fp)
    ensures forall i, j :: 0 <= i < j < |hits| ==> Precedes(hits[i], hits[j], fp)
    ensures |hits| == |Matching(ProfilesOf(corpus), term)|
    ensures forall h :: h in hits ==>
              exists p :: ProfileObject(p) in corpus && ProfileMatches(p, term) && IsHit(own, corpus, self, max, p, h)
    ensures forall p :: ProfileObject(p) in corpus && ProfileMatches(p, term) ==>
              exists h :: h in hits && IsHit(own, corpus, self, max, p, h)
  {
    hide *;
    var edges := own + EdgesOf(corpus);
    hits := CollectHits(edges, self, ProfilesOf(corpus), term, max);
    RankingIs(self, own, corpus, term, max, fp);
    HitsCount(hits, edges, self, Matching(ProfilesOf(corpus), term), max);
    HitsAre(self, own, corpus, term, max, hits);
    SortedHits(hits, fp);
    hits := StableSort(hits, fp);
  }

  lemma RankingIs(
    self: Key, own: seq<TrustEdge>, corpus: seq<CollabObject>, term: string, max: nat, fp: Key -> string)
    ensures Ranking(self, own, corpus, term, max, fp) ==
            StableSort(HitsFor(own + EdgesOf(corpus), self, Matching(ProfilesOf(corpus), term), max), fp)
  {
  }

  /** The hits before they are ranked, in corpus order. */
  method CollectHits(edges: seq<TrustEdge>, self: Key, profiles: seq<Profile>, term: string, max: nat)
    returns (hits: seq<StrangerHit>)
    requires max <= 255
    ensures hits == HitsFor(edges, self, Matching(profiles, term), max)
  {
    hide BestPath, ProfileMatches;
    hits := [];
    for j := 0 to |profiles|
      invariant hits == HitsFor(edges, self, Matching(profiles[..j], term), max)
    {
      var p := profiles[j];
      assert profiles[..j + 1][..j] == profiles[..j];
      if ProfileMatches(p, term) {
        var path := TrustPath(edges, self, p.key, max);
        hits := hits + [StrangerHit(p.key, p.displayName, path, if path.Some? then Some(|path.value|) else None, [])];
      }
    }
    assert profiles[..|profiles|] == profiles;
  }

  ghost predicate VouchOn(path: seq<TrustHop>) {
    exists k :: 0 <= k < |path| && path[k].via == Vouch
  }

  /** What it means that one hit stands before another. */
  ghost predicate Precedes(a: StrangerHit, b: StrangerHit, fp: Key -> string) {
    match (a.trustPath, b.trustPath)
    case (Some(p), None) => true
    case (None, Some(q)) => false
    case (None, None) => NameFirst(a, b, fp)
    case (Some(p), Some(q)) =>
      || |p| < |q|
      || (|p| == |q| && VouchOn(p) && !VouchOn(q))
      || (|p| == |q| && (VouchOn(p) <==> VouchOn(q)) && NameFirst(a, b, fp))
  }

  ghost predicate NameFirst(a: StrangerHit, b: StrangerHit, fp: Key -> string) {
    && StringLe(a.displayName, b.displayName)
    && (a.displayName == b.displayName ==> StringLe(fp(a.key), fp(b.key)))
  }

  /** The hit stands for this profile, with the best path to it over the client's own
      edges and the corpus's. */
  ghost predicate IsHit(
    own: seq<TrustEdge>, corpus: seq<CollabObject>, self: Key, max: nat, p: Profile, h: StrangerHit)
  {
    && h.key == p.key && h.displayName == p.displayName && h.relays == []
    && h.trustPath == BestPath(own + EdgesOf(corpus), self, p.key, max)
    && h.hops == if h.trustPath.Some? then Some(|h.trustPath.value|) else None
  }

  ghost predicate HopsCount(h: StrangerHit) {
    h.hops == if h.trustPath.Some? then Some(|h.trustPath.value|) else None
  }

  lemma RankMeans(a: StrangerHit, b: StrangerHit, fp: Key -> string)
    requires RankLe(a, b, fp) && HopsCount(a) && HopsCount(b)
    ensures Precedes(a, b, fp)
  {
    StringLeTotal(a.displayName, b.displayName);
    assert a.trustPath.Some? ==> (HasVouch(a.trustPath) <==> VouchOn(a.trustPath.value));
    assert b.trustPath.Some? ==> (HasVouch(b.trustPath) <==> VouchOn(b.trustPath.value));
    hide StringLe, HasVouch, VouchOn;
  }

  lemma HitsCount(hits: seq<StrangerHit>, edges: seq<TrustEdge>, self: Key, ps: seq<Profile>, max: nat)
    requires hits == HitsFor(edges, self, ps, max)
    ensures |hits| == |ps| && forall h :: h in hits ==> HopsCount(h)
  {
    hide BestPath;
  }

  /** Sorting keeps the hits and puts them in this order. */
  lemma SortedHits(hits: seq<StrangerHit>, fp: Key -> string)
    requires forall h :: h in hits ==> HopsCount(h)
    ensures var s := StableSort(hits, fp);
            && |s| == |hits| && (forall h :: h in s <==> h in hits)
            && forall i, j :: 0 <= i < j < |s| ==> Precedes(s[i], s[j], fp)
  {
    hide StableSort, HopsCount, RankLe, Precedes;
    var s := StableSort(hits, fp);
    SortCorrect(hits, fp);
    SameElements(s, hits);
    forall i, j | 0 <= i < j < |s| ensures Precedes(s[i], s[j], fp) {
      assert s[i] in s && s[j] in s;
      RankMeans(s[i], s[j], fp);
    }
  }

  lemma SameElements(a: seq<StrangerHit>, b: seq<StrangerHit>)
    requires multiset(a) == multiset(b)
    ensures |a| == |b| && forall h :: h in a <==> h in b
  {
    assert |multiset(a)| == |a| && |multiset(b)| == |b|;
    assert forall h :: h in a <==> h in multiset(a);
    assert forall h :: h in b <==> h in multiset(b);
  }

  lemma HitsAre(
    self: Key, own: seq<TrustEdge>, corpus: seq<CollabObject>, term: string, max: nat, hits: seq<StrangerHit>)
    requires hits == HitsFor(own + EdgesOf(corpus), self, Matching(ProfilesOf(corpus), term), max)
    ensures forall h :: h in hits ==>
              exists p :: ProfileObject(p) in corpus && ProfileMatches(p, term) && IsHit(own, corpus, self, max, p, h)
    ensures forall p :: ProfileObject(p) in corpus && ProfileMatches(p, term) ==>
              exists h :: h in hits && IsHit(own, corpus, self, max, p, h)
  {
    hide BestPath, ProfileMatches, EdgesOf, ProfilesOf, Matching;
    var ps := Matching(ProfilesOf(corpus), term);
    MatchingElements(ProfilesOf(corpus), term);
    PartsOf(corpus);
    forall h | h in hits
      ensures exists p :: ProfileObject(p) in corpus && ProfileMatches(p, term) && IsHit(own, corpus, self, max, p, h)
    {
      var i :| 0 <= i < |hits| && hits[i] == h;
      assert ps[i] in ps && IsHit(own, corpus, self, max, ps[i], h);
    }
    forall p | ProfileObject(p) in corpus && ProfileMatches(p, term)
      ensures exists h :: h in hits && IsHit(own, corpus, self, max, p, h)
    {
      assert p in ps;
      var i :| 0 <= i < |ps| && ps[i] == p;
      assert hits[i] in hits && IsHit(own, corpus, self, max, p, hits[i]);
    }
  }

  lemma {:induction false} MatchingElements(ps: seq<Profile>, term: string)
    ensures forall p :: p in Matching(ps, term) <==> p in ps && ProfileMatches(p, term)
  {
    hide ProfileMatches;
    if ps != [] {
      MatchingElements(ps[..|ps| - 1], term);
      assert ps == ps[..|ps| - 1] + [ps[|ps| - 1]];
    }
  }
}
