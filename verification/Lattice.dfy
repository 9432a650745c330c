/** Confidentiality labels ordered by a finite lattice given by its cover edges. */
module Lattice {
  import opened Wrappers
  import opened Reach

  type Label = string

  const PUBLIC: Label := "public"
  const PROTECTED: Label := "protected"

  /** `cover` holds pairs (lower, higher). */
  datatype LabelLattice = LabelLattice(labels: set<Label>, cover: set<(Label, Label)>)

  function TwoPoint(): LabelLattice {
    LabelLattice({PUBLIC, PROTECTED}, {(PUBLIC, PROTECTED)})
  }

  ghost function Higher(l: LabelLattice, lo: Label): set<Label> {
    set e | e in l.cover && e.0 == lo :: e.1
  }

  ghost function CoverGraph(l: LabelLattice): Graph<Label> {
    map lo | lo in (set e | e in l.cover :: e.0) :: Higher(l, lo)
  }

  /** `a` is at least as restrictive as `b`: the reflexive-transitive closure of the cover. */
  ghost predicate Above(l: LabelLattice, a: Label, b: Label) {
    Reaches(CoverGraph(l), b, a)
  }

  lemma CoverSucc(l: LabelLattice, lo: Label)
    ensures forall hi :: hi in Succ(CoverGraph(l), lo) <==> (lo, hi) in l.cover
  {
  }

  /** The stack-and-seen search over the cover edges. */
  method Dominates(l: LabelLattice, a: Label, b: Label) returns (r: bool)
    ensures r <==> Above(l, a, b)
  {
    hide *;
    ghost var g := CoverGraph(l);
    AboveIs(l, a, b);
    if a == b {
      ReachRefl(g, a);
      return true;
    }
    var stack := [b];
    var seen: set<Label> := {};
    HuntInit(g, b, a);
    while stack != []
      invariant HuntInv(g, b, a, seen, stack, {})
      decreases Universe(g, {b}) - seen, |stack|
    {
      var cur := stack[|stack| - 1];
      HuntPop(g, b, a, seen, stack);
      stack := stack[..|stack| - 1];
      CoverSucc(l, cur);
      var todo := l.cover;
      ghost var seen0, stack0 := seen, stack;
      while todo != {}
        invariant HuntInv(g, b, a, seen, stack, {cur}) && todo <= l.cover
        invariant seen0 <= seen && forall e :: e in l.cover && e !in todo && e.0 == cur ==> e.1 in seen
        invariant seen - seen0 <= Universe(g, {b}) && (seen == seen0 ==> stack == stack0)
        decreases todo
      {
        var e :| e in todo;
        todo := todo - {e};
        if e.0 == cur {
          HuntSee(g, b, a, seen, stack, cur, e.1);
          if e.1 == a { return true; }
          if e.1 !in seen {
            seen := seen + {e.1};
            stack := stack + [e.1];
          }
        }
      }
      HuntNext(g, b, a, seen, stack, cur);
    }
    HuntDone(g, b, a, seen);
    r := false;
  }

  lemma AboveIs(l: LabelLattice, a: Label, b: Label)
    ensures Above(l, a, b) <==> Reaches(CoverGraph(l), b, a)
  {
  }

  /** A chain of cover edges, each from lower to higher. */
  ghost predicate Rises(l: LabelLattice, chain: seq<Label>) {
    forall i :: 0 <= i < |chain| - 1 ==> (chain[i], chain[i + 1]) in l.cover
  }

  /** One label dominates another exactly when a chain of cover edges rises to it. */
  lemma AboveMeans(l: LabelLattice, a: Label, b: Label)
    ensures Above(l, a, b) <==>
            exists chain :: |chain| > 0 && chain[0] == b && chain[|chain| - 1] == a && Rises(l, chain)
  {
    if Above(l, a, b) {
      AboveIs(l, a, b);
      var n: nat :| ReachIn(CoverGraph(l), b, a, n);
      var chain := RiseOf(l, b, a, n);
    }
    if chain :| |chain| > 0 && chain[0] == b && chain[|chain| - 1] == a && Rises(l, chain) {
      RiseReaches(l, chain);
      AboveIs(l, a, b);
    }
  }

  lemma {:induction false} RiseOf(l: LabelLattice, b: Label, a: Label, n: nat) returns (chain: seq<Label>)
    requires ReachIn(CoverGraph(l), b, a, n)
    ensures |chain| == n + 1 && chain[0] == b && chain[n] == a && Rises(l, chain)
    decreases n
  {
    if n == 0 {
      chain := [b];
    } else {
      var m :| ReachIn(CoverGraph(l), b, m, n - 1) && a in Succ(CoverGraph(l), m);
      CoverSucc(l, m);
      var front := RiseOf(l, b, m, n - 1);
      chain := front + [a];
    }
  }

  lemma {:induction false} RiseReaches(l: LabelLattice, chain: seq<Label>)
    requires |chain| > 0 && Rises(l, chain)
    ensures ReachIn(CoverGraph(l), chain[0], chain[|chain| - 1], |chain| - 1)
    decreases |chain|
  {
    if |chain| > 1 {
      var front, z := chain[..|chain| - 1], |chain| - 2;
      RiseReaches(l, front);
      CoverSucc(l, chain[z]);
      assert (chain[z], chain[z + 1]) in l.cover;
    }
  }

  lemma AboveRefl(l: LabelLattice, a: Label)
    ensures Above(l, a, a)
  {
    ReachRefl(CoverGraph(l), a);
  }

  lemma AboveTrans(l: LabelLattice, a: Label, b: Label, c: Label)
    requires Above(l, a, b) && Above(l, b, c)
    ensures Above(l, a, c)
  {
    ReachTrans(CoverGraph(l), c, b, a);
  }

  // ----------------------------------------------------------------------
  // Joins and meets
  // ----------------------------------------------------------------------

  ghost function Bottoms(l: LabelLattice): set<Label> {
    set x | x in l.labels && forall y :: y in l.labels ==> Above(l, y, x)
  }

  ghost function Tops(l: LabelLattice): set<Label> {
    set x | x in l.labels && forall y :: y in l.labels ==> Above(l, x, y)
  }

  ghost function Uppers(l: LabelLattice, a: Label, b: Label): set<Label> {
    set x | x in l.labels && Above(l, x, a) && Above(l, x, b)
  }

  ghost function Lowers(l: LabelLattice, a: Label, b: Label): set<Label> {
    set x | x in l.labels && Above(l, a, x) && Above(l, b, x)
  }

  ghost function LeastOf(l: LabelLattice, s: set<Label>): set<Label> {
    set x | x in s && forall y :: y in s ==> Above(l, y, x)
  }

  ghost function GreatestOf(l: LabelLattice, s: set<Label>): set<Label> {
    set x | x in s && forall y :: y in s ==> Above(l, x, y)
  }

  /** The first candidate in iteration order, or the fallback. */
  ghost function FindOr(s: set<Label>, fallback: Label): Label {
    if s == {} then fallback else First(s)
  }

  ghost function Bottom(l: LabelLattice): Label {
    FindOr(Bottoms(l), PUBLIC)
  }

  ghost function Top(l: LabelLattice): Label {
    FindOr(Tops(l), PUBLIC)
  }

  ghost function Join(l: LabelLattice, a: Label, b: Label): Label {
    FindOr(LeastOf(l, Uppers(l, a, b)), Top(l))
  }

  ghost function Meet(l: LabelLattice, a: Label, b: Label): Label {
    FindOr(GreatestOf(l, Lowers(l, a, b)), Bottom(l))
  }

  /** One direction of the order, so that least and greatest share their code. */
  ghost predicate Beyond(l: LabelLattice, least: bool, x: Label, y: Label) {
    if least then Above(l, y, x) else Above(l, x, y)
  }

  ghost function Extremes(l: LabelLattice, least: bool, s: set<Label>): set<Label> {
    if least then LeastOf(l, s) else GreatestOf(l, s)
  }

  method IsBeyond(l: LabelLattice, least: bool, x: Label, y: Label) returns (r: bool)
    ensures r <==> Beyond(l, least, x, y)
  {
    if least { r := Dominates(l, y, x); } else { r := Dominates(l, x, y); }
  }

  /** Whether `x` is the least (or greatest) member candidate for `s`. */
  method BeyondAll(l: LabelLattice, least: bool, x: Label, s: set<Label>) returns (r: bool)
    ensures r <==> forall y :: y in s ==> Beyond(l, least, x, y)
  {
    hide Beyond;
    var todo := s;
    while todo != {}
      invariant todo <= s && forall y :: y in s && y !in todo ==> Beyond(l, least, x, y)
      decreases todo
    {
      var y :| y in todo;
      todo := todo - {y};
      var ok := IsBeyond(l, least, x, y);
      if !ok { return false; }
    }
    r := true;
  }

  /** The first extreme member in iteration order, or the fallback. */
  method FindExtreme(l: LabelLattice, least: bool, s: set<Label>, fallback: Label) returns (r: Label)
    ensures r == FindOr(Extremes(l, least, s), fallback)
  {
    hide Above, First;
    var found: set<Label> := {};
    r := fallback;
    var todo := s;
    while todo != {}
      invariant todo <= s
      invariant forall x :: x in found <==> x in s && x !in todo && x in Extremes(l, least, s)
      invariant if found == {} then r == fallback else IsFirst(found, r)
      decreases todo
    {
      var x :| x in todo;
      todo := todo - {x};
      var ok := BeyondAll(l, least, x, s);
      if ok {
        Extend(found, r, x);
        if found == {} || StringLe(x, r) { r := x; }
        found := found + {x};
      }
    }
    assert found == Extremes(l, least, s);
    if found != {} { FirstUnique(found, r); }
  }

  lemma Extend(found: set<Label>, r: Label, x: Label)
    ensures found == {} ==> IsFirst(found + {x}, x)
    ensures IsFirst(found, r) ==> IsFirst(found + {x}, if StringLe(x, r) then x else r)
  {
    StringLeTotal(x, x);
    StringLeTotal(x, r);
    if IsFirst(found, r) && StringLe(x, r) {
      forall y | y in found ensures StringLe(x, y) { StringLeTrans(x, r, y); }
    }
  }

  method BottomOf(l: LabelLattice) returns (r: Label)
    ensures r == Bottom(l)
  {
    r := FindExtreme(l, true, l.labels, PUBLIC);
    assert LeastOf(l, l.labels) == Bottoms(l);
  }

  method TopOf(l: LabelLattice) returns (r: Label)
    ensures r == Top(l)
  {
    r := FindExtreme(l, false, l.labels, PUBLIC);
    assert GreatestOf(l, l.labels) == Tops(l);
  }

  ghost function BoundsOf(l: LabelLattice, upper: bool, a: Label, b: Label): set<Label> {
    if upper then Uppers(l, a, b) else Lowers(l, a, b)
  }

  /** The common upper (or lower) bounds of a pair. */
  method CollectBounds(l: LabelLattice, upper: bool, a: Label, b: Label) returns (bounds: set<Label>)
    ensures bounds == BoundsOf(l, upper, a, b)
  {
    hide Beyond;
    bounds := {};
    var todo := l.labels;
    while todo != {}
      invariant todo <= l.labels && bounds <= l.labels
      invariant forall x :: x in bounds <==>
          x in l.labels && x !in todo && Beyond(l, !upper, x, a) && Beyond(l, !upper, x, b)
      decreases todo
    {
      var x :| x in todo;
      todo := todo - {x};
      var beyondA := IsBeyond(l, !upper, x, a);
      var beyondB := IsBeyond(l, !upper, x, b);
      if beyondA && beyondB { bounds := bounds + {x}; }
    }
    BoundsAre(l, upper, a, b);
  }

  lemma BoundsAre(l: LabelLattice, upper: bool, a: Label, b: Label)
    ensures forall x :: x in BoundsOf(l, upper, a, b) <==>
        x in l.labels && Beyond(l, !upper, x, a) && Beyond(l, !upper, x, b)
  {
  }

  method JoinOf(l: LabelLattice, a: Label, b: Label) returns (r: Label)
    ensures r == Join(l, a, b)
  {
    var uppers := CollectBounds(l, true, a, b);
    var top := TopOf(l);
    r := FindExtreme(l, true, uppers, top);
  }

  method MeetOf(l: LabelLattice, a: Label, b: Label) returns (r: Label)
    ensures r == Meet(l, a, b)
  {
    var lowers := CollectBounds(l, false, a, b);
    var bottom := BottomOf(l);
    r := FindExtreme(l, false, lowers, bottom);
  }

  ghost predicate CoverKnown(l: LabelLattice) {
    forall e :: e in l.cover ==> e.0 in l.labels && e.1 in l.labels
  }

  ghost predicate NoCycle(l: LabelLattice) {
    forall a, b :: a in l.labels && b in l.labels && a != b ==> !(Above(l, a, b) && Above(l, b, a))
  }

  /** The pair has a unique least upper and a unique greatest lower bound. */
  ghost predicate UniqueBounds(l: LabelLattice, a: Label, b: Label) {
    |LeastOf(l, Uppers(l, a, b))| == 1 && |GreatestOf(l, Lowers(l, a, b))| == 1
  }

  /** The checks `validate` makes, in its own terms. */
  ghost predicate Validated(l: LabelLattice) {
    && l.labels != {}
    && CoverKnown(l)
    && NoCycle(l)
    && |Bottoms(l)| == 1
    && |Tops(l)| == 1
    && (forall a, b :: a in l.labels && b in l.labels ==> UniqueBounds(l, a, b))
  }

  datatype LatticeError =
    | NoLabels
    | UnknownLabel
    | Cycle
    | Bottomless(found: nat)
    | Topless(found: nat)
    | NoJoin(a: Label, b: Label)
    | NoMeet(a: Label, b: Label)

  /** What an error says is so. */
  ghost predicate Faulty(l: LabelLattice, e: LatticeError) {
    match e
    case NoLabels => l.labels == {}
    case UnknownLabel => !CoverKnown(l)
    case Cycle => !NoCycle(l)
    case Bottomless(n) => n == |Bottoms(l)| != 1
    case Topless(n) => n == |Tops(l)| != 1
    case NoJoin(a, b) => a in l.labels && b in l.labels && |LeastOf(l, Uppers(l, a, b))| != 1
    case NoMeet(a, b) => a in l.labels && b in l.labels && |GreatestOf(l, Lowers(l, a, b))| != 1
  }

  method CountExtremes(l: LabelLattice, least: bool, s: set<Label>) returns (n: nat)
    ensures n == |Extremes(l, least, s)|
  {
    hide Above;
    ghost var found: set<Label> := {};
    n := 0;
    var todo := s;
    while todo != {}
      invariant todo <= s && n == |found|
      invariant forall x :: x in found <==> x in s && x !in todo && x in Extremes(l, least, s)
      decreases todo
    {
      var x :| x in todo;
      todo := todo - {x};
      var ok := BeyondAll(l, least, x, s);
      if ok {
        n := n + 1;
        found := found + {x};
      }
    }
    assert found == Extremes(l, least, s);
  }

  method CheckCover(l: LabelLattice) returns (ok: bool)
    ensures ok <==> CoverKnown(l)
  {
    var todo := l.cover;
    while todo != {}
      invariant todo <= l.cover && forall e :: e in l.cover && e !in todo ==> e.0 in l.labels && e.1 in l.labels
      decreases todo
    {
      var e :| e in todo;
      todo := todo - {e};
      if e.0 !in l.labels || e.1 !in l.labels { return false; }
    }
    ok := true;
  }

  /** One pair of the cycle check. */
  method Mutual(l: LabelLattice, a: Label, b: Label) returns (r: bool)
    ensures r <==> a != b && Above(l, a, b) && Above(l, b, a)
  {
    if a == b { return false; }
    r := Dominates(l, a, b);
    if r { r := Dominates(l, b, a); }
  }

  method CheckCycles(l: LabelLattice) returns (ok: bool)
    ensures ok <==> NoCycle(l)
  {
    hide Above;
    var todo := set a, b | a in l.labels && b in l.labels :: (a, b);
    while todo != {}
      invariant forall p :: p in todo ==> p.0 in l.labels && p.1 in l.labels
      invariant forall a, b :: a in l.labels && b in l.labels && (a, b) !in todo ==>
          a == b || !(Above(l, a, b) && Above(l, b, a))
      decreases todo
    {
      var p :| p in todo;
      todo := todo - {p};
      var bad := Mutual(l, p.0, p.1);
      if bad { return false; }
    }
    ok := true;
  }

  /** One pair of the bounds check. */
  method CheckPair(l: LabelLattice, a: Label, b: Label) returns (e: Option<LatticeError>)
    requires a in l.labels && b in l.labels
    ensures e.None? <==> UniqueBounds(l, a, b)
    ensures e.Some? ==> Faulty(l, e.value)
  {
    hide Above, LeastOf, GreatestOf, Uppers, Lowers;
    var uppers := CollectBounds(l, true, a, b);
    var lubs := CountExtremes(l, true, uppers);
    if lubs != 1 { return Some(NoJoin(a, b)); }
    var lowers := CollectBounds(l, false, a, b);
    var glbs := CountExtremes(l, false, lowers);
    if glbs != 1 { return Some(NoMeet(a, b)); }
    e := None;
  }

  method CheckPairs(l: LabelLattice) returns (e: Option<LatticeError>)
    ensures e.None? <==> forall a, b :: a in l.labels && b in l.labels ==> UniqueBounds(l, a, b)
    ensures e.Some? ==> Faulty(l, e.value)
  {
    hide UniqueBounds, Faulty;
    var todo := set a, b | a in l.labels && b in l.labels :: (a, b);
    while todo != {}
      invariant forall p :: p in todo ==> p.0 in l.labels && p.1 in l.labels
      invariant forall a, b :: a in l.labels && b in l.labels && (a, b) !in todo ==> UniqueBounds(l, a, b)
      decreases todo
    {
      var p :| p in todo;
      todo := todo - {p};
      e := CheckPair(l, p.0, p.1);
      if e.Some? { return; }
    }
    e := None;
  }

  method Validate(l: LabelLattice) returns (e: Option<LatticeError>)
    ensures e.None? <==> Validated(l)
    ensures e.Some? ==> Faulty(l, e.value)
  {
    hide NoCycle, CoverKnown, UniqueBounds;
    if l.labels == {} { return Some(NoLabels); }
    var known := CheckCover(l);
    if !known { return Some(UnknownLabel); }
    var acyclic := CheckCycles(l);
    if !acyclic { return Some(Cycle); }
    var bottoms := CountExtremes(l, true, l.labels);
    assert LeastOf(l, l.labels) == Bottoms(l);
    if bottoms != 1 { return Some(Bottomless(bottoms)); }
    var tops := CountExtremes(l, false, l.labels);
    assert GreatestOf(l, l.labels) == Tops(l);
    if tops != 1 { return Some(Topless(tops)); }
    e := CheckPairs(l);
  }

  lemma NonEmpty<T>(s: set<T>)
    requires |s| == 1
    ensures s != {}
  {
  }

  /** In a validated lattice `Top` and `Bottom` are the greatest and least labels. */
  lemma Bounds(l: LabelLattice)
    requires Validated(l)
    ensures Top(l) in l.labels && Bottom(l) in l.labels && Top(l) in Tops(l) && Bottom(l) in Bottoms(l)
    ensures forall x :: x in l.labels ==> Above(l, Top(l), x) && Above(l, x, Bottom(l))
  {
    NonEmpty(Tops(l));
    NonEmpty(Bottoms(l));
    assert Top(l) in Tops(l) && Bottom(l) in Bottoms(l);
  }

  /** `Join` is the least upper bound. */
  lemma JoinIsLub(l: LabelLattice, a: Label, b: Label)
    requires Validated(l) && a in l.labels && b in l.labels
    ensures Join(l, a, b) in l.labels && Above(l, Join(l, a, b), a) && Above(l, Join(l, a, b), b)
    ensures forall x :: x in l.labels && Above(l, x, a) && Above(l, x, b) ==> Above(l, x, Join(l, a, b))
  {
    assert UniqueBounds(l, a, b);
    NonEmpty(LeastOf(l, Uppers(l, a, b)));
    assert Join(l, a, b) in LeastOf(l, Uppers(l, a, b));
    assert Join(l, a, b) in Uppers(l, a, b);
    forall x | x in l.labels && Above(l, x, a) && Above(l, x, b) ensures Above(l, x, Join(l, a, b)) {
      assert x in Uppers(l, a, b);
    }
  }

  /** `Meet` is the greatest lower bound. */
  lemma MeetIsGlb(l: LabelLattice, a: Label, b: Label)
    requires Validated(l) && a in l.labels && b in l.labels
    ensures Meet(l, a, b) in l.labels && Above(l, a, Meet(l, a, b)) && Above(l, b, Meet(l, a, b))
    ensures forall x :: x in l.labels && Above(l, a, x) && Above(l, b, x) ==> Above(l, Meet(l, a, b), x)
  {
    assert UniqueBounds(l, a, b);
    NonEmpty(GreatestOf(l, Lowers(l, a, b)));
    assert Meet(l, a, b) in GreatestOf(l, Lowers(l, a, b));
    assert Meet(l, a, b) in Lowers(l, a, b);
    forall x | x in l.labels && Above(l, a, x) && Above(l, b, x) ensures Above(l, Meet(l, a, b), x) {
      assert x in Lowers(l, a, b);
    }
  }

  /** An unknown label is comparable to nothing but itself. */
  lemma UnknownAlone(l: LabelLattice, a: Label, b: Label)
    requires CoverKnown(l) && Above(l, a, b) && (a !in l.labels || b !in l.labels)
    ensures a == b
  {
    var g := CoverGraph(l);
    var n: nat :| ReachIn(g, b, a, n);
    if n > 0 {
      var m :| ReachIn(g, b, m, n - 1) && a in Succ(g, m);
      var c := ReachInHead(g, b, a, n);
      CoverSucc(l, m);
      CoverSucc(l, b);
    }
  }

  /** Joining with an unknown label fails closed. */
  lemma JoinUnknown(l: LabelLattice, a: Label, b: Label)
    requires CoverKnown(l) && (a !in l.labels || b !in l.labels)
    ensures Join(l, a, b) == Top(l)
  {
    forall x | x in Uppers(l, a, b) ensures false {
      if a !in l.labels { UnknownAlone(l, x, a); } else { UnknownAlone(l, x, b); }
    }
    assert Uppers(l, a, b) == {};
  }

  lemma Antisymmetric(l: LabelLattice, a: Label, b: Label)
    requires Validated(l) && Above(l, a, b) && Above(l, b, a)
    ensures a == b
  {
    if a !in l.labels || b !in l.labels { UnknownAlone(l, a, b); }
  }

  // ----------------------------------------------------------------------
  // What the checks amount to
  // ----------------------------------------------------------------------

  ghost predicate IsLub(l: LabelLattice, a: Label, b: Label, x: Label) {
    x in Uppers(l, a, b) && forall y :: y in Uppers(l, a, b) ==> Above(l, y, x)
  }

  ghost predicate IsGlb(l: LabelLattice, a: Label, b: Label, x: Label) {
    x in Lowers(l, a, b) && forall y :: y in Lowers(l, a, b) ==> Above(l, x, y)
  }

  ghost predicate HasBounds(l: LabelLattice, a: Label, b: Label) {
    (exists x :: IsLub(l, a, b, x)) && (exists x :: IsGlb(l, a, b, x))
  }

  /** A finite lattice: a non-empty partial order where every pair has a least
      upper and a greatest lower bound. */
  ghost predicate IsLattice(l: LabelLattice) {
    && l.labels != {}
    && CoverKnown(l)
    && NoCycle(l)
    && (forall a, b :: a in l.labels && b in l.labels ==> HasBounds(l, a, b))
  }

  /** The two bounds of a pair. */
  lemma PairBounds(l: LabelLattice, a: Label, b: Label) returns (lo: Label, hi: Label)
    requires HasBounds(l, a, b)
    ensures IsGlb(l, a, b, lo) && IsLub(l, a, b, hi)
    ensures lo in l.labels && Above(l, a, lo) && Above(l, b, lo)
    ensures hi in l.labels && Above(l, hi, a) && Above(l, hi, b)
  {
    hide Above;
    lo :| IsGlb(l, a, b, lo);
    hi :| IsLub(l, a, b, hi);
  }

  lemma LatticePair(l: LabelLattice, a: Label, b: Label)
    requires IsLattice(l) && a in l.labels && b in l.labels
    ensures HasBounds(l, a, b)
  {
  }

  /** Every non-empty finite set of labels has a label below and a label above it all. */
  lemma {:induction false} CommonBounds(l: LabelLattice, s: set<Label>) returns (lo: Label, hi: Label)
    requires IsLattice(l) && s != {} && s <= l.labels
    ensures lo in l.labels && hi in l.labels
    ensures forall x :: x in s ==> Above(l, x, lo) && Above(l, hi, x)
    decreases s
  {
    hide *;
    var a :| a in s;
    if s == {a} {
      AboveRefl(l, a);
      lo, hi := a, a;
    } else {
      var lo1, hi1 := CommonBounds(l, s - {a});
      var ignored;
      LatticePair(l, a, lo1);
      LatticePair(l, a, hi1);
      lo, ignored := PairBounds(l, a, lo1);
      ignored, hi := PairBounds(l, a, hi1);
      forall x | x in s ensures Above(l, x, lo) && Above(l, hi, x) {
        if x != a {
          AboveTrans(l, x, lo1, lo);
          AboveTrans(l, hi, hi1, x);
        }
      }
    }
  }

  lemma OnlyOne(s: set<Label>, x: Label)
    requires x in s && forall y :: y in s ==> y == x
    ensures |s| == 1
  {
    assert s == {x};
  }

  lemma OneLeast(l: LabelLattice, s: set<Label>, x: Label)
    requires NoCycle(l) && s <= l.labels && x in s && forall y :: y in s ==> Above(l, y, x)
    ensures |LeastOf(l, s)| == 1
  {
    hide Above;
    OnlyOne(LeastOf(l, s), x);
  }

  lemma OneGreatest(l: LabelLattice, s: set<Label>, x: Label)
    requires NoCycle(l) && s <= l.labels && x in s && forall y :: y in s ==> Above(l, x, y)
    ensures |GreatestOf(l, s)| == 1
  {
    hide Above;
    OnlyOne(GreatestOf(l, s), x);
  }

  /** Once the order is free of cycles, having bounds and having unique bounds are the same. */
  lemma BoundsAreUnique(l: LabelLattice, a: Label, b: Label)
    requires NoCycle(l)
    ensures HasBounds(l, a, b) <==> UniqueBounds(l, a, b)
  {
    hide Above, NoCycle;
    if HasBounds(l, a, b) {
      var lo, hi := PairBounds(l, a, b);
      OneLeast(l, Uppers(l, a, b), hi);
      OneGreatest(l, Lowers(l, a, b), lo);
    }
    if UniqueBounds(l, a, b) {
      NonEmpty(LeastOf(l, Uppers(l, a, b)));
      NonEmpty(GreatestOf(l, Lowers(l, a, b)));
      var u :| u in LeastOf(l, Uppers(l, a, b));
      var d :| d in GreatestOf(l, Lowers(l, a, b));
      assert IsLub(l, a, b, u) && IsGlb(l, a, b, d);
    }
  }

  lemma EndsCounted(l: LabelLattice, lo: Label, hi: Label)
    requires NoCycle(l) && lo in l.labels && hi in l.labels
    requires forall x :: x in l.labels ==> Above(l, x, lo) && Above(l, hi, x)
    ensures |Bottoms(l)| == 1 && |Tops(l)| == 1
  {
    hide Above;
    OnlyOne(Bottoms(l), lo);
    OnlyOne(Tops(l), hi);
  }

  /** Validation accepts exactly the finite lattices; the bottom and top it counts
      are there whenever joins and meets are. */
  lemma ValidatedIffLattice(l: LabelLattice)
    ensures Validated(l) <==> IsLattice(l)
  {
    hide NoCycle, HasBounds, UniqueBounds, Bottoms, Tops, CoverKnown;
    if NoCycle(l) {
      forall a, b ensures HasBounds(l, a, b) <==> UniqueBounds(l, a, b) { BoundsAreUnique(l, a, b); }
      if IsLattice(l) {
        var lo, hi := CommonBounds(l, l.labels);
        EndsCounted(l, lo, hi);
      }
    }
  }

  lemma TwoPointAbove(a: Label, b: Label)
    ensures Above(TwoPoint(), a, b) <==> a == b || (a == PROTECTED && b == PUBLIC)
  {
    var l := TwoPoint();
    var g := CoverGraph(l);
    forall x, y ensures y in Succ(g, x) <==> x == PUBLIC && y == PROTECTED { CoverSucc(l, x); }
    AboveRefl(l, a);
    ReachRefl(g, PUBLIC);
    ReachStep(g, PUBLIC, PUBLIC, PROTECTED);
    ReachClosed(g, {b} + Succ(g, b), b);
  }

  /** The lattice every backend returns. */
  lemma TwoPointLattice()
    ensures Validated(TwoPoint())
    ensures Bottom(TwoPoint()) == PUBLIC && Top(TwoPoint()) == PROTECTED
  {
    hide Above;
    var l := TwoPoint();
    forall a, b ensures Above(l, a, b) <==> a == b || (a == PROTECTED && b == PUBLIC) { TwoPointAbove(a, b); }
    assert PUBLIC[1] != PROTECTED[1];
    forall a, b | a in l.labels && b in l.labels ensures HasBounds(l, a, b) {
      assert IsLub(l, a, b, if a == b then a else PROTECTED);
      assert IsGlb(l, a, b, if a == b then a else PUBLIC);
    }
    ValidatedIffLattice(l);
    Bounds(l);
  }
}
