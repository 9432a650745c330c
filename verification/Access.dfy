/** The accessor: an actor's clearances over a lattice, the read and write
    decisions they give, and the trace that explains a decision. */
module Access {
  import opened Wrappers
  import opened Glob
  import opened Lattice
  import opened Rules

  datatype Capability = Capability(read: bool, write: bool)

  datatype Access = Read | Write

  datatype Scope = PathScope(pattern: string) | TimelineScope(pattern: string) | SecretScope(pattern: string)

  datatype Clearance = Clearance(ceiling: Label, cap: Capability, scope: Option<Scope>)

  datatype Accessor = Accessor(lattice: LabelLattice, rules: seq<LabelRule>, clearances: seq<Clearance>, confined: bool)

  predicate Carries(cap: Capability, access: Access) {
    if access.Read? then cap.read else cap.write
  }

  predicate ScopeKind(scope: Scope, r: Resource) {
    || (scope.PathScope? && r.PathResource?)
    || (scope.TimelineScope? && r.TimelineResource?)
    || (scope.SecretScope? && r.SecretResource?)
  }

  ghost predicate ScopeApplies(scope: Option<Scope>, r: Resource) {
    scope.None? || (ScopeKind(scope.value, r) && GlobMatch(scope.value.pattern, r.name))
  }

  /** The clearance carries the capability, is in scope, and its ceiling dominates. */
  ghost predicate Grants(a: Accessor, c: Clearance, access: Access, lab: Label, r: Resource) {
    Carries(c.cap, access) && ScopeApplies(c.scope, r) && Above(a.lattice, c.ceiling, lab)
  }

  ghost predicate CanRead(a: Accessor, lab: Label, r: Resource) {
    exists i :: 0 <= i < |a.clearances| && Grants(a, a.clearances[i], Read, lab, r)
  }

  /** A confined actor writes only at its own level, never strictly down. */
  ghost predicate CanWrite(a: Accessor, lab: Label, r: Resource) {
    && (exists i :: 0 <= i < |a.clearances| && Grants(a, a.clearances[i], Write, lab, r))
    && (a.confined ==>
          exists i ::
            0 <= i < |a.clearances| && Grants(a, a.clearances[i], Write, lab, r) && a.clearances[i].ceiling == lab)
  }

  ghost predicate Can(a: Accessor, access: Access, lab: Label, r: Resource) {
    if access.Read? then CanRead(a, lab, r) else CanWrite(a, lab, r)
  }

  /** A clearance bears on a resource when it is unscoped or scoped to its kind and name. */
  ghost predicate Bears(c: Clearance, r: Resource) {
    || c.scope.None?
    || (match (c.scope.value, r)
        case (PathScope(pattern), PathResource(name)) => GlobMatch(pattern, name)
        case (TimelineScope(pattern), TimelineResource(name)) => GlobMatch(pattern, name)
        case (SecretScope(pattern), SecretResource(name)) => GlobMatch(pattern, name)
        case _ => false)
  }

  /** Reading takes a clearance for reading that covers the resource and dominates its label. */
  lemma ReadMeans(a: Accessor, lab: Label, r: Resource)
    ensures CanRead(a, lab, r) <==>
            exists c :: c in a.clearances && c.cap.read && Bears(c, r) && Above(a.lattice, c.ceiling, lab)
  {
    hide Above, GlobMatch;
    if c :| c in a.clearances && c.cap.read && Bears(c, r) && Above(a.lattice, c.ceiling, lab) {
      var i :| 0 <= i < |a.clearances| && a.clearances[i] == c;
      assert Grants(a, a.clearances[i], Read, lab, r);
    }
    if i :| 0 <= i < |a.clearances| && Grants(a, a.clearances[i], Read, lab, r) {
      assert a.clearances[i] in a.clearances;
    }
  }

  /** Writing takes a clearance for writing likewise, and of a confined actor one whose
      ceiling is the label itself: it never writes down. */
  lemma WriteMeans(a: Accessor, lab: Label, r: Resource)
    ensures CanWrite(a, lab, r) <==>
            exists c ::
              && c in a.clearances && c.cap.write && Bears(c, r) && Above(a.lattice, c.ceiling, lab)
              && (a.confined ==> c.ceiling == lab)
  {
    hide Above, GlobMatch;
    if c :|
         && c in a.clearances && c.cap.write && Bears(c, r) && Above(a.lattice, c.ceiling, lab)
         && (a.confined ==> c.ceiling == lab)
    {
      var i :| 0 <= i < |a.clearances| && a.clearances[i] == c;
      assert Grants(a, a.clearances[i], Write, lab, r);
    }
    if a.confined {
      if i :| 0 <= i < |a.clearances| && Grants(a, a.clearances[i], Write, lab, r) && a.clearances[i].ceiling == lab {
        assert a.clearances[i] in a.clearances;
      }
    } else if i :| 0 <= i < |a.clearances| && Grants(a, a.clearances[i], Write, lab, r) {
      assert a.clearances[i] in a.clearances;
    }
  }

  /** Without the capability nothing is read or written, whatever the ceilings. */
  lemma NoCapability(a: Accessor, lab: Label, r: Resource)
    ensures (forall c :: c in a.clearances ==> !c.cap.read) ==> !CanRead(a, lab, r)
    ensures (forall c :: c in a.clearances ==> !c.cap.write) ==> !CanWrite(a, lab, r)
  {
    hide CanRead, CanWrite, Bears, Above;
    ReadMeans(a, lab, r);
    WriteMeans(a, lab, r);
  }

  // ----------------------------------------------------------------------
  // Decision traces
  // ----------------------------------------------------------------------

  datatype ClearanceEval = ClearanceEval(
    ceiling: Label, scope: Option<Scope>, scopeApplies: bool, grantsCapability: bool, dominates: bool,
    strictlyDominates: bool, decisive: bool)
  {
    predicate Qualifies() {
      grantsCapability && scopeApplies && dominates
    }
  }

  datatype CapabilityTrace =
    CapabilityTrace(allowed: bool, confinedWriteDownBlock: bool, clearances: seq<ClearanceEval>)

  ghost predicate Evaluates(a: Accessor, c: Clearance, access: Access, lab: Label, r: Resource, e: ClearanceEval) {
    && e.ceiling == c.ceiling && e.scope == c.scope
    && (e.scopeApplies <==> ScopeApplies(c.scope, r))
    && (e.grantsCapability <==> Carries(c.cap, access))
    && (e.dominates <==> Above(a.lattice, c.ceiling, lab))
    && (e.strictlyDominates <==> c.ceiling != lab && Above(a.lattice, c.ceiling, lab))
  }

  method EvalClearance(a: Accessor, c: Clearance, access: Access, lab: Label, r: Resource) returns (e: ClearanceEval)
    ensures Evaluates(a, c, access, lab, r, e) && !e.decisive
    ensures e.Qualifies() <==> Grants(a, c, access, lab, r)
  {
    hide Above, GlobMatch;
    var inScope := c.scope.None?;
    if c.scope.Some? && ScopeKind(c.scope.value, r) {
      ghost var fails;
      inScope, fails := GlobMatches(c.scope.value.pattern, r.name);
    }
    var over := Dominates(a.lattice, c.ceiling, lab);
    e := ClearanceEval(c.ceiling, c.scope, inScope, Carries(c.cap, access), over, c.ceiling != lab && over, false);
  }

  /** The first clearance that qualifies. */
  ghost predicate FirstQualifying(evals: seq<ClearanceEval>, i: int) {
    && 0 <= i < |evals| && evals[i].Qualifies()
    && forall j :: 0 <= j < i ==> !evals[j].Qualifies()
  }

  /** Evaluates one capability and records how each clearance fared. The verdict is
      the enforcement verdict; a granted request marks exactly the first qualifying
      clearance, a refused one marks none, and the block flag is set exactly when
      only the no-write-down rule stood in the way. */
  method EvalCap(a: Accessor, lab: Label, r: Resource, access: Access) returns (t: CapabilityTrace)
    ensures t.allowed <==> Can(a, access, lab, r)
    ensures |t.clearances| == |a.clearances|
    ensures forall i :: 0 <= i < |t.clearances| ==> Evaluates(a, a.clearances[i], access, lab, r, t.clearances[i])
    ensures forall i :: 0 <= i < |t.clearances| ==>
        (t.clearances[i].decisive <==> t.allowed && FirstQualifying(t.clearances, i))
    ensures t.confinedWriteDownBlock <==>
              !t.allowed && exists i :: 0 <= i < |a.clearances| && Grants(a, a.clearances[i], access, lab, r)
  {
    hide Above, GlobMatch, ScopeApplies, Evaluates, Grants;
    var evals: seq<ClearanceEval> := [];
    var first, atLevel := -1, false;
    for i := 0 to |a.clearances|
      invariant |evals| == i
      invariant forall k :: 0 <= k < i ==> Evaluates(a, a.clearances[k], access, lab, r, evals[k]) && !evals[k].decisive
      invariant forall k :: 0 <= k < i ==> (evals[k].Qualifies() <==> Grants(a, a.clearances[k], access, lab, r))
      invariant if first < 0 then forall k :: 0 <= k < i ==> !evals[k].Qualifies() else FirstQualifying(evals, first)
      invariant atLevel <==> exists k :: 0 <= k < i && evals[k].Qualifies() && !evals[k].strictlyDominates
    {
      var e := EvalClearance(a, a.clearances[i], access, lab, r);
      if e.Qualifies() {
        if first < 0 { first := i; }
        if !e.strictlyDominates { atLevel := true; }
      }
      evals := evals + [e];
      assert evals[i] == e;
    }
    var dominated := first >= 0;
    var blocked := dominated && access.Write? && a.confined && !atLevel;
    var allowed := dominated && !blocked;
    VerdictIs(a, access, lab, r, evals, first, atLevel);
    if allowed {
      MarkKeeps(a, a.clearances[first], access, lab, r, evals[first]);
      evals := evals[first := evals[first].(decisive := true)];
    }
    t := CapabilityTrace(allowed, blocked, evals);
  }

  lemma MarkKeeps(a: Accessor, c: Clearance, access: Access, lab: Label, r: Resource, e: ClearanceEval)
    requires Evaluates(a, c, access, lab, r, e)
    ensures Evaluates(a, c, access, lab, r, e.(decisive := true))
  {
    hide Above, ScopeApplies;
  }

  lemma VerdictIs(
    a: Accessor, access: Access, lab: Label, r: Resource, evals: seq<ClearanceEval>, first: int, atLevel: bool)
    requires |evals| == |a.clearances|
    requires forall k :: 0 <= k < |evals| ==> Evaluates(a, a.clearances[k], access, lab, r, evals[k])
    requires forall k :: 0 <= k < |evals| ==> (evals[k].Qualifies() <==> Grants(a, a.clearances[k], access, lab, r))
    requires if first < 0 then forall k :: 0 <= k < |evals| ==> !evals[k].Qualifies() else FirstQualifying(evals, first)
    requires atLevel <==> exists k :: 0 <= k < |evals| && evals[k].Qualifies() && !evals[k].strictlyDominates
    ensures Can(a, access, lab, r) <==> first >= 0 && !(access.Write? && a.confined && !atLevel)
    ensures first >= 0 <==> exists i :: 0 <= i < |a.clearances| && Grants(a, a.clearances[i], access, lab, r)
  {
    hide Above, GlobMatch, ScopeApplies, Grants;
    if atLevel {
      var k :| 0 <= k < |evals| && evals[k].Qualifies() && !evals[k].strictlyDominates;
      assert Grants(a, a.clearances[k], access, lab, r) && a.clearances[k].ceiling == lab;
    }
    if k :| 0 <= k < |a.clearances| && Grants(a, a.clearances[k], access, lab, r) && a.clearances[k].ceiling == lab {
      assert evals[k].Qualifies() && !evals[k].strictlyDominates;
    }
    if first >= 0 { assert Grants(a, a.clearances[first], access, lab, r); }
  }

  // ----------------------------------------------------------------------
  // Enforcement on paths
  // ----------------------------------------------------------------------

  ghost function PathLabel(l: LabelLattice, rules: seq<LabelRule>, path: string): Label {
    Accumulated(l, rules, PathResource(path))
  }

  /** What a filtered walk shows: public paths, and paths a read clearance covers. */
  ghost predicate Visible(l: LabelLattice, rules: seq<LabelRule>, a: Accessor, path: string) {
    PathLabel(l, rules, path) == Bottom(l) || CanRead(a, PathLabel(l, rules, path), PathResource(path))
  }

  /** What an advance requires of each path; there is no public shortcut. */
  ghost predicate Writable(l: LabelLattice, rules: seq<LabelRule>, a: Accessor, path: string) {
    CanWrite(a, PathLabel(l, rules, path), PathResource(path))
  }

  method IsVisible(l: LabelLattice, rules: seq<LabelRule>, a: Accessor, path: string) returns (r: bool)
    ensures r <==> Visible(l, rules, a, path)
  {
    hide Bottom, Accumulated, CanRead, Validated;
    var lab := LabelFor(rules, l, PathResource(path));
    var bottom := BottomOf(l);
    if lab == bottom { return true; }
    var t := EvalCap(a, lab, PathResource(path), Read);
    r := t.allowed;
  }

  method IsWritable(l: LabelLattice, rules: seq<LabelRule>, a: Accessor, path: string) returns (r: bool)
    ensures r <==> Writable(l, rules, a, path)
  {
    hide Accumulated, CanWrite, Validated;
    var lab := LabelFor(rules, l, PathResource(path));
    var t := EvalCap(a, lab, PathResource(path), Write);
    r := t.allowed;
  }

  /** What is shown, said of the effective label `x` itself: a path at the bottom of
      the lattice, or one some read clearance covers. */
  lemma VisibleMeans(l: LabelLattice, rules: seq<LabelRule>, a: Accessor, path: string, x: Label)
    requires Validated(l) && IsEffective(l, Named(rules, PathResource(path)), x)
    ensures Visible(l, rules, a, path) <==>
            || (forall y :: y in l.labels ==> Above(l, y, x))
            || (exists c ::
                  && c in a.clearances && c.cap.read && Bears(c, PathResource(path))
                  && Above(a.lattice, c.ceiling, x))
  {
    hide Validated, Above, CanRead, Bears, Bottom, Accumulated, IsEffective, Named;
    LabelIs(l, rules, PathResource(path), x);
    ReadMeans(a, x, PathResource(path));
    Bounds(l);
    if forall y :: y in l.labels ==> Above(l, y, x) { Antisymmetric(l, Bottom(l), x); }
  }

  /** What an advance may touch, likewise; being public gives nothing here. */
  lemma WritableMeans(l: LabelLattice, rules: seq<LabelRule>, a: Accessor, path: string, x: Label)
    requires Validated(l) && IsEffective(l, Named(rules, PathResource(path)), x)
    ensures Writable(l, rules, a, path) <==>
            exists c ::
              && c in a.clearances && c.cap.write && Bears(c, PathResource(path))
              && Above(a.lattice, c.ceiling, x) && (a.confined ==> c.ceiling == x)
  {
    hide Validated, Above, CanWrite, Bears, Accumulated, IsEffective, Named;
    LabelIs(l, rules, PathResource(path), x);
    WriteMeans(a, x, PathResource(path));
  }

  lemma LabelIs(l: LabelLattice, rules: seq<LabelRule>, r: Resource, x: Label)
    requires Validated(l) && IsEffective(l, Named(rules, r), x)
    ensures Accumulated(l, rules, r) == x && x in l.labels
  {
    hide Validated, IsEffective, Named, Accumulated;
    Effective(l, rules, r);
    EffectiveUnique(l, Named(rules, r), Accumulated(l, rules, r), x);
    EffectiveKnown(l, rules, r);
  }

  datatype Explanation =
    Explanation(present: bool, lab: Label, matched: seq<string>, read: CapabilityTrace, write: CapabilityTrace)

  ghost function MatchedGlobs(rules: seq<LabelRule>, path: string): seq<string> {
    if rules == [] then []
    else
      MatchedGlobs(rules[..|rules| - 1], path) +
      if Applies(rules[|rules| - 1], PathResource(path)) then [rules[|rules| - 1].pattern] else []
  }

  /** Exactly the patterns of the matching path rules. */
  lemma {:induction false} MatchedMeans(rules: seq<LabelRule>, path: string)
    ensures forall g :: g in MatchedGlobs(rules, path) <==>
              exists rule :: rule in rules && rule.PathRule? && rule.pattern == g && GlobMatch(g, path)
  {
    hide GlobMatch;
    if rules != [] {
      var front, z := rules[..|rules| - 1], rules[|rules| - 1];
      MatchedMeans(front, path);
      assert rules == front + [z];
      forall g ensures g in MatchedGlobs(rules, path) <==>
        exists rule :: rule in rules && rule.PathRule? && rule.pattern == g && GlobMatch(g, path)
      {
        if rule :| rule in front && rule.PathRule? && rule.pattern == g && GlobMatch(g, path) { assert rule in rules; }
        if z.PathRule? && z.pattern == g && GlobMatch(g, path) { assert z in rules; }
      }
    }
  }

  /** One evaluation for each clearance, the decisive one marked. */
  ghost predicate Traces(a: Accessor, lab: Label, path: string, access: Access, evals: seq<ClearanceEval>) {
    && |evals| == |a.clearances|
    && (forall i :: 0 <= i < |evals| ==> Evaluates(a, a.clearances[i], access, lab, PathResource(path), evals[i]))
    && (forall i :: 0 <= i < |evals| ==>
        (evals[i].decisive <==> Can(a, access, lab, PathResource(path)) && FirstQualifying(evals, i)))
  }

  /** The explanation's verdicts are the ones enforcement reaches. */
  method ExplainPath(l: LabelLattice, rules: seq<LabelRule>, a: Accessor, present: bool, path: string)
    returns (x: Explanation)
    ensures x.read.allowed <==> Visible(l, rules, a, path)
    ensures x.write.allowed <==> Writable(l, rules, a, path)
    ensures x.lab == PathLabel(l, rules, path) && x.matched == MatchedGlobs(rules, path) && x.present == present
    ensures Traces(a, x.lab, path, Read, x.read.clearances) && Traces(a, x.lab, path, Write, x.write.clearances)
    ensures !x.read.confinedWriteDownBlock
    ensures x.write.confinedWriteDownBlock <==>
              !x.write.allowed &&
                  exists i :: 0 <= i < |a.clearances| && Grants(a, a.clearances[i], Write, x.lab, PathResource(path))
  {
    hide Bottom, Accumulated, CanWrite, CanRead, Validated, GlobMatch, Evaluates, FirstQualifying, Grants;
    var lab := LabelFor(rules, l, PathResource(path));
    var matched: seq<string> := [];
    for i := 0 to |rules|
      invariant matched == MatchedGlobs(rules[..i], path)
    {
      assert rules[..i + 1][..i] == rules[..i];
      if rules[i].PathRule? {
        var hit, fails := GlobMatches(rules[i].pattern, path);
        if hit { matched := matched + [rules[i].pattern]; }
      }
    }
    assert rules[..|rules|] == rules;
    var read := EvalCap(a, lab, PathResource(path), Read);
    var write := EvalCap(a, lab, PathResource(path), Write);
    var bottom := BottomOf(l);
    if lab == bottom { read := read.(allowed := true); }
    x := Explanation(present, lab, matched, read.(confinedWriteDownBlock := false), write);
  }

  // ----------------------------------------------------------------------
  // Monotonicity
  // ----------------------------------------------------------------------

  lemma ReadDown(a: Accessor, hi: Label, lo: Label, r: Resource)
    requires CanRead(a, hi, r) && Above(a.lattice, hi, lo)
    ensures CanRead(a, lo, r)
  {
    var i :| 0 <= i < |a.clearances| && Grants(a, a.clearances[i], Read, hi, r);
    AboveTrans(a.lattice, a.clearances[i].ceiling, hi, lo);
    assert Grants(a, a.clearances[i], Read, lo, r);
  }

  /** More label rules only shrink what an accessor over the same lattice sees. */
  lemma RulesShrinkView(l: LabelLattice, rules: seq<LabelRule>, rules': seq<LabelRule>, a: Accessor, path: string)
    requires Validated(l) && a.lattice == l && forall x :: x in rules ==> x in rules'
    requires Visible(l, rules', a, path)
    ensures Visible(l, rules, a, path)
  {
    hide Validated, Accumulated, Above, CanRead, Bottom;
    var lab, lab' := PathLabel(l, rules, path), PathLabel(l, rules', path);
    Monotone(l, rules, rules', PathResource(path));
    if lab' == Bottom(l) {
      EffectiveKnown(l, rules, PathResource(path));
      Bounds(l);
      Antisymmetric(l, lab, lab');
    } else {
      ReadDown(a, lab', lab, PathResource(path));
    }
  }

  /** More clearances only grow what can be seen and written. */
  lemma ClearancesGrowView(l: LabelLattice, rules: seq<LabelRule>, a: Accessor, c: Clearance, path: string)
    ensures Visible(l, rules, a, path) ==> Visible(l, rules, a.(clearances := a.clearances + [c]), path)
    ensures Writable(l, rules, a, path) ==> Writable(l, rules, a.(clearances := a.clearances + [c]), path)
  {
    hide Above, Accumulated, Bottom;
    var b := a.(clearances := a.clearances + [c]);
    assert forall i :: 0 <= i < |a.clearances| ==> b.clearances[i] == a.clearances[i];
    forall access, lab, r | Can(a, access, lab, r) ensures Can(b, access, lab, r) {
      CanGrows(a, b, access, lab, r);
    }
    assert Visible(l, rules, a, path) ==>
        PathLabel(l, rules, path) == Bottom(l) || Can(a, Read, PathLabel(l, rules, path), PathResource(path));
    assert Writable(l, rules, a, path) ==> Can(a, Write, PathLabel(l, rules, path), PathResource(path));
  }

  lemma CanGrows(a: Accessor, b: Accessor, access: Access, lab: Label, r: Resource)
    requires a.lattice == b.lattice && a.confined == b.confined && |a.clearances| <= |b.clearances|
    requires forall i :: 0 <= i < |a.clearances| ==> b.clearances[i] == a.clearances[i]
    requires Can(a, access, lab, r)
    ensures Can(b, access, lab, r)
  {
    var i :| 0 <= i < |a.clearances| && Grants(a, a.clearances[i], access, lab, r);
    assert Grants(b, b.clearances[i], access, lab, r);
    if access.Write? && a.confined {
      var j :| 0 <= j < |a.clearances| && Grants(a, a.clearances[j], Write, lab, r) && a.clearances[j].ceiling == lab;
      assert Grants(b, b.clearances[j], Write, lab, r);
    }
  }

  // ----------------------------------------------------------------------
  // The privileged accessor
  // ----------------------------------------------------------------------

  /** Reads everything up to the top of its own two-point lattice, writes nothing. */
  function Privileged(): Accessor {
    Accessor(TwoPoint(), [], [Clearance(PROTECTED, Capability(true, false), None)], false)
  }

  lemma PrivilegedReads(lab: Label, r: Resource)
    ensures CanRead(Privileged(), lab, r) <==> lab == PUBLIC || lab == PROTECTED
    ensures !CanWrite(Privileged(), lab, r)
  {
    TwoPointAbove(PROTECTED, lab);
    assert Privileged().clearances[0].ceiling == PROTECTED;
    if lab == PUBLIC || lab == PROTECTED {
      assert Grants(Privileged(), Privileged().clearances[0], Read, lab, r);
    }
  }

  /** Under the two-point lattice nothing is hidden from it. */
  lemma PrivilegedSeesAll(rules: seq<LabelRule>, path: string)
    ensures Visible(TwoPoint(), rules, Privileged(), path)
  {
    hide Visible, CanRead, Accumulated, Validated;
    TwoPointLattice();
    EffectiveKnown(TwoPoint(), rules, PathResource(path));
    PrivilegedReads(PathLabel(TwoPoint(), rules, path), PathResource(path));
    VisibleIf(TwoPoint(), rules, Privileged(), path);
  }

  lemma VisibleIf(l: LabelLattice, rules: seq<LabelRule>, a: Accessor, path: string)
    requires CanRead(a, PathLabel(l, rules, path), PathResource(path))
    ensures Visible(l, rules, a, path)
  {
  }

  lemma StarStarMatches(path: string)
    requires |path| <= MAX_GLOB_LEN
    ensures GlobMatch("**", path)
  {
    assert "**"[..2] == "**" && "**"[2..] == "";
    assert Tokens("**") == [StarStar] + Tokens("");
    var pieces := [path];
    assert pieces[1..] == [] && Concat([]) == [] && Concat(pieces) == path + [];
    assert IsSplit(Tokens("**"), path, pieces);
  }

  /** Over another lattice it sees every path under every rule set exactly when the
      lattice has no labels beyond its own bottom and the two-point labels. */
  lemma PrivilegedNeedsTwoPoint(l: LabelLattice)
    requires Validated(l)
    ensures (forall rules, path :: Visible(l, rules, Privileged(), path)) <==>
            (forall x :: x in l.labels ==> x == Bottom(l) || x == PUBLIC || x == PROTECTED)
  {
    hide CanRead, Accumulated, Validated, Bottom, Join, IsEffective;
    if forall x :: x in l.labels ==> x == Bottom(l) || x == PUBLIC || x == PROTECTED {
      forall rules: seq<LabelRule>, path ensures Visible(l, rules, Privileged(), path) {
        EffectiveKnown(l, rules, PathResource(path));
        PrivilegedReads(PathLabel(l, rules, path), PathResource(path));
      }
    }
    if x :| x in l.labels && x != Bottom(l) && x != PUBLIC && x != PROTECTED {
      var rules := [PathRule("**", x)];
      LoneRule(l, x);
      PrivilegedReads(x, PathResource(""));
      assert !Visible(l, rules, Privileged(), "");
    }
  }

  /** One rule over everything gives its own label. */
  lemma LoneRule(l: LabelLattice, x: Label)
    requires Validated(l) && x in l.labels
    ensures PathLabel(l, [PathRule("**", x)], "") == x
  {
    hide Validated, Above, GlobMatch;
    var rules := [PathRule("**", x)];
    StarStarMatches("");
    assert rules[0] in rules;
    assert Named(rules, PathResource("")) == {x};
    Effective(l, rules, PathResource(""));
    AboveRefl(l, x);
    assert IsEffective(l, {x}, x) by {
      forall y | y in {x} ensures Above(l, x, y) {}
    }
    EffectiveUnique(l, {x}, x, PathLabel(l, rules, ""));
  }
}
