/** Label rules: the effective label of a resource is the join of every matching
    rule of its kind. */
module Rules {
  import opened Glob
  import opened Lattice

  datatype Resource = PathResource(name: string) | TimelineResource(name: string) | SecretResource(name: string)

  datatype LabelRule =
    | PathRule(pattern: string, confers: Label)
    | TimelineRule(pattern: string, confers: Label)
    | SecretRule(pattern: string, confers: Label)

  predicate SameKind(rule: LabelRule, r: Resource) {
    || (rule.PathRule? && r.PathResource?)
    || (rule.TimelineRule? && r.TimelineResource?)
    || (rule.SecretRule? && r.SecretResource?)
  }

  ghost predicate Applies(rule: LabelRule, r: Resource) {
    SameKind(rule, r) && GlobMatch(rule.pattern, r.name)
  }

  /** The labels the matching rules name. */
  ghost function Named(rules: seq<LabelRule>, r: Resource): set<Label> {
    set rule | rule in rules && Applies(rule, r) :: rule.confers
  }

  /** Which rules bear on which resource: path rules on paths, timeline rules on
      timelines, secret rules on secrets, each when its pattern matches the name. */
  lemma AppliesMeans(rule: LabelRule, r: Resource)
    ensures Applies(rule, r) <==>
            match (rule, r)
            case (PathRule(pattern, _), PathResource(name)) => GlobMatch(pattern, name)
            case (TimelineRule(pattern, _), TimelineResource(name)) => GlobMatch(pattern, name)
            case (SecretRule(pattern, _), SecretResource(name)) => GlobMatch(pattern, name)
            case _ => false
  {
  }

  /** Rules of another kind leave a label alone. */
  lemma {:induction false} OtherKinds(l: LabelLattice, rules: seq<LabelRule>, r: Resource)
    requires forall rule :: rule in rules ==>
               && (r.PathResource? ==> !rule.PathRule?)
               && (r.TimelineResource? ==> !rule.TimelineRule?)
               && (r.SecretResource? ==> !rule.SecretRule?)
    ensures Accumulated(l, rules, r) == Bottom(l)
  {
    hide Bottom, Join, GlobMatch;
    if rules != [] {
      var front, z := rules[..|rules| - 1], rules[|rules| - 1];
      assert z in rules && forall rule :: rule in front ==> rule in rules;
      OtherKinds(l, front, r);
    }
  }

  /** The accumulated join, rule by rule from the bottom. */
  ghost function Accumulated(l: LabelLattice, rules: seq<LabelRule>, r: Resource): Label {
    if rules == [] then Bottom(l)
    else
      var acc, rule := Accumulated(l, rules[..|rules| - 1], r), rules[|rules| - 1];
      if Applies(rule, r) then Join(l, acc, rule.confers) else acc
  }

  /** `label_for_path`, `label_for_timeline` and `label_for_secret`, by the kind of resource. */
  method LabelFor(rules: seq<LabelRule>, l: LabelLattice, r: Resource) returns (acc: Label)
    ensures acc == Accumulated(l, rules, r)
    ensures Validated(l) ==> IsEffective(l, Named(rules, r), acc)
  {
    hide Join, Bottom, GlobMatch, Validated;
    acc := BottomOf(l);
    for i := 0 to |rules|
      invariant acc == Accumulated(l, rules[..i], r)
    {
      assert rules[..i + 1][..i] == rules[..i];
      if SameKind(rules[i], r) {
        var hit, fails := GlobMatches(rules[i].pattern, r.name);
        if hit { acc := JoinOf(l, acc, rules[i].confers); }
      }
    }
    assert rules[..|rules|] == rules;
    if Validated(l) { Effective(l, rules, r); }
  }

  /** `x` is the least label over all of `s`; with an unknown label in `s` it is the top. */
  ghost predicate IsEffective(l: LabelLattice, s: set<Label>, x: Label) {
    if s <= l.labels then
      && x in l.labels
      && (forall y :: y in s ==> Above(l, x, y))
      && (forall z :: z in l.labels && (forall y :: y in s ==> Above(l, z, y)) ==> Above(l, z, x))
    else
      x == Top(l)
  }

  lemma EffectiveUnique(l: LabelLattice, s: set<Label>, x: Label, y: Label)
    requires Validated(l) && IsEffective(l, s, x) && IsEffective(l, s, y)
    ensures x == y
  {
    hide Above, Validated;
    if s <= l.labels { Antisymmetric(l, x, y); }
  }

  /** Adding one label to the set. */
  lemma EffectiveJoin(l: LabelLattice, s: set<Label>, x: Label, y: Label)
    requires Validated(l) && IsEffective(l, s, x)
    ensures IsEffective(l, s + {y}, Join(l, x, y))
  {
    hide Above, Validated, Join, Top;
    Bounds(l);
    var j := Join(l, x, y);
    if y !in l.labels {
      KnownCover(l);
      JoinUnknown(l, x, y);
      assert y in s + {y};
    } else if s <= l.labels {
      JoinIsLub(l, x, y);
      forall z | z in s ensures Above(l, j, z) { AboveTrans(l, j, x, z); }
      forall z | z in l.labels && forall w :: w in s + {y} ==> Above(l, z, w) ensures Above(l, z, j) {
        assert forall w :: w in s ==> w in s + {y};
        assert y in s + {y};
      }
    } else {
      JoinIsLub(l, x, y);
      Antisymmetric(l, j, x);
      var w :| w in s && w !in l.labels;
      assert w in s + {y};
    }
  }

  lemma KnownCover(l: LabelLattice)
    requires Validated(l)
    ensures CoverKnown(l)
  {
  }

  /** The accumulator computes the effective label of the set of matching labels. */
  lemma {:induction false} Effective(l: LabelLattice, rules: seq<LabelRule>, r: Resource)
    requires Validated(l)
    ensures IsEffective(l, Named(rules, r), Accumulated(l, rules, r))
  {
    hide Validated, GlobMatch, Join, Bottom, IsEffective;
    if rules == [] {
      assert Named(rules, r) == {};
      EffectiveNone(l);
    } else {
      var rest, rule := rules[..|rules| - 1], rules[|rules| - 1];
      Effective(l, rest, r);
      assert forall x :: x in rules <==> x in rest || x == rule;
      if Applies(rule, r) {
        assert Named(rules, r) == Named(rest, r) + {rule.confers};
        EffectiveJoin(l, Named(rest, r), Accumulated(l, rest, r), rule.confers);
      } else {
        assert Named(rules, r) == Named(rest, r);
      }
    }
  }

  lemma EffectiveNone(l: LabelLattice)
    requires Validated(l)
    ensures IsEffective(l, {}, Bottom(l))
  {
    Bounds(l);
  }

  /** Only the set of matching labels matters: neither the order nor repetition of
      rules changes a label. */
  lemma OrderIndependent(l: LabelLattice, rules: seq<LabelRule>, rules': seq<LabelRule>, r: Resource)
    requires Validated(l) && Named(rules, r) == Named(rules', r)
    ensures Accumulated(l, rules, r) == Accumulated(l, rules', r)
  {
    hide Validated, Named, Accumulated, IsEffective;
    Effective(l, rules, r);
    Effective(l, rules', r);
    EffectiveUnique(l, Named(rules, r), Accumulated(l, rules, r), Accumulated(l, rules', r));
  }

  /** More rules never lower a label. */
  lemma Monotone(l: LabelLattice, rules: seq<LabelRule>, rules': seq<LabelRule>, r: Resource)
    requires Validated(l) && forall x :: x in rules ==> x in rules'
    ensures Above(l, Accumulated(l, rules', r), Accumulated(l, rules, r))
  {
    hide Validated, Above, Accumulated, Applies;
    Effective(l, rules, r);
    Effective(l, rules', r);
    Bounds(l);
    var s, s' := Named(rules, r), Named(rules', r);
    assert s <= s';
    if !(s' <= l.labels) && !(s <= l.labels) { AboveRefl(l, Top(l)); }
  }

  /** A matching rule with an unknown label fails closed. */
  lemma UnknownIsTop(l: LabelLattice, rules: seq<LabelRule>, r: Resource, rule: LabelRule)
    requires Validated(l) && rule in rules && Applies(rule, r) && rule.confers !in l.labels
    ensures Accumulated(l, rules, r) == Top(l)
  {
    Effective(l, rules, r);
    assert rule.confers in Named(rules, r);
  }

  /** Every effective label of a validated lattice is one of its labels. */
  lemma EffectiveKnown(l: LabelLattice, rules: seq<LabelRule>, r: Resource)
    requires Validated(l)
    ensures Accumulated(l, rules, r) in l.labels
  {
    Effective(l, rules, r);
    Bounds(l);
  }
}
