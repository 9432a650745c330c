/** Policy hooks: the built-in timeline rule, the registry, and the fold that
    takes the most restrictive verdict. */
module Hooks {
  import opened Wrappers
  import opened Reach
  import opened Objects
  import opened Refs
  import opened History
  import opened Authority

  datatype Decision = Allow | RequiresApproval(reason: string, needed: nat) | Deny(reason: string)

  /** The head of a timeline about to move. */
  datatype Event = Event(name: RefName, oldHead: ObjectId, newHead: ObjectId)

  function Rank(d: Decision): nat {
    match d
    case Allow => 0
    case RequiresApproval(_, _) => 1
    case Deny(_) => 2
  }

  function MoreRestrictive(a: Decision, b: Decision): Decision {
    if Rank(b) > Rank(a) then b else a
  }

  /** The new head may follow the old one on this timeline. */
  ghost predicate TimelineAllows(refs: RefMap, store: Store, e: Event) {
    && e.name in refs && refs[e.name].TimelineRef?
    && (refs[e.name].timeline.policy == Unrestricted || Reaches(ParentGraph(store), e.newHead, e.oldHead))
  }

  /** The built-in hook's verdict. */
  ghost function TimelineVerdict(refs: RefMap, store: Store, e: Event): Decision {
    if TimelineAllows(refs, store, e) then Allow
    else if e.name !in refs then Deny("timeline not found")
    else if refs[e.name].TagRef? then Deny("timeline lookup failed")
    else Deny("new head is not a descendant of current head")
  }

  method TimelinePolicyCheck(refs: RefMap, store: Store, e: Event) returns (d: Decision)
    ensures d == TimelineVerdict(refs, store, e)
    ensures d.Allow? <==> TimelineAllows(refs, store, e)
    ensures !d.Allow? ==> d.Deny?
    ensures e.name in refs && refs[e.name].TimelineRef? && refs[e.name].timeline.policy == Unrestricted ==> d == Allow
    ensures e.name in refs && refs[e.name].TimelineRef? && refs[e.name].timeline.policy != Unrestricted ==>
              (d == Allow <==> Reaches(ParentGraph(store), e.newHead, e.oldHead))
    ensures (e.name !in refs || refs[e.name].TagRef?) ==> d != Allow
  {
    hide Reaches;
    match Get(refs, e.name) {
      case None => return Deny("timeline not found");
      case Some(TagRef(_)) => return Deny("timeline lookup failed");
      case Some(TimelineRef(t)) =>
        match t.policy {
          case Unrestricted => return Allow;
          case FastForwardOnly | Append =>
            var descends := IsAncestor(store, e.oldHead, e.newHead);
            if descends { return Allow; }
            return Deny("new head is not a descendant of current head");
        }
    }
  }

  /** The hooks an advance is bound by, beside the built-in one: those configured
      here and those of the pinned policy root. */
  ghost predicate Bound(refs: RefMap, store: Store, local: seq<HookSpec>, specs: seq<HookSpec>) {
    && (forall h :: h in specs ==> KnownHook(h.kind))
    && match Get(refs, POLICY_ROOT_REF)
       case None => specs == local
       case Some(TagRef(t)) => IsRoot(store, t.target) && specs == local + store[t.target].hooks
       case Some(TimelineRef(_)) => false
  }

  /** The pinned policy root carries this hook. */
  ghost predicate Pins(refs: RefMap, store: Store, h: HookSpec) {
    && "refs/policy/root" in refs && refs["refs/policy/root"].TagRef?
    && var id := refs["refs/policy/root"].tag.target;
       id in store && store[id].PolicyRoot? && h in store[id].hooks
  }

  /** Resolution fails closed: on a malformed pin, a missing root, an unknown kind. */
  method Registry(refs: RefMap, store: Store, local: seq<HookSpec>) returns (r: Option<seq<HookSpec>>)
    ensures r.Some? ==> Bound(refs, store, local, r.value)
    ensures r.None? ==> forall specs :: !Bound(refs, store, local, specs)
    ensures r.Some? ==> forall h :: h in local ==> h in r.value
    ensures r.Some? ==>
              forall h :: h in r.value ==> h.kind == "signed-approval" || h.kind == "timeline-policy"
    ensures r.Some? ==> forall h :: h in r.value ==> h in local || Pins(refs, store, h)
    ensures r.Some? ==> forall h :: Pins(refs, store, h) ==> h in r.value
    ensures r.Some? && POLICY_ROOT_REF in refs ==>
              refs[POLICY_ROOT_REF].TagRef? && IsRoot(store, refs[POLICY_ROOT_REF].tag.target)
    ensures r.None? ==>
              || (POLICY_ROOT_REF in refs && refs[POLICY_ROOT_REF].TimelineRef?)
              || (POLICY_ROOT_REF in refs && refs[POLICY_ROOT_REF].TagRef? &&
                  !IsRoot(store, refs[POLICY_ROOT_REF].tag.target))
              || (exists h ::
                    && (h in local || Pins(refs, store, h))
                    && h.kind != "signed-approval" && h.kind != "timeline-policy")
  {
    var specs := local;
    match Get(refs, POLICY_ROOT_REF) {
      case None =>
      case Some(TimelineRef(_)) => return None;
      case Some(TagRef(t)) =>
        if t.target !in store || !store[t.target].PolicyRoot? { return None; }
        specs := local + store[t.target].hooks;
    }
    for i := 0 to |specs|
      invariant forall k :: 0 <= k < i ==> KnownHook(specs[k].kind)
    {
      if !KnownHook(specs[i].kind) {
        assert specs[i] in specs;
        return None;
      }
    }
    r := Some(specs);
  }

  /** What one bound hook says; the verdict of a signed-approval hook is a given. */
  ghost function HookVerdict(refs: RefMap, store: Store, e: Event, approval: HookSpec -> Decision, spec: HookSpec)
    : Decision
  {
    if spec.kind == "timeline-policy" then TimelineVerdict(refs, store, e) else approval(spec)
  }

  /** The verdicts in the order they are asked for, the built-in hook's first. */
  ghost function Verdicts(refs: RefMap, store: Store, e: Event, approval: HookSpec -> Decision, specs: seq<HookSpec>)
    : (v: seq<Decision>)
    ensures |v| == |specs| + 1
  {
    [TimelineVerdict(refs, store, e)] +
    seq(|specs|, i requires 0 <= i < |specs| => HookVerdict(refs, store, e, approval, specs[i]))
  }

  /** The first verdict of the highest rank. */
  ghost predicate FirstStrictest(v: seq<Decision>, d: Decision) {
    exists i ::
      && 0 <= i < |v| && v[i] == d
      && (forall j :: 0 <= j < |v| ==> Rank(v[j]) <= Rank(d))
      && (forall j :: 0 <= j < i ==> Rank(v[j]) < Rank(d))
  }

  lemma StrictestStep(v: seq<Decision>, d: Decision, x: Decision)
    requires FirstStrictest(v, d)
    ensures FirstStrictest(v + [x], MoreRestrictive(d, x))
  {
    var i :| 0 <= i < |v| && v[i] == d && (forall j :: 0 <= j < |v| ==> Rank(v[j]) <= Rank(d)) &&
      (forall j :: 0 <= j < i ==> Rank(v[j]) < Rank(d));
    var w := v + [x];
    assert forall j :: 0 <= j < |v| ==> w[j] == v[j];
    if Rank(x) > Rank(d) { assert w[|v|] == x; } else { assert w[i] == d; }
  }

  method CheckHook(refs: RefMap, store: Store, e: Event, approval: HookSpec -> Decision, spec: HookSpec)
    returns (d: Decision)
    ensures d == HookVerdict(refs, store, e, approval, spec)
  {
    hide TimelineVerdict, TimelineAllows;
    if spec.kind == "timeline-policy" {
      d := TimelinePolicyCheck(refs, store, e);
    } else {
      d := approval(spec);
    }
  }

  /** Starting from Allow, a stricter verdict replaces the one before. */
  method Evaluate(refs: RefMap, store: Store, e: Event, approval: HookSpec -> Decision, specs: seq<HookSpec>)
    returns (decision: Decision)
    ensures FirstStrictest(Verdicts(refs, store, e, approval, specs), decision)
  {
    hide TimelineVerdict, TimelineAllows, HookVerdict, FirstStrictest;
    decision := Allow;
    var d := TimelinePolicyCheck(refs, store, e);
    decision := MoreRestrictive(decision, d);
    ghost var v := Verdicts(refs, store, e, approval, specs);
    BuiltInFirst(d);
    assert v[..1] == [d];
    for i := 0 to |specs|
      invariant FirstStrictest(v[..i + 1], decision)
    {
      d := CheckHook(refs, store, e, approval, specs[i]);
      StrictestStep(v[..i + 1], decision, d);
      assert v[..i + 2] == v[..i + 1] + [d];
      decision := MoreRestrictive(decision, d);
    }
    assert v[..|specs| + 1] == v;
  }

  lemma BuiltInFirst(d: Decision)
    ensures FirstStrictest([d], MoreRestrictive(Allow, d))
  {
    assert [d][0] == MoreRestrictive(Allow, d);
  }

  /** An advance is allowed exactly when the built-in rule and every bound hook allow
      it; otherwise the answer is the verdict of one of them. */
  lemma AllowedByAll(
    refs: RefMap, store: Store, e: Event, approval: HookSpec -> Decision, specs: seq<HookSpec>, d: Decision)
    requires FirstStrictest(Verdicts(refs, store, e, approval, specs), d)
    ensures d.Allow? <==>
            TimelineAllows(refs, store, e) && forall h :: h in specs ==> HookVerdict(refs, store, e, approval, h).Allow?
    ensures !TimelineAllows(refs, store, e) ==> d.Deny?
    ensures d.Deny? <==> !TimelineAllows(refs, store, e) || exists h :: h in specs && Denies(approval, h)
    ensures d.RequiresApproval? ==> forall h :: h in specs ==> !Denies(approval, h)
    ensures !d.Allow? && TimelineAllows(refs, store, e) ==>
              exists h :: h in specs && h.kind != "timeline-policy" && d == approval(h)
  {
    hide TimelineAllows, Verdicts;
    var v := Verdicts(refs, store, e, approval, specs);
    VerdictsAre(refs, store, e, approval, specs);
    forall h | h in specs ensures Rank(HookVerdict(refs, store, e, approval, h)) <= Rank(d) {
      var i :| 0 <= i < |specs| && specs[i] == h;
      assert v[i + 1] == HookVerdict(refs, store, e, approval, h);
    }
    var i :| 0 <= i < |v| && v[i] == d;
    if i > 0 { assert specs[i - 1] in specs && d == HookVerdict(refs, store, e, approval, specs[i - 1]); }
  }

  /** A hook other than the built-in one denies. */
  ghost predicate Denies(approval: HookSpec -> Decision, h: HookSpec) {
    h.kind != "timeline-policy" && approval(h).Deny?
  }

  lemma VerdictsAre(refs: RefMap, store: Store, e: Event, approval: HookSpec -> Decision, specs: seq<HookSpec>)
    ensures var v := Verdicts(refs, store, e, approval, specs);
            && v[0] == TimelineVerdict(refs, store, e)
            && forall i :: 0 <= i < |specs| ==> v[i + 1] == HookVerdict(refs, store, e, approval, specs[i])
  {
    hide TimelineVerdict, HookVerdict;
  }
}
