/** Adopting a policy root as a concurrent protocol: verify the offered chain, read
    the pin, check that the pin lies on the chain, and move it by compare-and-swap. */
module Adoption {
  import opened Wrappers
  import opened Objects
  import opened Refs
  import opened Authority

  function PinAt(tip: ObjectId): Ref {
    TagRef(Tag(tip, 0, None))
  }

  function PinOps(current: Option<Ref>, tip: ObjectId): seq<RefOp> {
    [Expect(POLICY_ROOT_REF, current), Set(POLICY_ROOT_REF, PinAt(tip))]
  }

  /** The swap succeeds exactly when the pin is still what was read. */
  lemma SwapEffect(refs: RefMap, current: Option<Ref>, tip: ObjectId)
    ensures RunOps(refs, PinOps(current, tip)) ==
            if Get(refs, POLICY_ROOT_REF) == current then Ok(refs[POLICY_ROOT_REF := PinAt(tip)])
                else Err(TransactionConflict)
  {
    var ops := PinOps(current, tip);
    assert ops[..1] == [Expect(POLICY_ROOT_REF, current)] && ops[..1][..0] == [];
    assert ops[..|ops| - 1] == ops[..1];
    assert RunOps(refs, ops[..1]) == RunOp(refs, ops[0]);
  }

  /** An adoption may replace this pin: none at all, or a tag on the tip's chain. */
  ghost predicate MayReplace(store: Store, tip: ObjectId, current: Option<Ref>) {
    match current
    case None => true
    case Some(TagRef(t)) => OnChain(store, tip, t.target)
    case Some(TimelineRef(_)) => false
  }

  /** Adoption agrees with reconciliation: the winner may replace the loser's pin, the
      loser may not replace the winner's, and neither of two diverged tips the other's. */
  lemma WinnerMayReplace(store: Store, a: ObjectId, b: ObjectId)
    requires HasChain(store, a) && HasChain(store, b)
    ensures Preference(store, a, b) == Left <==> MayReplace(store, a, Some(PinAt(b)))
    ensures a != b ==> (Preference(store, a, b) == Right <==> MayReplace(store, b, Some(PinAt(a))))
    ensures Preference(store, a, b) == Left && a != b ==> !MayReplace(store, b, Some(PinAt(a)))
  {
    hide OnChain;
    PreferenceIs(store, a, b);
  }

  lemma PreferenceIs(store: Store, a: ObjectId, b: ObjectId)
    requires HasChain(store, a) && HasChain(store, b)
    ensures Preference(store, a, b) == Left <==> OnChain(store, a, b)
    ensures a != b ==> (Preference(store, a, b) == Right <==> OnChain(store, b, a))
  {
    var ca :| IsChain(store, a, ca);
    var cb :| IsChain(store, b, cb);
    LongerWins(store, a, ca, b, cb);
    OnChainIs(store, a, ca, b);
    OnChainIs(store, b, cb, a);
  }

  datatype AdoptError =
    | Rejected(reason: Reason)
    | NotFastForward
    | MalformedPin
    | ChainLost(chainError: ChainError)
    | Lost(error: RefError)

  /** Why a pin may not be replaced. */
  ghost predicate PinFault(store: Store, tip: ObjectId, current: Option<Ref>, e: AdoptError) {
    match e
    case MalformedPin => current.Some? && current.value.TimelineRef?
    case NotFastForward => current.Some? && current.value.TagRef? && HasChain(store, tip) &&
        !OnChain(store, tip, current.value.tag.target)
    case ChainLost(why) => current.Some? && current.value.TagRef? && ChainFails(store, tip, why)
    case _ => false
  }

  /** The anti-rollback check against the pin that was read. */
  method CheckPin(store: Store, tip: ObjectId, current: Option<Ref>) returns (why: Option<AdoptError>)
    ensures why.None? <==> MayReplace(store, tip, current)
    ensures why.Some? ==> PinFault(store, tip, current, why.value)
    ensures current.None? ==> why == None
    ensures current.Some? && current.value.TimelineRef? ==> why == Some(MalformedPin)
    ensures current.Some? && current.value.TagRef? ==>
              (why == None <==> exists chain :: IsChain(store, tip, chain) && current.value.tag.target in chain)
  {
    hide IsChain, ChainFails;
    match current {
      case None => return None;
      case Some(TimelineRef(_)) => return Some(MalformedPin);
      case Some(TagRef(t)) =>
        var chain := ChainOf(store, tip);
        if chain.Err? { return Some(ChainLost(chain.error)); }
        OnChainIs(store, tip, chain.value, t.target);
        if t.target !in chain.value { return Some(NotFastForward); }
        return None;
    }
  }

  class PolicyRepository {
    const store: Store
    const refs: RefStore

    constructor (store: Store, refs: RefStore)
      ensures this.store == store && this.refs == refs
    {
      this.store, this.refs := store, refs;
    }

    /** One adoption without interference: the pin moves exactly when the chain is
        accepted and the current pin may be replaced. */
    method AdoptPolicyRoot(verify: Scheme, creds: Credentials, tip: ObjectId) returns (r: Result<(), AdoptError>)
      modifies refs
      ensures r.Ok? <==>
          Accepted(store, verify, creds, tip) && MayReplace(store, tip, Get(old(refs.refs), POLICY_ROOT_REF))
      ensures r.Err? && r.error.Rejected? ==> Justified(store, verify, creds, tip, r.error.reason)
      ensures r.Err? && !r.error.Rejected? ==>
                && Accepted(store, verify, creds, tip)
                && PinFault(store, tip, Get(old(refs.refs), POLICY_ROOT_REF), r.error)
      ensures r.Ok? ==> refs.refs == old(refs.refs)["refs/policy/root" := TagRef(Tag(tip, 0, None))]
      ensures r.Err? ==> refs.refs == old(refs.refs)
    {
      hide Accepted, MayReplace, RunOps, OnChain, HasChain, ChainFails, Justified;
      var v := VerifyChain(store, verify, creds, tip);
      if v.Reject? { return Err(Rejected(v.reason)); }
      var current := Get(refs.refs, POLICY_ROOT_REF);
      var why := CheckPin(store, tip, current);
      if why.Some? { return Err(why.value); }
      SwapEffect(refs.refs, current, tip);
      var done := refs.CommitTransaction(PinOps(current, tip));
      match done {
        case Ok(_) => r := Ok(());
        case Err(e) => r := Err(Lost(e));
      }
    }
  }

  // ----------------------------------------------------------------------
  // Interleavings
  // ----------------------------------------------------------------------

  /** How far one adoption has come. */
  datatype Ticket =
    | Verified(tip: ObjectId, creds: Credentials)
    | Seen(tip: ObjectId, creds: Credentials, current: Option<Ref>)
    | Checked(tip: ObjectId, creds: Credentials, current: Option<Ref>)

  /** A pin and the credentials it was verified under; the pin found at the start has none. */
  datatype Pin = Pin(tip: ObjectId, creds: Option<Credentials>)

  datatype State = State(refs: RefMap, store: Store, tickets: map<nat, Ticket>, pins: seq<Pin>)

  datatype Step =
    | Verify(pid: nat, tip: ObjectId, creds: Credentials)
    | ReadPin(pid: nat)
    | Check(pid: nat)
    | Swap(pid: nat)
    | GiveUp(pid: nat)
    | Elsewhere

  /** One step of one adoption, or anything else the repository does: objects stored
      or collected, other refs moved. */
  ghost predicate Takes(universe: Store, verify: Scheme, s: State, step: Step, s': State) {
    match step
    case Verify(pid, tip, creds) =>
      pid !in s.tickets && Accepted(s.store, verify, creds, tip) &&
          s' == s.(tickets := s.tickets[pid := Verified(tip, creds)])
    case ReadPin(pid) =>
      && pid in s.tickets && s.tickets[pid].Verified?
      && var t := s.tickets[pid];
         s' == s.(tickets := s.tickets[pid := Seen(t.tip, t.creds, Get(s.refs, POLICY_ROOT_REF))])
    case Check(pid) =>
      && pid in s.tickets && s.tickets[pid].Seen? && MayReplace(s.store, s.tickets[pid].tip, s.tickets[pid].current)
      && var t := s.tickets[pid];
         s' == s.(tickets := s.tickets[pid := Checked(t.tip, t.creds, t.current)])
    case Swap(pid) =>
      && pid in s.tickets && s.tickets[pid].Checked?
      && var t := s.tickets[pid];
         var r := RunOps(s.refs, PinOps(t.current, t.tip));
         if r.Ok? then s' == State(r.value, s.store, s.tickets - {pid}, s.pins + [Pin(t.tip, Some(t.creds))])
         else s' == s.(tickets := s.tickets - {pid})
    case GiveUp(pid) => s' == s.(tickets := s.tickets - {pid})
    case Elsewhere =>
      && s'.tickets == s.tickets && s'.pins == s.pins
      && Extends(s'.store, universe) && Get(s'.refs, POLICY_ROOT_REF) == Get(s.refs, POLICY_ROOT_REF)
  }

  ghost predicate Starts(universe: Store, s: State) {
    && Extends(s.store, universe) && s.tickets == map[]
    && s.pins == match Get(s.refs, POLICY_ROOT_REF) { case Some(TagRef(t)) => [Pin(t.target, None)] case _ => [] }
  }

  ghost predicate IsRun(universe: Store, verify: Scheme, states: seq<State>, steps: seq<Step>) {
    && |states| == |steps| + 1 && Starts(universe, states[0])
    && forall i :: 0 <= i < |steps| ==> Takes(universe, verify, states[i], steps[i], states[i + 1])
  }

  /** An adoption on its own, as `AdoptPolicyRoot` makes it, is a run of this machine
      from the refs it finds to the refs it leaves. */
  lemma AdoptionIsRun(store: Store, verify: Scheme, creds: Credentials, tip: ObjectId, refs: RefMap)
    returns (states: seq<State>, steps: seq<Step>)
    requires Accepted(store, verify, creds, tip) && MayReplace(store, tip, Get(refs, POLICY_ROOT_REF))
    ensures IsRun(store, verify, states, steps)
    ensures states[0].refs == refs
    ensures states[|steps|].refs == refs[POLICY_ROOT_REF := PinAt(tip)]
    ensures |states[|steps|].pins| > 0 && states[|steps|].pins[|states[|steps|].pins| - 1] == Pin(tip, Some(creds))
  {
    hide Accepted, MayReplace, RunOps, PinOps;
    var current := Get(refs, POLICY_ROOT_REF);
    var pins := match current { case Some(TagRef(t)) => [Pin(t.target, None)] case _ => [] };
    SwapEffect(refs, current, tip);
    var idle := State(refs, store, map[], pins);
    steps := [Verify(0, tip, creds), ReadPin(0), Check(0), Swap(0)];
    states := [
      idle,
      idle.(tickets := map[0 := Verified(tip, creds)]),
      idle.(tickets := map[0 := Seen(tip, creds, current)]),
      idle.(tickets := map[0 := Checked(tip, creds, current)]),
      State(refs[POLICY_ROOT_REF := PinAt(tip)], store, map[], pins + [Pin(tip, Some(creds))])];
    forall i | 0 <= i < |steps| ensures Takes(store, verify, states[i], steps[i], states[i + 1]) {
    }
  }

  /** Every adopted pin was verified, and every earlier pin lies on its chain. */
  ghost predicate Lineage(universe: Store, verify: Scheme, pins: seq<Pin>) {
    && (forall j :: 0 <= j < |pins| && pins[j].creds.Some? ==>
        Accepted(universe, verify, pins[j].creds.value, pins[j].tip))
    && (forall j :: 0 < j < |pins| ==> pins[j].creds.Some?)
    && (forall i, j :: 0 <= i < j < |pins| ==> OnChain(universe, pins[j].tip, pins[i].tip))
  }

  ghost predicate TicketOk(universe: Store, verify: Scheme, t: Ticket) {
    && Accepted(universe, verify, t.creds, t.tip)
    && (t.Checked? ==> MayReplace(universe, t.tip, t.current))
  }

  /** The ref holds the newest pin. */
  ghost predicate Pinned(refs: RefMap, pins: seq<Pin>) {
    match Get(refs, POLICY_ROOT_REF)
    case None => pins == []
    case Some(TagRef(t)) => pins != [] && pins[|pins| - 1].tip == t.target
    case Some(TimelineRef(_)) => pins == []
  }

  ghost predicate Inv(universe: Store, verify: Scheme, s: State) {
    && Extends(s.store, universe)
    && (forall pid :: pid in s.tickets ==> TicketOk(universe, verify, s.tickets[pid]))
    && Pinned(s.refs, s.pins)
    && Lineage(universe, verify, s.pins)
  }

  /** Extending the lineage by a tip whose chain holds the newest pin. */
  lemma LineageStep(universe: Store, verify: Scheme, pins: seq<Pin>, tip: ObjectId, creds: Credentials)
    requires Lineage(universe, verify, pins) && Accepted(universe, verify, creds, tip)
    requires pins != [] ==> OnChain(universe, tip, pins[|pins| - 1].tip)
    ensures Lineage(universe, verify, pins + [Pin(tip, Some(creds))])
  {
    hide OnChain, Accepted;
    forall i | 0 <= i < |pins| ensures OnChain(universe, tip, pins[i].tip) {
      if i < |pins| - 1 { OnChainTrans(universe, tip, pins[|pins| - 1].tip, pins[i].tip); }
    }
  }

  lemma StepKeeps(universe: Store, verify: Scheme, s: State, step: Step, s': State)
    requires Inv(universe, verify, s) && Takes(universe, verify, s, step, s')
    ensures Inv(universe, verify, s')
    ensures s.pins <= s'.pins
  {
    hide OnChain, Accepted, RunOps, Lineage, PinOps;
    match step {
      case Verify(pid, tip, creds) =>
        AcceptedGrows(s.store, universe, verify, creds, tip);
      case Check(pid) =>
        var t := s.tickets[pid];
        if t.current.Some? &&
            t.current.value.TagRef? { OnChainGrows(s.store, universe, t.tip, t.current.value.tag.target); }
      case Swap(pid) =>
        var t := s.tickets[pid];
        SwapEffect(s.refs, t.current, t.tip);
        if RunOps(s.refs, PinOps(t.current, t.tip)).Ok? {
          LineageStep(universe, verify, s.pins, t.tip, t.creds);
        }
      case _ =>
    }
  }

  lemma StartsInv(universe: Store, verify: Scheme, s: State)
    requires Starts(universe, s)
    ensures Inv(universe, verify, s)
  {
  }

  /** In every interleaving: every pin ever set was chain-verified, and every earlier
      pin lies on the chain of every later one. */
  lemma {:induction false} AdoptionSafe(universe: Store, verify: Scheme, states: seq<State>, steps: seq<Step>, k: nat)
    requires IsRun(universe, verify, states, steps) && k < |states|
    ensures Inv(universe, verify, states[k])
    ensures Lineage(universe, verify, states[k].pins)
    ensures Pinned(states[k].refs, states[k].pins)
    decreases k
  {
    hide Takes, Starts, Lineage, Pinned;
    if k == 0 {
      StartsInv(universe, verify, states[0]);
    } else {
      AdoptionSafe(universe, verify, states, steps, k - 1);
      StepKeeps(universe, verify, states[k - 1], steps[k - 1], states[k]);
    }
  }

  /** Pins are never forgotten: the history at an earlier state is a prefix of a later one's. */
  lemma {:induction false} PinsGrow(
    universe: Store, verify: Scheme, states: seq<State>, steps: seq<Step>, i: nat, k: nat)
    requires IsRun(universe, verify, states, steps) && i <= k < |states|
    ensures states[i].pins <= states[k].pins
    decreases k
  {
    hide Takes, Starts, Inv;
    if i < k {
      PinsGrow(universe, verify, states, steps, i, k - 1);
      AdoptionSafe(universe, verify, states, steps, k - 1);
      StepKeeps(universe, verify, states[k - 1], steps[k - 1], states[k]);
    }
  }

  /** What the ref held at an earlier moment lies on the chain of what it holds later. */
  lemma NoRollback(
    universe: Store, verify: Scheme, states: seq<State>, steps: seq<Step>, i: nat, k: nat, a: Tag, b: Tag)
    requires IsRun(universe, verify, states, steps) && i <= k < |states|
    requires Get(states[i].refs, POLICY_ROOT_REF) == Some(TagRef(a)) &&
        Get(states[k].refs, POLICY_ROOT_REF) == Some(TagRef(b))
    ensures a.target == b.target || OnChain(universe, b.target, a.target)
  {
    hide Takes, Starts, OnChain, Accepted, IsRun;
    AdoptionSafe(universe, verify, states, steps, i);
    AdoptionSafe(universe, verify, states, steps, k);
    PinsGrow(universe, verify, states, steps, i, k);
    var p, q := states[i].pins, states[k].pins;
    assert q[|p| - 1] == p[|p| - 1];
  }
}
