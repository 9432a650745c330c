/** Advancing a timeline as a concurrent protocol: check the offered snapshot, read
    the head, check what would be removed, evaluate policy, and swap the head. */
module Advance {
  import opened Wrappers
  import opened Objects
  import opened Refs
  import opened Lattice
  import opened Rules
  import opened Access
  import opened Trees
  import opened Walks
  import opened Hooks

  datatype Acl = Acl(lattice: LabelLattice, rules: seq<LabelRule>)

  /** Who advances which timeline to what, and from which head alone it may happen, if
      that is said. */
  datatype Request = Request(name: RefName, newHead: ObjectId, expectedOld: Option<ObjectId>, a: Accessor)

  /** The walk that enforcement itself uses. */
  function FullView(acl: Acl): View {
    View(acl.lattice, acl.rules, Privileged())
  }

  predicate IsSnapshot(store: Store, id: ObjectId) {
    id in store && store[id].Snapshot?
  }

  ghost predicate MayWrite(acl: Acl, a: Accessor, path: string) {
    Writable(acl.lattice, acl.rules, a, path)
  }

  ghost predicate MayWriteTimeline(acl: Acl, a: Accessor, name: RefName) {
    CanWrite(a, Accumulated(acl.lattice, acl.rules, TimelineResource(name)), TimelineResource(name))
  }

  /** The enforcement walk meets a file known by this path. */
  ghost predicate HasFile(acl: Acl, store: Store, snap: ObjectId, path: string)
    requires IsSnapshot(store, snap)
  {
    HasPath(store, store[snap].root, path) && Shows(Some(FullView(acl)), path)
  }

  datatype AdvanceError =
    | NotATimeline
    | TimelineDenied
    | SnapshotMissing
    | Unwalkable
    | PathDenied(path: string)
    | TimelineMissing
    | StaleHead
    | RemovedDenied(path: string)
    | RegistryBroken
    | PolicyDenied(reason: string)
    | ApprovalRequired(reason: string, needed: nat)
    | Lost(error: RefError)

  // ----------------------------------------------------------------------
  // The checks
  // ----------------------------------------------------------------------

  /** The offered snapshot passed, and `paths` is what the walk found in it. */
  ghost predicate Offered(acl: Acl, store: Store, q: Request, paths: Files) {
    && MayWriteTimeline(acl, q.a, q.name)
    && IsSnapshot(store, q.newHead)
    && !TooDeep(store, store[q.newHead].root)
    && Walked(store, store[q.newHead].root, Some(FullView(acl)), paths)
    && (forall p :: p in paths ==> MayWrite(acl, q.a, p))
  }

  /** The same, read off the trees. */
  ghost predicate MayOffer(acl: Acl, store: Store, q: Request) {
    && MayWriteTimeline(acl, q.a, q.name)
    && IsSnapshot(store, q.newHead)
    && !TooDeep(store, store[q.newHead].root)
    && (forall p :: HasFile(acl, store, q.newHead, p) ==> MayWrite(acl, q.a, p))
  }

  /** Why an offer is refused. */
  ghost predicate OfferFault(acl: Acl, store: Store, q: Request, e: AdvanceError) {
    match e
    case TimelineDenied => !MayWriteTimeline(acl, q.a, q.name)
    case SnapshotMissing => MayWriteTimeline(acl, q.a, q.name) && !IsSnapshot(store, q.newHead)
    case Unwalkable => IsSnapshot(store, q.newHead) && TooDeep(store, store[q.newHead].root)
    case PathDenied(p) => IsSnapshot(store, q.newHead) && !MayWrite(acl, q.a, p) && HasFile(acl, store, q.newHead, p)
    case _ => false
  }

  /** The first path of a list the accessor may not write. */
  method FindDenied(acl: Acl, a: Accessor, paths: seq<string>) returns (r: Option<string>)
    ensures r.None? <==> forall p :: p in paths ==> MayWrite(acl, a, p)
    ensures r.Some? ==> r.value in paths && !MayWrite(acl, a, r.value)
  {
    hide Writable;
    for i := 0 to |paths|
      invariant forall k :: 0 <= k < i ==> MayWrite(acl, a, paths[k])
    {
      var ok := IsWritable(acl.lattice, acl.rules, a, paths[i]);
      assert paths[i] in paths;
      if !ok { return Some(paths[i]); }
    }
    r := None;
  }

  method CanWriteTimeline(acl: Acl, a: Accessor, name: RefName) returns (r: bool)
    ensures r <==> MayWriteTimeline(acl, a, name)
  {
    hide Accumulated, CanWrite, Validated;
    var lab := LabelFor(acl.rules, acl.lattice, TimelineResource(name));
    var t := EvalCap(a, lab, TimelineResource(name), Write);
    r := t.allowed;
  }

  /** Moving a timeline takes a write clearance that bears on the timeline's own name
      and dominates the label the timeline rules give it, whatever the path rules say. */
  lemma TimelineWriteMeans(acl: Acl, a: Accessor, name: RefName, x: Label)
    requires Validated(acl.lattice) && IsEffective(acl.lattice, Named(acl.rules, TimelineResource(name)), x)
    ensures MayWriteTimeline(acl, a, name) <==>
            exists c ::
              && c in a.clearances && c.cap.write && Bears(c, TimelineResource(name))
              && Above(a.lattice, c.ceiling, x) && (a.confined ==> c.ceiling == x)
  {
    hide Validated, Above, CanWrite, Bears, Accumulated, IsEffective, Named;
    LabelIs(acl.lattice, acl.rules, TimelineResource(name), x);
    WriteMeans(a, x, TimelineResource(name));
  }

  /** Timeline, snapshot and per-path write checks on what is offered. */
  method CheckOffer(acl: Acl, store: Store, ghost rank: ObjectId -> nat, q: Request)
    returns (r: Result<Files, AdvanceError>)
    requires Nested(store, rank)
    ensures r.Ok? <==> MayOffer(acl, store, q)
    ensures r.Ok? ==> Offered(acl, store, q, r.value)
    ensures r.Err? ==> OfferFault(acl, store, q, r.error)
  {
    hide MayWriteTimeline, MayWrite, TooDeep, Walked, Nested, HasFile, Offered, InOrder, WalkMap;
    var ok := CanWriteTimeline(acl, q.a, q.name);
    if !ok { return Err(TimelineDenied); }
    if q.newHead !in store || !store[q.newHead].Snapshot? { return Err(SnapshotMissing); }
    var walk := WalkTreeFiltered(store, FullView(acl), store[q.newHead].root, rank);
    if walk.Err? { return Err(Unwalkable); }
    OfferIs(acl, store, q, walk.value);
    var denied := FindDenied(acl, q.a, InOrder(walk.value.Keys));
    if denied.Some? { return Err(PathDenied(denied.value)); }
    r := Ok(walk.value);
  }

  lemma OfferIs(acl: Acl, store: Store, q: Request, paths: Files)
    requires MayWriteTimeline(acl, q.a, q.name) && IsSnapshot(store, q.newHead)
    requires !TooDeep(store, store[q.newHead].root)
    requires Walked(store, store[q.newHead].root, Some(FullView(acl)), paths)
    ensures (forall p :: p in paths ==> MayWrite(acl, q.a, p)) <==> Offered(acl, store, q, paths)
    ensures MayOffer(acl, store, q) <==> Offered(acl, store, q, paths)
    ensures forall p :: p in paths <==> HasFile(acl, store, q.newHead, p)
  {
    hide MayWriteTimeline, MayWrite, TooDeep, Walked, HasFile;
    WalkHolds(acl, store, q.newHead, paths);
  }

  lemma WalkHolds(acl: Acl, store: Store, snap: ObjectId, paths: Files)
    requires IsSnapshot(store, snap) && Walked(store, store[snap].root, Some(FullView(acl)), paths)
    ensures forall p :: p in paths <==> HasFile(acl, store, snap, p)
  {
    hide HasPath, FileOf, Shows;
  }

  /** Every path the old head has and the offered snapshot lacks may be written. */
  ghost predicate Cleared(acl: Acl, store: Store, oldHead: ObjectId, a: Accessor, paths: Files) {
    IsSnapshot(store, oldHead) ==>
      && !TooDeep(store, store[oldHead].root)
      && (forall p :: HasFile(acl, store, oldHead, p) && p !in paths ==> MayWrite(acl, a, p))
  }

  /** Why a removal is refused. */
  ghost predicate RemovalFault(acl: Acl, store: Store, oldHead: ObjectId, a: Accessor, paths: Files, e: AdvanceError) {
    && IsSnapshot(store, oldHead)
    && match e
       case Unwalkable => TooDeep(store, store[oldHead].root)
       case RemovedDenied(p) => p !in paths && !MayWrite(acl, a, p) && HasFile(acl, store, oldHead, p)
       case _ => false
  }

  method CheckRemoved(
    acl: Acl, store: Store, ghost rank: ObjectId -> nat, oldHead: ObjectId, a: Accessor, paths: Files)
    returns (why: Option<AdvanceError>)
    requires Nested(store, rank)
    ensures why.None? <==> Cleared(acl, store, oldHead, a, paths)
    ensures why.Some? ==> RemovalFault(acl, store, oldHead, a, paths, why.value)
  {
    hide MayWrite, TooDeep, Walked, Nested, HasFile, InOrder, WalkMap;
    if oldHead in store && store[oldHead].Snapshot? {
      var walk := WalkTreeFiltered(store, FullView(acl), store[oldHead].root, rank);
      if walk.Err? { return Some(Unwalkable); }
      WalkHolds(acl, store, oldHead, walk.value);
      var gone := InOrder(walk.value.Keys - paths.Keys);
      var denied := FindDenied(acl, a, gone);
      if denied.Some? { return Some(RemovedDenied(denied.value)); }
    }
    why := None;
  }

  /** The registry resolves and nothing it binds objects. */
  ghost predicate PolicyAllows(
    refs: RefMap, store: Store, local: seq<HookSpec>, approval: HookSpec -> Decision, e: Event)
  {
    && TimelineAllows(refs, store, e)
    && exists specs ::
         Bound(refs, store, local, specs) && forall h :: h in specs ==> HookVerdict(refs, store, e, approval, h).Allow?
  }

  /** Why policy refuses: the registry does not resolve, a hook denies, or one that
      is bound asks for exactly these approvals. */
  ghost predicate PolicyFault(
    refs: RefMap, store: Store, local: seq<HookSpec>, approval: HookSpec -> Decision, e: Event, why: AdvanceError)
  {
    match why
    case RegistryBroken => forall specs :: !Bound(refs, store, local, specs)
    case PolicyDenied(reason) =>
      TimelineVerdict(refs, store, e).Deny? || Answers(refs, store, local, approval, Deny(reason))
    case ApprovalRequired(reason, needed) =>
      TimelineAllows(refs, store, e) && Answers(refs, store, local, approval, RequiresApproval(reason, needed))
    case _ => false
  }

  /** Some bound hook gives this verdict. */
  ghost predicate Answers(
    refs: RefMap, store: Store, local: seq<HookSpec>, approval: HookSpec -> Decision, d: Decision)
  {
    exists specs, h :: Bound(refs, store, local, specs) && h in specs && approval(h) == d
  }

  method CheckPolicy(refs: RefMap, store: Store, local: seq<HookSpec>, approval: HookSpec -> Decision, e: Event)
    returns (why: Option<AdvanceError>)
    ensures why.None? <==> PolicyAllows(refs, store, local, approval, e)
    ensures why.Some? ==> PolicyFault(refs, store, local, approval, e, why.value)
  {
    hide TimelineAllows, HookVerdict, FirstStrictest, Verdicts;
    var specs := Registry(refs, store, local);
    if specs.None? { return Some(RegistryBroken); }
    assert forall s :: Bound(refs, store, local, s) ==> s == specs.value;
    var d := Evaluate(refs, store, e, approval, specs.value);
    AllowedByAll(refs, store, e, approval, specs.value, d);
    match d {
      case Allow => why := None;
      case Deny(reason) => why := Some(PolicyDenied(reason));
      case RequiresApproval(reason, needed) => why := Some(ApprovalRequired(reason, needed));
    }
  }

  /** The swap succeeds exactly when the head is still the one that was read. */
  lemma SwapHead(refs: RefMap, name: RefName, oldHead: ObjectId, newHead: ObjectId)
    requires name in refs && refs[name].TimelineRef?
    ensures RunOps(refs, [AdvanceHeadIf(name, oldHead, newHead)]) ==
            if refs[name].timeline.head != oldHead then Err(TransactionConflict)
            else Ok(refs[name := TimelineRef(refs[name].timeline.(head := newHead))])
  {
    var ops := [AdvanceHeadIf(name, oldHead, newHead)];
    assert ops[..|ops| - 1] == [];
    assert RunOps(refs, ops) == RunOp(refs, ops[0]);
  }

  ghost predicate HeadIs(refs: RefMap, name: RefName, head: ObjectId) {
    name in refs && refs[name].TimelineRef? && refs[name].timeline.head == head
  }

  /** The timeline at a name; a tag there is an error. */
  method GetTimeline(refs: RefMap, name: RefName) returns (r: Result<Option<Timeline>, RefError>)
    ensures r.Err? <==> name in refs && refs[name].TagRef?
    ensures r.Err? ==> r.error == WrongRefKind
    ensures r.Ok? ==> (r.value.Some? <==> name in refs)
    ensures r.Ok? && r.value.Some? ==>
        refs[name] == TimelineRef(r.value.value) && HeadIs(refs, name, r.value.value.head)
  {
    match Get(refs, name) {
      case Some(TimelineRef(t)) => r := Ok(Some(t));
      case Some(TagRef(_)) => r := Err(WrongRefKind);
      case None => r := Ok(None);
    }
  }

  // ----------------------------------------------------------------------
  // One advance
  // ----------------------------------------------------------------------

  class TimelineRepository {
    const acl: Acl
    const store: Store
    const refs: RefStore
    const local: seq<HookSpec>

    constructor (acl: Acl, store: Store, refs: RefStore, local: seq<HookSpec>)
      ensures this.acl == acl && this.store == store && this.refs == refs && this.local == local
    {
      this.acl, this.store, this.refs, this.local := acl, store, refs, local;
    }

    /** Everything an advance is subject to, when nothing interferes. */
    ghost predicate MayAdvance(q: Request, approval: HookSpec -> Decision)
      reads refs
    {
      && MayOffer(acl, store, q)
      && exists head :: HeadIs(refs.refs, q.name, head) && MayMove(q, approval, head)
    }

    /** The part that depends on the head. */
    ghost predicate MayMove(q: Request, approval: HookSpec -> Decision, head: ObjectId)
      reads refs
    {
      && (q.expectedOld.Some? ==> head == q.expectedOld.value)
      && Removable(q, head)
      && PolicyAllows(refs.refs, store, local, approval, Event(q.name, head, q.newHead))
    }

    /** Every path the head has and the offered snapshot lacks may be written. */
    ghost predicate Removable(q: Request, head: ObjectId) {
      && IsSnapshot(store, q.newHead)
      && (IsSnapshot(store, head) ==>
            && !TooDeep(store, store[head].root)
            && (forall p ::
                  HasFile(acl, store, head, p) && !HasFile(acl, store, q.newHead, p) ==> MayWrite(acl, q.a, p)))
    }

    /** What an error says is so. */
    ghost predicate Fault(q: Request, approval: HookSpec -> Decision, e: AdvanceError)
      reads refs
    {
      if q.name in refs.refs && refs.refs[q.name].TagRef? then e == NotATimeline
      else
        || OfferFault(acl, store, q, e)
        || (e == TimelineMissing && q.name !in refs.refs)
        || exists head :: HeadIs(refs.refs, q.name, head) && HeadFault(q, approval, head, e)
    }

    ghost predicate HeadFault(q: Request, approval: HookSpec -> Decision, head: ObjectId, e: AdvanceError)
      reads refs
    {
      || (e == StaleHead && q.expectedOld.Some? && q.expectedOld.value != head)
      || (exists paths :: Offered(acl, store, q, paths) && RemovalFault(acl, store, head, q.a, paths, e))
      || PolicyFault(refs.refs, store, local, approval, Event(q.name, head, q.newHead), e)
    }

    /** One advance without interference: the head moves or nothing changes, and it
        moves exactly when every check allows it. */
    method AdvanceTimelineExpecting(ghost rank: ObjectId -> nat, q: Request, approval: HookSpec -> Decision)
      returns (r: Result<(), AdvanceError>)
      requires Nested(store, rank)
      modifies refs
      ensures r.Ok? <==> old(MayAdvance(q, approval))
      ensures r.Err? ==> refs.refs == old(refs.refs) && old(Fault(q, approval, r.error))
      ensures r.Ok? ==> q.name in old(refs.refs) && old(refs.refs)[q.name].TimelineRef?
      ensures r.Ok? ==>
                refs.refs == old(refs.refs)[q.name := TimelineRef(old(refs.refs)[q.name].timeline.(head := q.newHead))]
    {
      hide *;
      var audited := GetTimeline(refs.refs, q.name);
      if audited.Err? {
        WrongKind(q, approval);
        return Err(NotATimeline);
      }
      var offer := CheckOffer(acl, store, rank, q);
      if offer.Err? {
        Refused(q, approval, offer.error);
        return Err(offer.error);
      }
      var timeline := GetTimeline(refs.refs, q.name);
      if timeline.value.None? {
        Refused(q, approval, TimelineMissing);
        return Err(TimelineMissing);
      }
      var head := timeline.value.value.head;
      AtHead(q, approval, head, offer.value);
      if q.expectedOld.Some? && head != q.expectedOld.value {
        FaultHead(q, approval, head, offer.value, StaleHead);
        return Err(StaleHead);
      }
      var why := CheckRemoved(acl, store, rank, head, q.a, offer.value);
      if why.Some? {
        FaultHead(q, approval, head, offer.value, why.value);
        return Err(why.value);
      }
      why := CheckPolicy(refs.refs, store, local, approval, Event(q.name, head, q.newHead));
      if why.Some? {
        FaultHead(q, approval, head, offer.value, why.value);
        return Err(why.value);
      }
      HeadIsTimeline(refs.refs, q.name, head);
      SwapHead(refs.refs, q.name, head, q.newHead);
      var done := refs.CommitTransaction([AdvanceHeadIf(q.name, head, q.newHead)]);
      match done {
        case Ok(_) => r := Ok(());
        case Err(e) => r := Err(Lost(e));
      }
    }

    lemma WrongKind(q: Request, approval: HookSpec -> Decision)
      requires q.name in refs.refs && refs.refs[q.name].TagRef?
      ensures Fault(q, approval, NotATimeline) && !MayAdvance(q, approval)
    {
      hide MayOffer, MayMove;
    }

    lemma Refused(q: Request, approval: HookSpec -> Decision, e: AdvanceError)
      requires !(q.name in refs.refs && refs.refs[q.name].TagRef?)
      ensures OfferFault(acl, store, q, e) ==> Fault(q, approval, e)
      ensures q.name !in refs.refs && e == TimelineMissing ==> Fault(q, approval, e)
      ensures q.name !in refs.refs || !MayOffer(acl, store, q) ==> !MayAdvance(q, approval)
    {
      hide OfferFault, HeadFault, MayOffer, MayMove;
    }

    /** With the offer accepted, what is left to check at the head. */
    lemma AtHead(q: Request, approval: HookSpec -> Decision, head: ObjectId, paths: Files)
      requires HeadIs(refs.refs, q.name, head) && Offered(acl, store, q, paths) && MayOffer(acl, store, q)
      ensures MayAdvance(q, approval) <==>
              && (q.expectedOld.Some? ==> head == q.expectedOld.value)
              && Cleared(acl, store, head, q.a, paths)
              && PolicyAllows(refs.refs, store, local, approval, Event(q.name, head, q.newHead))
    {
      hide TooDeep, HasFile, MayWrite, MayWriteTimeline, Walked, PolicyAllows, MayOffer;
      WalkHolds(acl, store, q.newHead, paths);
      assert MayAdvance(q, approval) <==> MayMove(q, approval, head);
    }

    lemma FaultHead(q: Request, approval: HookSpec -> Decision, head: ObjectId, paths: Files, e: AdvanceError)
      requires HeadIs(refs.refs, q.name, head) && Offered(acl, store, q, paths)
      requires
        || RemovalFault(acl, store, head, q.a, paths, e)
        || (e == StaleHead && q.expectedOld.Some? && q.expectedOld.value != head)
        || PolicyFault(refs.refs, store, local, approval, Event(q.name, head, q.newHead), e)
      ensures Fault(q, approval, e)
    {
      hide OfferFault, RemovalFault, PolicyFault, Offered;
      assert HeadFault(q, approval, head, e);
    }
  }

  lemma HeadIsTimeline(refs: RefMap, name: RefName, head: ObjectId)
    requires HeadIs(refs, name, head)
    ensures name in refs && refs[name].TimelineRef? && refs[name].timeline.head == head
  {
  }
}
