/** Named refs, buffered transactions over them, and the ref store. */
module Refs {
  import opened Wrappers

  type RefName = string

  datatype Tag = Tag(target: ObjectId, createdAt: nat, message: Option<string>)

  datatype TimelinePolicy = FastForwardOnly | Append | Unrestricted

  datatype Timeline =
    Timeline(head: ObjectId, policy: TimelinePolicy, createdAt: nat, kind: string, expiresAt: Option<nat>)

  datatype Ref = TagRef(tag: Tag) | TimelineRef(timeline: Timeline)

  type RefMap = map<RefName, Ref>

  datatype RefError = AlreadyExists | NotFound | WrongRefKind | TransactionConflict

  datatype RefOp =
    | CreateTag(name: RefName, target: ObjectId, message: Option<string>, now: nat)
    | MoveTag(name: RefName, target: ObjectId)
    | CreateTimeline(
        name: RefName, head: ObjectId, policy: TimelinePolicy, now: nat, kind: string, expiresAt: Option<nat>)
    | AdvanceHead(name: RefName, newHead: ObjectId)
    | Set(name: RefName, value: Ref)
    | Delete(name: RefName)
    | Expect(name: RefName, expected: Option<Ref>)
    | AdvanceHeadIf(name: RefName, expectedOld: ObjectId, newHead: ObjectId)

  function Get(refs: RefMap, name: RefName): Option<Ref> {
    if name in refs then Some(refs[name]) else None
  }

  /** Writes one absolute value; `None` is a deletion. */
  function Put(refs: RefMap, name: RefName, value: Option<Ref>): RefMap {
    match value
    case Some(r) => refs[name := r]
    case None => refs - {name}
  }

  /** What one op writes under its name given the current value there; `None`
      inside `Ok` writes nothing. This is the rule of the single-ref calls. */
  function Write(current: Option<Ref>, op: RefOp): Result<Option<Option<Ref>>, RefError> {
    match op
    case CreateTag(_, target, message, now) =>
      if current.Some? then Err(AlreadyExists) else Ok(Some(Some(TagRef(Tag(target, now, message)))))
    case MoveTag(_, target) =>
      if current.None? then Err(NotFound)
      else if current.value.TimelineRef? then Err(WrongRefKind)
      else Ok(Some(Some(TagRef(current.value.tag.(target := target)))))
    case CreateTimeline(_, head, policy, now, kind, expiresAt) =>
      if current.Some? then Err(AlreadyExists)
      else Ok(Some(Some(TimelineRef(Timeline(head, policy, now, kind, expiresAt)))))
    case AdvanceHead(_, newHead) =>
      if current.None? then Err(NotFound)
      else if current.value.TagRef? then Err(WrongRefKind)
      else Ok(Some(Some(TimelineRef(current.value.timeline.(head := newHead)))))
    case Set(_, value) => Ok(Some(Some(value)))
    case Delete(_) => Ok(Some(None))
    case Expect(_, expected) => if current != expected then Err(TransactionConflict) else Ok(None)
    case AdvanceHeadIf(_, expectedOld, newHead) =>
      if current.None? then Err(NotFound)
      else if current.value.TagRef? then Err(WrongRefKind)
      else if current.value.timeline.head != expectedOld then Err(TransactionConflict)
      else Ok(Some(Some(TimelineRef(current.value.timeline.(head := newHead)))))
  }

  /** One op run directly on the ref map. */
  function RunOp(refs: RefMap, op: RefOp): Result<RefMap, RefError> {
    match Write(Get(refs, op.name), op)
    case Err(e) => Err(e)
    case Ok(None) => Ok(refs)
    case Ok(Some(v)) => Ok(Put(refs, op.name, v))
  }

  /** The ops run one at a time, stopping at the first failure. */
  function RunOps(refs: RefMap, ops: seq<RefOp>): Result<RefMap, RefError> {
    if ops == [] then Ok(refs)
    else
      match RunOps(refs, ops[..|ops| - 1])
      case Err(e) => Err(e)
      case Ok(r) => RunOp(r, ops[|ops| - 1])
  }

  /** Running a concatenation is running the parts in turn. */
  lemma {:induction false} RunConcat(refs: RefMap, a: seq<RefOp>, b: seq<RefOp>)
    ensures RunOps(refs, a + b) == match RunOps(refs, a) { case Err(e) => Err(e) case Ok(r) => RunOps(r, b) }
    decreases |b|
  {
    if b == [] {
      assert a + b == a;
    } else {
      RunConcat(refs, a, b[..|b| - 1]);
      assert (a + b)[..|a + b| - 1] == a + b[..|b| - 1];
    }
  }

  lemma {:induction false} RunPrefixFails(refs: RefMap, ops: seq<RefOp>, i: nat)
    requires i <= |ops| && RunOps(refs, ops[..i]).Err?
    ensures RunOps(refs, ops) == RunOps(refs, ops[..i])
  {
    RunConcat(refs, ops[..i], ops[i..]);
    assert ops[..i] + ops[i..] == ops;
  }

  // ----------------------------------------------------------------------
  // What the ops do, said of the ref map alone
  // ----------------------------------------------------------------------

  /** When an op is refused, and why. */
  ghost predicate Refuses(refs: RefMap, op: RefOp, e: RefError) {
    var n := op.name;
    match e
    case AlreadyExists => (op.CreateTag? || op.CreateTimeline?) && n in refs
    case NotFound => (op.MoveTag? || op.AdvanceHead? || op.AdvanceHeadIf?) && n !in refs
    case WrongRefKind =>
      || (op.MoveTag? && n in refs && refs[n].TimelineRef?)
      || ((op.AdvanceHead? || op.AdvanceHeadIf?) && n in refs && refs[n].TagRef?)
    case TransactionConflict =>
      || (op.AdvanceHeadIf? && n in refs && refs[n].TimelineRef? && refs[n].timeline.head != op.expectedOld)
      || (op.Expect? && op.expected.None? && n in refs)
      || (op.Expect? && op.expected.Some? && (n !in refs || refs[n] != op.expected.value))
  }

  /** An op fails exactly when it is refused, with that reason. */
  lemma OpFails(refs: RefMap, op: RefOp)
    ensures forall e :: RunOp(refs, op) == Err(e) <==> Refuses(refs, op, e)
  {
  }

  /** What an op that is not refused makes of the map. */
  lemma OpEffect(refs: RefMap, op: RefOp)
    requires RunOp(refs, op).Ok?
    ensures forall n :: n != op.name ==> Get(RunOp(refs, op).value, n) == Get(refs, n)
    ensures op.CreateTag? ==> RunOp(refs, op).value == refs[op.name := TagRef(Tag(op.target, op.now, op.message))]
    ensures op.CreateTimeline? ==>
              var t := Timeline(op.head, op.policy, op.now, op.kind, op.expiresAt);
              RunOp(refs, op).value == refs[op.name := TimelineRef(t)]
    ensures op.MoveTag? ==>
              && op.name in refs && refs[op.name].TagRef?
              && var t := refs[op.name].tag;
                 RunOp(refs, op).value == refs[op.name := TagRef(Tag(op.target, t.createdAt, t.message))]
    ensures op.AdvanceHead? || op.AdvanceHeadIf? ==>
              && op.name in refs && refs[op.name].TimelineRef?
              && var t := refs[op.name].timeline;
                 var t' := Timeline(op.newHead, t.policy, t.createdAt, t.kind, t.expiresAt);
                 RunOp(refs, op).value == refs[op.name := TimelineRef(t')]
    ensures op.Set? ==> RunOp(refs, op).value == refs[op.name := op.value]
    ensures op.Delete? ==> RunOp(refs, op).value == refs - {op.name}
    ensures op.Expect? ==> RunOp(refs, op).value == refs
  {
  }

  /** The same ref but for where it points. */
  ghost predicate SameButTarget(a: Ref, b: Ref) {
    if a.TagRef? then b.TagRef? && a.tag.createdAt == b.tag.createdAt && a.tag.message == b.tag.message
    else
      && b.TimelineRef? && a.timeline.policy == b.timeline.policy && a.timeline.createdAt == b.timeline.createdAt
      && a.timeline.kind == b.timeline.kind && a.timeline.expiresAt == b.timeline.expiresAt
  }

  ghost predicate Names(ops: seq<RefOp>, n: RefName) {
    exists op :: op in ops && op.name == n
  }

  /** Some op replaces or removes the ref outright. */
  ghost predicate Replaces(ops: seq<RefOp>, n: RefName) {
    exists op :: op in ops && op.name == n && (op.Set? || op.Delete?)
  }

  /** What a transaction leaves alone: refs it does not name, and of those it names all
      but where they point, unless it sets or deletes them. */
  ghost predicate Spares(ops: seq<RefOp>, before: RefMap, after: RefMap) {
    && (forall n :: !Names(ops, n) ==> Get(after, n) == Get(before, n))
    && (forall n :: n in before && !Replaces(ops, n) ==> n in after && SameButTarget(before[n], after[n]))
  }

  lemma NamesNext(ops: seq<RefOp>, op: RefOp, n: RefName)
    ensures Names(ops + [op], n) <==> Names(ops, n) || op.name == n
    ensures Replaces(ops + [op], n) <==> Replaces(ops, n) || (op.name == n && (op.Set? || op.Delete?))
  {
    assert op in ops + [op];
    assert forall x :: x in ops ==> x in ops + [op];
  }

  lemma OpSpares(refs: RefMap, op: RefOp, n: RefName)
    requires RunOp(refs, op).Ok? && n in refs && !(op.name == n && (op.Set? || op.Delete?))
    ensures n in RunOp(refs, op).value && SameButTarget(refs[n], RunOp(refs, op).value[n])
  {
    OpEffect(refs, op);
    OpFails(refs, op);
    assert !Refuses(refs, op, AlreadyExists);
    assert Get(refs, n) == Some(refs[n]);
  }

  lemma {:induction false} RunSpares(refs: RefMap, ops: seq<RefOp>)
    requires RunOps(refs, ops).Ok?
    ensures Spares(ops, refs, RunOps(refs, ops).value)
  {
    hide RunOp;
    if ops == [] {
      assert forall n :: n in refs ==> SameButTarget(refs[n], refs[n]);
    } else {
      var front, op := ops[..|ops| - 1], ops[|ops| - 1];
      assert ops == front + [op];
      RunSpares(refs, front);
      var mid := RunOps(refs, front).value;
      var after := RunOps(refs, ops).value;
      OpEffect(mid, op);
      forall n ensures !Names(ops, n) ==> Get(after, n) == Get(refs, n) { NamesNext(front, op, n); }
      forall n | n in refs && !Replaces(ops, n) ensures n in after && SameButTarget(refs[n], after[n]) {
        NamesNext(front, op, n);
        OpSpares(mid, op, n);
      }
    }
  }

  /** The op at `i` is refused after the ops before it have run. */
  ghost predicate FailsAt(refs: RefMap, ops: seq<RefOp>, i: nat, e: RefError)
    requires i < |ops|
  {
    RunOps(refs, ops[..i]).Ok? && Refuses(RunOps(refs, ops[..i]).value, ops[i], e)
  }

  /** A transaction fails exactly when some op is refused after the ops before it have
      run, and then with that op's reason. */
  lemma {:induction false} RunFails(refs: RefMap, ops: seq<RefOp>, e: RefError)
    ensures RunOps(refs, ops) == Err(e) <==> exists i :: 0 <= i < |ops| && FailsAt(refs, ops, i, e)
  {
    hide RunOp, Refuses;
    if ops != [] {
      var front, op := ops[..|ops| - 1], ops[|ops| - 1];
      RunFails(refs, front, e);
      forall i | 0 <= i < |front| ensures FailsAt(refs, ops, i, e) <==> FailsAt(refs, front, i, e) {
        assert ops[..i] == front[..i] && ops[i] == front[i];
      }
      if RunOps(refs, front).Ok? { OpFails(RunOps(refs, front).value, op); }
      hide FailsAt;
      LastFails(refs, ops, e);
    }
  }

  lemma LastFails(refs: RefMap, ops: seq<RefOp>, e: RefError)
    requires ops != []
    ensures FailsAt(refs, ops, |ops| - 1, e) <==>
            RunOps(refs, ops[..|ops| - 1]).Ok? && Refuses(RunOps(refs, ops[..|ops| - 1]).value, ops[|ops| - 1], e)
  {
  }

  // ----------------------------------------------------------------------
  // Plans of absolute values
  // ----------------------------------------------------------------------

  type Plan = seq<(RefName, Option<Ref>)>

  function ApplyPlan(refs: RefMap, plan: Plan): RefMap {
    if plan == [] then refs
    else Put(ApplyPlan(refs, plan[..|plan| - 1]), plan[|plan| - 1].0, plan[|plan| - 1].1)
  }

  /** The last value a plan writes under each name. */
  ghost function Finals(plan: Plan): map<RefName, Option<Ref>> {
    if plan == [] then map[] else Finals(plan[..|plan| - 1])[plan[|plan| - 1].0 := plan[|plan| - 1].1]
  }

  /** A plan read through: its own value where it has one, the map's elsewhere. */
  ghost predicate Overlaid(refs: RefMap, overlay: map<RefName, Option<Ref>>, after: RefMap) {
    forall n :: Get(after, n) == if n in overlay then overlay[n] else Get(refs, n)
  }

  lemma {:induction false} ApplyOverlaid(refs: RefMap, plan: Plan)
    ensures Overlaid(refs, Finals(plan), ApplyPlan(refs, plan))
  {
    if plan != [] {
      ApplyOverlaid(refs, plan[..|plan| - 1]);
    }
  }

  lemma OverlaidUnique(refs: RefMap, overlay: map<RefName, Option<Ref>>, a: RefMap, b: RefMap)
    requires Overlaid(refs, overlay, a) && Overlaid(refs, overlay, b)
    ensures a == b
  {
    forall n ensures (n in a <==> n in b) && (n in a ==> a[n] == b[n]) {
      assert Get(a, n) == Get(b, n);
    }
  }

  ghost predicate DistinctNames(plan: Plan) {
    forall i, j :: 0 <= i < j < |plan| ==> plan[i].0 != plan[j].0
  }

  lemma {:induction false} FinalsDistinct(plan: Plan)
    requires DistinctNames(plan)
    ensures forall i :: 0 <= i < |plan| ==> plan[i].0 in Finals(plan) && Finals(plan)[plan[i].0] == plan[i].1
    ensures forall n :: n in Finals(plan) ==> exists i :: 0 <= i < |plan| && plan[i].0 == n
  {
    if plan != [] {
      var p, z := plan[..|plan| - 1], |plan| - 1;
      FinalsDistinct(p);
      assert forall i :: 0 <= i < z ==> p[i] == plan[i];
      forall n | n in Finals(plan) ensures exists i :: 0 <= i < |plan| && plan[i].0 == n {
        if n in Finals(p) {
          var i :| 0 <= i < z && p[i].0 == n;
          assert plan[i].0 == n;
        }
      }
    }
  }

  /** Entries of one plan that all stand in another. */
  lemma FinalsWithin(p: Plan, q: Plan)
    requires DistinctNames(p) && DistinctNames(q) && forall x :: x in p ==> x in q
    ensures forall n :: n in Finals(p) ==> n in Finals(q) && Finals(p)[n] == Finals(q)[n]
  {
    hide Finals, DistinctNames;
    FinalsDistinct(p);
    FinalsDistinct(q);
    forall n | n in Finals(p) ensures n in Finals(q) && Finals(p)[n] == Finals(q)[n] {
      var i :| 0 <= i < |p| && p[i].0 == n;
      assert p[i] in q;
    }
  }

  /** With distinct names the order of a plan does not matter. */
  lemma OrderIrrelevant(refs: RefMap, p: Plan, q: Plan)
    requires DistinctNames(p) && DistinctNames(q)
    requires forall x :: x in p <==> x in q
    ensures ApplyPlan(refs, p) == ApplyPlan(refs, q)
  {
    FinalsWithin(p, q);
    FinalsWithin(q, p);
    hide Finals, ApplyPlan, DistinctNames;
    assert Finals(p) == Finals(q);
    ApplyOverlaid(refs, p);
    ApplyOverlaid(refs, q);
    OverlaidUnique(refs, Finals(p), ApplyPlan(refs, p), ApplyPlan(refs, q));
  }

  /** Replaying a plan over any part of its own effect gives its full effect. */
  lemma Replay(refs: RefMap, plan: Plan, i: nat)
    requires i <= |plan|
    ensures ApplyPlan(ApplyPlan(refs, plan[..i]), plan) == ApplyPlan(refs, plan)
  {
    var mid := ApplyPlan(refs, plan[..i]);
    ApplyOverlaid(refs, plan[..i]);
    ApplyOverlaid(refs, plan);
    ApplyOverlaid(mid, plan);
    FinalsPrefix(plan, i);
    assert Overlaid(refs, Finals(plan), ApplyPlan(mid, plan)) by {
      forall n ensures Get(ApplyPlan(mid, plan), n) == if n in Finals(plan) then Finals(plan)[n] else Get(refs, n) {
        if n !in Finals(plan) { assert Get(mid, n) == Get(refs, n); }
      }
    }
    OverlaidUnique(refs, Finals(plan), ApplyPlan(mid, plan), ApplyPlan(refs, plan));
  }

  lemma {:induction false} FinalsPrefix(plan: Plan, i: nat)
    requires i <= |plan|
    ensures Finals(plan[..i]).Keys <= Finals(plan).Keys
    decreases |plan|
  {
    if i < |plan| {
      FinalsPrefix(plan[..|plan| - 1], i);
      assert plan[..|plan| - 1][..i] == plan[..i];
    } else {
      assert plan[..i] == plan;
    }
  }

  /** One buffered op against the current value of its name: the value to lay
      over it (`None` inside for a tombstone), nothing for a precondition, or the error. */
  method ResolveOne(current: Option<Ref>, op: RefOp) returns (w: Result<Option<Option<Ref>>, RefError>)
    ensures w == Write(current, op)
    ensures (op.CreateTag? || op.CreateTimeline?) && current.Some? ==> w == Err(AlreadyExists)
    ensures op.CreateTag? && current.None? ==> w == Ok(Some(Some(TagRef(Tag(op.target, op.now, op.message)))))
    ensures op.CreateTimeline? && current.None? ==>
              w == Ok(Some(Some(TimelineRef(Timeline(op.head, op.policy, op.now, op.kind, op.expiresAt)))))
    ensures (op.MoveTag? || op.AdvanceHead? || op.AdvanceHeadIf?) && current.None? ==> w == Err(NotFound)
    ensures op.MoveTag? && current.Some? && current.value.TimelineRef? ==> w == Err(WrongRefKind)
    ensures (op.AdvanceHead? || op.AdvanceHeadIf?) && current.Some? && current.value.TagRef? ==> w == Err(WrongRefKind)
    ensures op.Expect? ==> w == if current == op.expected then Ok(None) else Err(TransactionConflict)
    ensures op.Delete? ==> w == Ok(Some(None))
    ensures op.Set? ==> w == Ok(Some(Some(op.value)))
  {
    match op {
      case CreateTag(_, target, message, now) =>
        if current.Some? { return Err(AlreadyExists); }
        return Ok(Some(Some(TagRef(Tag(target, now, message)))));
      case MoveTag(_, target) =>
        match current {
          case Some(TagRef(t)) => return Ok(Some(Some(TagRef(t.(target := target)))));
          case Some(TimelineRef(_)) => return Err(WrongRefKind);
          case None => return Err(NotFound);
        }
      case CreateTimeline(_, head, policy, now, kind, expiresAt) =>
        if current.Some? { return Err(AlreadyExists); }
        return Ok(Some(Some(TimelineRef(Timeline(head, policy, now, kind, expiresAt)))));
      case AdvanceHead(_, newHead) =>
        match current {
          case Some(TimelineRef(t)) => return Ok(Some(Some(TimelineRef(t.(head := newHead)))));
          case Some(TagRef(_)) => return Err(WrongRefKind);
          case None => return Err(NotFound);
        }
      case Set(_, value) => return Ok(Some(Some(value)));
      case Delete(_) => return Ok(Some(None));
      case Expect(_, expected) =>
        if current != expected { return Err(TransactionConflict); }
        return Ok(None);
      case AdvanceHeadIf(_, expectedOld, newHead) =>
        match current {
          case Some(TimelineRef(t)) =>
            if t.head != expectedOld { return Err(TransactionConflict); }
            return Ok(Some(Some(TimelineRef(t.(head := newHead)))));
          case Some(TagRef(_)) => return Err(WrongRefKind);
          case None => return Err(NotFound);
        }
    }
  }

  /** Turns buffered ops into a plan of absolute final values, later ops seeing
      earlier ones through the overlay. Applying the plan equals running the ops
      one at a time, and it fails exactly when they do, with the same error. */
  method Resolve(refs: RefMap, ops: seq<RefOp>) returns (r: Result<Plan, RefError>)
    ensures r.Err? <==> RunOps(refs, ops).Err?
    ensures r.Err? ==> RunOps(refs, ops) == Err(r.error)
    ensures r.Ok? ==> DistinctNames(r.value) && RunOps(refs, ops) == Ok(ApplyPlan(refs, r.value))
  {
    hide Write, ApplyPlan, Finals, DistinctNames, Refuses;
    var overlay: map<RefName, Option<Ref>> := map[];
    ghost var state := refs;
    for i := 0 to |ops|
      invariant RunOps(refs, ops[..i]) == Ok(state) && Overlaid(refs, overlay, state)
    {
      var op := ops[i];
      assert ops[..i + 1][..i] == ops[..i];
      var current := if op.name in overlay then overlay[op.name] else Get(refs, op.name);
      assert current == Get(state, op.name);
      var w := ResolveOne(current, op);
      match w {
        case Err(e) =>
          RunPrefixFails(refs, ops, i + 1);
          return Err(e);
        case Ok(None) =>
        case Ok(Some(v)) =>
          overlay := overlay[op.name := v];
      }
      state := RunOp(state, op).value;
    }
    assert ops[..|ops|] == ops;
    var plan := Collect(overlay);
    ApplyOverlaid(refs, plan);
    OverlaidUnique(refs, overlay, state, ApplyPlan(refs, plan));
    r := Ok(plan);
  }

  lemma NoPlan()
    ensures DistinctNames([]) && Finals([]) == map[]
  {
  }

  /** One more entry under a new name. */
  lemma PlanSnoc(plan: Plan, n: RefName, v: Option<Ref>)
    requires DistinctNames(plan) && forall x :: x in plan ==> x.0 != n
    ensures DistinctNames(plan + [(n, v)]) && Finals(plan + [(n, v)]) == Finals(plan)[n := v]
  {
    assert (plan + [(n, v)])[..|plan|] == plan;
    assert forall i :: 0 <= i < |plan| ==> plan[i] in plan;
  }

  /** The overlay's entries as a plan, in some order. */
  method Collect(overlay: map<RefName, Option<Ref>>) returns (plan: Plan)
    ensures DistinctNames(plan) && Finals(plan) == overlay
    ensures forall x :: x in plan <==> x.0 in overlay && overlay[x.0] == x.1
  {
    hide Finals, DistinctNames;
    plan := [];
    NoPlan();
    var todo := overlay.Keys;
    while todo != {}
      invariant todo <= overlay.Keys && DistinctNames(plan)
      invariant forall x :: x in plan <==> x.0 in overlay && x.0 !in todo && overlay[x.0] == x.1
      invariant Finals(plan) == map n | n in overlay && n !in todo :: overlay[n]
      decreases todo
    {
      var n :| n in todo;
      PlanSnoc(plan, n, overlay[n]);
      plan := plan + [(n, overlay[n])];
      todo := todo - {n};
    }
  }

  // ----------------------------------------------------------------------
  // The ref store
  // ----------------------------------------------------------------------

  /** The ref store over an in-memory backend. The commit lock makes each call one step. */
  class RefStore {
    var refs: RefMap

    constructor ()
      ensures refs == map[]
    {
      refs := map[];
    }

    /** The single-ref rule, shared by the calls below: read, decide, write once. */
    ghost predicate Did(before: RefMap, op: RefOp, r: Result<(), RefError>)
      reads this
    {
      match RunOp(before, op)
      case Ok(after) => r.Ok? && refs == after
      case Err(e) => r == Err(e) && refs == before
    }

    method CreateTagRef(name: RefName, target: ObjectId, message: Option<string>, now: nat)
      returns (r: Result<(), RefError>)
      modifies this
      ensures Did(old(refs), CreateTag(name, target, message, now), r)
      ensures name in old(refs) ==> r == Err(AlreadyExists) && refs == old(refs)
      ensures name !in old(refs) ==> r.Ok? && refs == old(refs)[name := TagRef(Tag(target, now, message))]
    {
      if name in refs { return Err(AlreadyExists); }
      refs := refs[name := TagRef(Tag(target, now, message))];
      r := Ok(());
    }

    method MoveTagRef(name: RefName, target: ObjectId) returns (r: Result<(), RefError>)
      modifies this
      ensures Did(old(refs), MoveTag(name, target), r)
      ensures name !in old(refs) ==> r == Err(NotFound) && refs == old(refs)
      ensures name in old(refs) && old(refs)[name].TimelineRef? ==> r == Err(WrongRefKind) && refs == old(refs)
      ensures name in old(refs) && old(refs)[name].TagRef? ==>
                && r.Ok?
                && var t := old(refs)[name].tag;
                   refs == old(refs)[name := TagRef(Tag(target, t.createdAt, t.message))]
    {
      match Get(refs, name) {
        case Some(TagRef(tag)) => refs := refs[name := TagRef(tag.(target := target))]; r := Ok(());
        case Some(TimelineRef(_)) => r := Err(WrongRefKind);
        case None => r := Err(NotFound);
      }
    }

    method CreateTimelineRef(
      name: RefName, head: ObjectId, policy: TimelinePolicy, now: nat, kind: string, expiresAt: Option<nat>)
      returns (r: Result<(), RefError>)
      modifies this
      ensures Did(old(refs), CreateTimeline(name, head, policy, now, kind, expiresAt), r)
      ensures name in old(refs) ==> r == Err(AlreadyExists) && refs == old(refs)
      ensures name !in old(refs) ==>
                r.Ok? && refs == old(refs)[name := TimelineRef(Timeline(head, policy, now, kind, expiresAt))]
    {
      if name in refs { return Err(AlreadyExists); }
      refs := refs[name := TimelineRef(Timeline(head, policy, now, kind, expiresAt))];
      r := Ok(());
    }

    method AdvanceHeadRef(name: RefName, newHead: ObjectId) returns (r: Result<(), RefError>)
      modifies this
      ensures Did(old(refs), AdvanceHead(name, newHead), r)
      ensures name !in old(refs) ==> r == Err(NotFound) && refs == old(refs)
      ensures name in old(refs) && old(refs)[name].TagRef? ==> r == Err(WrongRefKind) && refs == old(refs)
      ensures name in old(refs) && old(refs)[name].TimelineRef? ==>
                && r.Ok?
                && var t := old(refs)[name].timeline;
                   var t' := Timeline(newHead, t.policy, t.createdAt, t.kind, t.expiresAt);
                   refs == old(refs)[name := TimelineRef(t')]
    {
      match Get(refs, name) {
        case Some(TimelineRef(t)) => refs := refs[name := TimelineRef(t.(head := newHead))]; r := Ok(());
        case Some(TagRef(_)) => r := Err(WrongRefKind);
        case None => r := Err(NotFound);
      }
    }

    method DeleteRef(name: RefName) returns (r: Result<(), RefError>)
      modifies this
      ensures Did(old(refs), Delete(name), r)
      ensures r.Ok? && name !in refs && forall n :: n != name ==> Get(refs, n) == Get(old(refs), n)
    {
      refs := refs - {name};
      r := Ok(());
    }

    /** A transaction is all or nothing, and its effect is its ops run one at a time. */
    method CommitTransaction(ops: seq<RefOp>) returns (r: Result<(), RefError>)
      modifies this
      ensures r.Ok? ==> RunOps(old(refs), ops) == Ok(refs)
      ensures r.Err? ==> RunOps(old(refs), ops) == Err(r.error) && refs == old(refs)
      ensures r.Ok? ==> Spares(ops, old(refs), refs)
      ensures forall e :: r == Err(e) <==> exists i :: 0 <= i < |ops| && FailsAt(old(refs), ops, i, e)
    {
      forall e ensures RunOps(refs, ops) == Err(e) <==> exists i :: 0 <= i < |ops| && FailsAt(refs, ops, i, e) {
        RunFails(refs, ops, e);
      }
      if RunOps(refs, ops).Ok? { RunSpares(refs, ops); }
      hide FailsAt, Spares;
      var plan := Resolve(refs, ops);
      if plan.Err? { return Err(plan.error); }
      for i := 0 to |plan.value|
        invariant refs == ApplyPlan(old(refs), plan.value[..i])
      {
        assert plan.value[..i + 1][..i] == plan.value[..i];
        match plan.value[i].1 {
          case Some(v) => refs := refs[plan.value[i].0 := v];
          case None => refs := refs - {plan.value[i].0};
        }
      }
      assert plan.value[..|plan.value|] == plan.value;
      r := Ok(());
    }
  }
}
