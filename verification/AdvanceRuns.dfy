/** Any number of advances of one timeline, interleaved step by step with each other
    and with whatever else the repository does. */
module AdvanceRuns {
  import opened Wrappers
  import opened Reach
  import opened Objects
  import opened Refs
  import opened Lattice
  import opened Access
  import opened Trees
  import opened Walks
  import opened Hooks
  import opened Advance

  /** How far one advance has come, and what it has learnt. */
  datatype Ticket =
    | Offering(q: Request, paths: Files)
    | Holding(q: Request, paths: Files, oldHead: ObjectId)
    | Removing(q: Request, paths: Files, oldHead: ObjectId)
    | Permitted(q: Request, paths: Files, oldHead: ObjectId)

  /** `heads` is every head so far; `moves[i]` committed the step from `heads[i]` to the next. */
  datatype State =
    State(refs: RefMap, store: Store, tickets: map<nat, Ticket>, heads: seq<ObjectId>, moves: seq<Request>)

  datatype Step =
    | Offer(pid: nat, q: Request, paths: Files)
    | ReadHead(pid: nat)
    | ClearRemoved(pid: nat)
    | Decide(pid: nat)
    | Commit(pid: nat)
    | GiveUp(pid: nat)
    | Elsewhere

  /** One step of one advance of `name`, each reading the refs and objects of its own
      moment; or anything else: objects stored or collected, other refs moved. The
      policy step asks only what the built-in hook asks; other hooks only refuse more. */
  ghost predicate Takes(universe: Store, acl: Acl, name: RefName, s: State, step: Step, s': State) {
    match step
    case Offer(pid, q, paths) =>
      && pid !in s.tickets && q.name == name && Offered(acl, s.store, q, paths)
      && s' == s.(tickets := s.tickets[pid := Offering(q, paths)])
    case ReadHead(pid) =>
      && pid in s.tickets && s.tickets[pid].Offering? && name in s.refs && s.refs[name].TimelineRef?
      && var t, head := s.tickets[pid], s.refs[name].timeline.head;
         && (t.q.expectedOld.Some? ==> head == t.q.expectedOld.value)
         && s' == s.(tickets := s.tickets[pid := Holding(t.q, t.paths, head)])
    case ClearRemoved(pid) =>
      && pid in s.tickets && s.tickets[pid].Holding?
      && var t := s.tickets[pid];
         && Cleared(acl, s.store, t.oldHead, t.q.a, t.paths)
         && s' == s.(tickets := s.tickets[pid := Removing(t.q, t.paths, t.oldHead)])
    case Decide(pid) =>
      && pid in s.tickets && s.tickets[pid].Removing?
      && var t := s.tickets[pid];
         && TimelineAllows(s.refs, s.store, Event(name, t.oldHead, t.q.newHead))
         && s' == s.(tickets := s.tickets[pid := Permitted(t.q, t.paths, t.oldHead)])
    case Commit(pid) =>
      && pid in s.tickets && s.tickets[pid].Permitted?
      && var t := s.tickets[pid];
         var r := RunOps(s.refs, [AdvanceHeadIf(name, t.oldHead, t.q.newHead)]);
         if r.Ok? then s' == State(r.value, s.store, s.tickets - {pid}, s.heads + [t.q.newHead], s.moves + [t.q])
         else s' == s.(tickets := s.tickets - {pid})
    case GiveUp(pid) => s' == s.(tickets := s.tickets - {pid})
    case Elsewhere =>
      && s'.tickets == s.tickets && s'.heads == s.heads && s'.moves == s.moves
      && Extends(s'.store, universe) && Get(s'.refs, name) == Get(s.refs, name)
  }

  ghost predicate Starts(universe: Store, name: RefName, s: State) {
    && Extends(s.store, universe) && s.tickets == map[] && s.moves == []
    && |s.heads| == 1 && HeadIs(s.refs, name, s.heads[0])
  }

  ghost predicate IsRun(universe: Store, acl: Acl, name: RefName, states: seq<State>, steps: seq<Step>) {
    && |states| == |steps| + 1 && Starts(universe, name, states[0])
    && forall i :: 0 <= i < |steps| ==> Takes(universe, acl, name, states[i], steps[i], states[i + 1])
  }

  // ----------------------------------------------------------------------
  // One advance as a run
  // ----------------------------------------------------------------------

  /** The five steps of one advance that nothing interferes with. */
  function Alone(q: Request, paths: Files): seq<Step> {
    [Offer(0, q, paths), ReadHead(0), ClearRemoved(0), Decide(0), Commit(0)]
  }

  /** An advance that `AdvanceTimelineExpecting` lets through is a run of this machine
      from the refs it finds to the refs it leaves, so what is proved of runs holds of it. */
  lemma AdvanceIsRun(
    repo: TimelineRepository, rank: ObjectId -> nat, q: Request, approval: HookSpec -> Decision, head: ObjectId)
    returns (states: seq<State>, paths: Files)
    requires Nested(repo.store, rank) && HeadIs(repo.refs.refs, q.name, head) && repo.MayAdvance(q, approval)
    ensures IsRun(repo.store, repo.acl, q.name, states, Alone(q, paths))
    ensures states[0].refs == repo.refs.refs && states[0].store == repo.store
    ensures states[5].heads == [head, q.newHead]
    ensures states[5].refs ==
            repo.refs.refs[q.name := TimelineRef(repo.refs.refs[q.name].timeline.(head := q.newHead))]
  {
    hide *;
    var root := OfferedRoot(repo, q, approval);
    paths := WalkMap(repo.store, root, rank, Some(FullView(repo.acl)));
    WalkMapWalked(repo.store, root, rank, Some(FullView(repo.acl)));
    LetThrough(repo, q, approval, head, paths);
    BuiltInAllows(repo.refs.refs, repo.store, repo.local, approval, Event(q.name, head, q.newHead));
    states := AloneRun(repo.acl, repo.store, repo.refs.refs, q, head, paths);
  }

  lemma OfferedRoot(repo: TimelineRepository, q: Request, approval: HookSpec -> Decision) returns (root: ObjectId)
    requires repo.MayAdvance(q, approval)
    ensures IsSnapshot(repo.store, q.newHead) && root == repo.store[q.newHead].root
  {
    hide HeadIs, TooDeep, HasFile, MayWriteTimeline;
    root := repo.store[q.newHead].root;
  }

  lemma BuiltInAllows(
    refs: RefMap, store: Store, local: seq<HookSpec>, approval: HookSpec -> Decision, e: Event)
    requires PolicyAllows(refs, store, local, approval, e)
    ensures TimelineAllows(refs, store, e)
  {
    hide TimelineAllows, Bound, HookVerdict;
  }

  /** What the checks of an advance amount to at the head it finds. */
  lemma LetThrough(
    repo: TimelineRepository, q: Request, approval: HookSpec -> Decision, head: ObjectId, paths: Files)
    requires HeadIs(repo.refs.refs, q.name, head) && IsSnapshot(repo.store, q.newHead)
    requires Walked(repo.store, repo.store[q.newHead].root, Some(FullView(repo.acl)), paths)
    ensures repo.MayAdvance(q, approval) <==>
            && Offered(repo.acl, repo.store, q, paths)
            && (q.expectedOld.Some? ==> head == q.expectedOld.value)
            && Cleared(repo.acl, repo.store, head, q.a, paths)
            && PolicyAllows(repo.refs.refs, repo.store, repo.local, approval, Event(q.name, head, q.newHead))
  {
    hide HeadIs, TooDeep, HasFile, MayWrite, MayWriteTimeline, Walked, PolicyAllows, Cleared;
    hide TimelineRepository.MayMove;
    if MayWriteTimeline(repo.acl, q.a, q.name) && !TooDeep(repo.store, repo.store[q.newHead].root) {
      OfferIs(repo.acl, repo.store, q, paths);
      if Offered(repo.acl, repo.store, q, paths) { repo.AtHead(q, approval, head, paths); }
    }
  }

  lemma AloneRun(acl: Acl, store: Store, refs: RefMap, q: Request, head: ObjectId, paths: Files)
    returns (states: seq<State>)
    requires HeadIs(refs, q.name, head) && Offered(acl, store, q, paths)
    requires q.expectedOld.Some? ==> head == q.expectedOld.value
    requires Cleared(acl, store, head, q.a, paths) && TimelineAllows(refs, store, Event(q.name, head, q.newHead))
    ensures IsRun(store, acl, q.name, states, Alone(q, paths))
    ensures states[0].refs == refs && states[0].store == store && states[5].heads == [head, q.newHead]
    ensures states[5].refs == refs[q.name := TimelineRef(refs[q.name].timeline.(head := q.newHead))]
  {
    hide Offered, Cleared, TimelineAllows, RunOps, Takes;
    var idle := State(refs, store, map[], [head], []);
    var moved := refs[q.name := TimelineRef(refs[q.name].timeline.(head := q.newHead))];
    states := [
      idle,
      With(idle, Offering(q, paths)),
      With(idle, Holding(q, paths, head)),
      With(idle, Removing(q, paths, head)),
      With(idle, Permitted(q, paths, head)),
      State(moved, store, map[], [head, q.newHead], [q])];
    AloneSteps(acl, idle, q, head, paths);
    AloneCommits(acl, idle, q, head, paths);
  }

  /** Process 0 alone holds a ticket. */
  function With(idle: State, t: Ticket): State {
    idle.(tickets := map[0 := t])
  }

  lemma AloneSteps(acl: Acl, idle: State, q: Request, head: ObjectId, paths: Files)
    requires idle.tickets == map[] && HeadIs(idle.refs, q.name, head) && Offered(acl, idle.store, q, paths)
    requires q.expectedOld.Some? ==> head == q.expectedOld.value
    requires Cleared(acl, idle.store, head, q.a, paths)
    requires TimelineAllows(idle.refs, idle.store, Event(q.name, head, q.newHead))
    ensures Takes(idle.store, acl, q.name, idle, Offer(0, q, paths), With(idle, Offering(q, paths)))
    ensures Takes(idle.store, acl, q.name, With(idle, Offering(q, paths)), ReadHead(0),
                  With(idle, Holding(q, paths, head)))
    ensures Takes(idle.store, acl, q.name, With(idle, Holding(q, paths, head)), ClearRemoved(0),
                  With(idle, Removing(q, paths, head)))
    ensures Takes(idle.store, acl, q.name, With(idle, Removing(q, paths, head)), Decide(0),
                  With(idle, Permitted(q, paths, head)))
  {
    hide Offered, Cleared, TimelineAllows, RunOps;
  }

  lemma AloneCommits(acl: Acl, idle: State, q: Request, head: ObjectId, paths: Files)
    requires HeadIs(idle.refs, q.name, head) && idle.heads == [head] && idle.moves == []
    ensures Takes(idle.store, acl, q.name, With(idle, Permitted(q, paths, head)), Commit(0),
                  State(idle.refs[q.name := TimelineRef(idle.refs[q.name].timeline.(head := q.newHead))],
                        idle.store, map[], [head, q.newHead], [q]))
  {
    hide Offered, Cleared, TimelineAllows, RunOps;
    SwapHead(idle.refs, q.name, head, q.newHead);
  }

  // ----------------------------------------------------------------------
  // Fast-forward only
  // ----------------------------------------------------------------------

  ghost predicate ForwardOnly(refs: RefMap, name: RefName) {
    name in refs && refs[name].TimelineRef? && refs[name].timeline.policy != Unrestricted
  }

  /** Every head descends from every earlier one. */
  ghost predicate Descending(g: Graph<ObjectId>, heads: seq<ObjectId>) {
    forall i, j :: 0 <= i <= j < |heads| ==> Reaches(g, heads[j], heads[i])
  }

  ghost predicate ForwardInv(universe: Store, name: RefName, s: State) {
    && Extends(s.store, universe)
    && ForwardOnly(s.refs, name)
    && |s.heads| == |s.moves| + 1 && HeadIs(s.refs, name, s.heads[|s.heads| - 1])
    && Descending(ParentGraph(universe), s.heads)
    && (forall pid :: pid in s.tickets && s.tickets[pid].Permitted? ==>
          Reaches(ParentGraph(universe), s.tickets[pid].q.newHead, s.tickets[pid].oldHead))
  }

  lemma AncestryGrows(store: Store, universe: Store, a: ObjectId, b: ObjectId)
    requires Extends(store, universe) && Reaches(ParentGraph(store), a, b)
    ensures Reaches(ParentGraph(universe), a, b)
  {
    hide Reaches;
    ReachMono(ParentGraph(store), ParentGraph(universe), a, b);
  }

  lemma DescendingStep(g: Graph<ObjectId>, heads: seq<ObjectId>, next: ObjectId)
    requires Descending(g, heads) && heads != [] && Reaches(g, next, heads[|heads| - 1])
    ensures Descending(g, heads + [next])
  {
    hide Reaches;
    ReachRefl(g, next);
    forall i | 0 <= i < |heads| ensures Reaches(g, next, heads[i]) {
      ReachTrans(g, next, heads[|heads| - 1], heads[i]);
    }
  }

  lemma ForwardStep(universe: Store, acl: Acl, name: RefName, s: State, step: Step, s': State)
    requires ForwardInv(universe, name, s) && Takes(universe, acl, name, s, step, s')
    ensures ForwardInv(universe, name, s')
    ensures s.heads <= s'.heads
  {
    hide Reaches, Offered, Cleared, RunOps, Descending, ParentGraph;
    match step {
      case Decide(pid) =>
        var t := s.tickets[pid];
        AncestryGrows(s.store, universe, t.q.newHead, t.oldHead);
      case Commit(pid) =>
        var t := s.tickets[pid];
        SwapHead(s.refs, name, t.oldHead, t.q.newHead);
        if RunOps(s.refs, [AdvanceHeadIf(name, t.oldHead, t.q.newHead)]).Ok? {
          DescendingStep(ParentGraph(universe), s.heads, t.q.newHead);
        }
      case _ =>
    }
  }

  lemma ForwardStart(universe: Store, name: RefName, s: State)
    requires Starts(universe, name, s) && ForwardOnly(s.refs, name)
    ensures ForwardInv(universe, name, s)
  {
    hide Reaches;
    ReachRefl(ParentGraph(universe), s.heads[0]);
  }

  /** In every interleaving on a fast-forward or append timeline, the head the ref
      holds descends from every head it ever held. */
  lemma {:induction false} HeadsDescend(
    universe: Store, acl: Acl, name: RefName, states: seq<State>, steps: seq<Step>, k: nat)
    requires IsRun(universe, acl, name, states, steps) && k < |states| && ForwardOnly(states[0].refs, name)
    ensures ForwardInv(universe, name, states[k])
    decreases k
  {
    hide Takes, Starts, ForwardInv, ForwardOnly;
    if k == 0 {
      ForwardStart(universe, name, states[0]);
    } else {
      HeadsDescend(universe, acl, name, states, steps, k - 1);
      ForwardStep(universe, acl, name, states[k - 1], steps[k - 1], states[k]);
    }
  }

  lemma {:induction false} HeadsKept(
    universe: Store, acl: Acl, name: RefName, states: seq<State>, steps: seq<Step>, i: nat, k: nat)
    requires IsRun(universe, acl, name, states, steps) && i <= k < |states| && ForwardOnly(states[0].refs, name)
    ensures states[i].heads <= states[k].heads
    decreases k
  {
    hide Takes, Starts, ForwardInv, ForwardOnly;
    if i < k {
      HeadsKept(universe, acl, name, states, steps, i, k - 1);
      HeadsDescend(universe, acl, name, states, steps, k - 1);
      ForwardStep(universe, acl, name, states[k - 1], steps[k - 1], states[k]);
    }
  }

  /** The same, said of the ref alone at two moments of a run. */
  lemma NoRewind(
    universe: Store, acl: Acl, name: RefName, states: seq<State>, steps: seq<Step>, i: nat, k: nat,
    before: ObjectId, after: ObjectId)
    requires IsRun(universe, acl, name, states, steps) && i <= k < |states| && ForwardOnly(states[0].refs, name)
    requires HeadIs(states[i].refs, name, before) && HeadIs(states[k].refs, name, after)
    ensures Reaches(ParentGraph(universe), after, before)
  {
    hide Takes, Starts, Reaches, ParentGraph, IsRun;
    HeadsDescend(universe, acl, name, states, steps, i);
    HeadsDescend(universe, acl, name, states, steps, k);
    HeadsKept(universe, acl, name, states, steps, i, k);
    var h, h' := states[i].heads, states[k].heads;
    assert h'[|h| - 1] == h[|h| - 1];
  }

  /** From each old head at most one commit moves the timeline away. */
  lemma OneMoveOff(
    universe: Store, acl: Acl, name: RefName, states: seq<State>, steps: seq<Step>, k: nat, i: nat, j: nat)
    requires IsRun(universe, acl, name, states, steps) && k < |states| && ForwardOnly(states[0].refs, name)
    requires Acyclic(ParentGraph(universe))
    requires i < |states[k].moves| && j < |states[k].moves| && |states[k].heads| == |states[k].moves| + 1
    requires states[k].heads[i] == states[k].heads[j]
    requires states[k].heads[i + 1] != states[k].heads[i] && states[k].heads[j + 1] != states[k].heads[j]
    ensures i == j
  {
    hide Takes, Starts, Reaches, ParentGraph, IsRun, Acyclic;
    HeadsDescend(universe, acl, name, states, steps, k);
    var g, heads := ParentGraph(universe), states[k].heads;
    if i < j { AcyclicAntisym(g, heads[i + 1], heads[i]); }
    if j < i { AcyclicAntisym(g, heads[j + 1], heads[j]); }
  }

  // ----------------------------------------------------------------------
  // Advances bound to a head
  // ----------------------------------------------------------------------

  ghost predicate BoundInv(name: RefName, s: State) {
    && |s.heads| == |s.moves| + 1 && HeadIs(s.refs, name, s.heads[|s.heads| - 1])
    && (forall pid :: pid in s.tickets && !s.tickets[pid].Offering? && s.tickets[pid].q.expectedOld.Some? ==>
          s.tickets[pid].oldHead == s.tickets[pid].q.expectedOld.value)
    && (forall i :: 0 <= i < |s.moves| && s.moves[i].expectedOld.Some? ==> s.heads[i] == s.moves[i].expectedOld.value)
    && (forall i :: 0 <= i < |s.moves| ==> s.heads[i + 1] == s.moves[i].newHead)
  }

  lemma BoundStep(universe: Store, acl: Acl, name: RefName, s: State, step: Step, s': State)
    requires BoundInv(name, s) && Takes(universe, acl, name, s, step, s')
    ensures BoundInv(name, s')
  {
    hide Offered, Cleared, RunOps, TimelineAllows, Extends;
    if step.Commit? {
      var t := s.tickets[step.pid];
      SwapHead(s.refs, name, t.oldHead, t.q.newHead);
    }
  }

  /** Whatever the policy, an advance that names the head it was computed against (a
      merge does) never lands on another: each commit moves the ref from exactly the
      head before it, and that head is the expected one. */
  lemma {:induction false} NeverStale(
    universe: Store, acl: Acl, name: RefName, states: seq<State>, steps: seq<Step>, k: nat)
    requires IsRun(universe, acl, name, states, steps) && k < |states|
    ensures BoundInv(name, states[k])
    decreases k
  {
    hide Takes, BoundInv;
    if k == 0 {
      BoundStart(universe, name, states[0]);
    } else {
      NeverStale(universe, acl, name, states, steps, k - 1);
      BoundStep(universe, acl, name, states[k - 1], steps[k - 1], states[k]);
    }
  }

  lemma BoundStart(universe: Store, name: RefName, s: State)
    requires Starts(universe, name, s)
    ensures BoundInv(name, s)
  {
  }

  // ----------------------------------------------------------------------
  // Who wrote what
  // ----------------------------------------------------------------------

  /** Every snapshot's root and every subtree is stored. */
  ghost predicate TreesStored(store: Store) {
    && (forall id :: IsSnapshot(store, id) ==> IsTree(store, store[id].root))
    && (forall t, n :: IsTree(store, t) && n in store[t].entries && store[t].entries[n].kind == TreeEntry ==>
          IsTree(store, store[t].entries[n].id))
  }

  /** A file of the snapshot is known by this path and has this blob. */
  ghost predicate FileIn(universe: Store, snap: ObjectId, path: string, id: ObjectId)
    requires IsSnapshot(universe, snap)
  {
    FileOf(universe, universe[snap].root, path, id)
  }

  lemma {:induction false} DirSame(store: Store, universe: Store, root: ObjectId, c: Segments)
    requires Extends(store, universe) && TreesStored(store) && IsTree(store, root)
    ensures DirAt(store, root, c) == DirAt(universe, root, c)
    ensures DirAt(store, root, c).Some? ==> IsTree(store, DirAt(store, root, c).value)
    decreases |c|
  {
    if c != [] { DirSame(store, universe, root, Init(c)); }
  }

  lemma TreeSame(store: Store, universe: Store, root: ObjectId, path: string, id: ObjectId)
    requires Extends(store, universe) && TreesStored(store) && IsTree(store, root)
    ensures FileOf(store, root, path, id) <==> FileOf(universe, root, path, id)
  {
    hide DirAt, PathFrom, TreesStored;
    forall q: Segments | q != [] ensures FileAt(store, root, q) == FileAt(universe, root, q) {
      DirSame(store, universe, root, Init(q));
    }
  }

  /** Under two-point labels, with all trees stored, the enforcement walk finds
      exactly the files of the snapshot. */
  lemma WalkFinds(store: Store, universe: Store, acl: Acl, snap: ObjectId, p: string)
    requires Extends(store, universe) && TreesStored(store) && acl.lattice == TwoPoint() && IsSnapshot(store, snap)
    ensures IsSnapshot(universe, snap)
    ensures HasFile(acl, store, snap, p) <==> exists id :: FileIn(universe, snap, p, id)
  {
    hide Visible, TreesStored, FileOf;
    RootStored(store, snap);
    forall id: ObjectId ensures FileOf(store, store[snap].root, p, id) <==> FileIn(universe, snap, p, id) {
      TreeSame(store, universe, store[snap].root, p, id);
    }
    PrivilegedSeesAll(acl.rules, p);
  }

  lemma RootStored(store: Store, snap: ObjectId)
    requires TreesStored(store) && IsSnapshot(store, snap)
    ensures IsTree(store, store[snap].root)
  {
  }

  /** The accessor may write every file of the snapshot, and `paths` lists them. */
  ghost predicate MayAdd(universe: Store, acl: Acl, q: Request, paths: Files) {
    && IsSnapshot(universe, q.newHead)
    && (forall p :: p in paths <==> exists id :: FileIn(universe, q.newHead, p, id))
    && (forall p :: p in paths ==> MayWrite(acl, q.a, p))
  }

  /** And every file it would take away. */
  ghost predicate MayDrop(universe: Store, acl: Acl, oldHead: ObjectId, a: Accessor, paths: Files) {
    && IsSnapshot(universe, oldHead)
    && (forall p, id :: FileIn(universe, oldHead, p, id) && p !in paths ==> MayWrite(acl, a, p))
  }

  /** Every path that is not the same in two heads, blob for blob, may be written by
      the mover, and so may the timeline. */
  ghost predicate Covered(universe: Store, acl: Acl, name: RefName, oldHead: ObjectId, q: Request) {
    && MayWriteTimeline(acl, q.a, name)
    && IsSnapshot(universe, oldHead) && IsSnapshot(universe, q.newHead)
    && (forall p, id ::
          (FileIn(universe, oldHead, p, id) <==> !FileIn(universe, q.newHead, p, id)) ==> MayWrite(acl, q.a, p))
  }

  lemma CoveredBy(universe: Store, acl: Acl, name: RefName, oldHead: ObjectId, q: Request, paths: Files)
    requires MayWriteTimeline(acl, q.a, name)
    requires MayAdd(universe, acl, q, paths) && MayDrop(universe, acl, oldHead, q.a, paths)
    ensures Covered(universe, acl, name, oldHead, q)
  {
    hide FileIn, MayWrite, MayWriteTimeline;
  }

  ghost predicate TicketOk(universe: Store, acl: Acl, name: RefName, store: Store, t: Ticket) {
    && MayWriteTimeline(acl, t.q.a, name) && MayAdd(universe, acl, t.q, t.paths) && IsSnapshot(store, t.q.newHead)
    && (!t.Offering? ==> IsSnapshot(store, t.oldHead))
    && (t.Removing? || t.Permitted? ==> MayDrop(universe, acl, t.oldHead, t.q.a, t.paths))
  }

  ghost predicate WriteInv(universe: Store, acl: Acl, name: RefName, s: State) {
    && Extends(s.store, universe)
    && |s.heads| == |s.moves| + 1
    && HeadIs(s.refs, name, s.heads[|s.heads| - 1]) && IsSnapshot(s.store, s.heads[|s.heads| - 1])
    && (forall pid :: pid in s.tickets ==> TicketOk(universe, acl, name, s.store, s.tickets[pid]))
    && (forall i :: 0 <= i < |s.moves| ==>
          s.heads[i + 1] == s.moves[i].newHead && Covered(universe, acl, name, s.heads[i], s.moves[i]))
  }

  lemma OfferedMayAdd(store: Store, universe: Store, acl: Acl, q: Request, paths: Files)
    requires Extends(store, universe) && TreesStored(store) && acl.lattice == TwoPoint()
    requires Offered(acl, store, q, paths)
    ensures MayWriteTimeline(acl, q.a, q.name) && MayAdd(universe, acl, q, paths) && IsSnapshot(store, q.newHead)
  {
    hide MayWrite, MayWriteTimeline, TooDeep, Walked, TreesStored, FileIn, HasFile;
    WalkHolds(acl, store, q.newHead, paths);
    forall p ensures p in paths <==>
        IsSnapshot(universe, q.newHead) && exists id :: FileIn(universe, q.newHead, p, id) {
      WalkFinds(store, universe, acl, q.newHead, p);
    }
  }

  lemma ClearedMayDrop(store: Store, universe: Store, acl: Acl, oldHead: ObjectId, a: Accessor, paths: Files)
    requires Extends(store, universe) && TreesStored(store) && acl.lattice == TwoPoint()
    requires IsSnapshot(store, oldHead) && Cleared(acl, store, oldHead, a, paths)
    ensures MayDrop(universe, acl, oldHead, a, paths)
  {
    hide MayWrite, MayWriteTimeline, TooDeep, TreesStored, FileIn, HasFile;
    forall p, id: ObjectId | FileIn(universe, oldHead, p, id) && p !in paths ensures MayWrite(acl, a, p) {
      WalkFinds(store, universe, acl, oldHead, p);
    }
  }

  lemma WriteStep(universe: Store, acl: Acl, name: RefName, s: State, step: Step, s': State)
    requires WriteInv(universe, acl, name, s) && Takes(universe, acl, name, s, step, s')
    requires acl.lattice == TwoPoint() && TreesStored(s.store) && Extends(s.store, s'.store)
    ensures WriteInv(universe, acl, name, s')
  {
    hide Offered, Cleared, RunOps, TimelineAllows, MayAdd, MayDrop, MayWriteTimeline, Covered, TreesStored;
    match step {
      case Offer(pid, q, paths) =>
        OfferedMayAdd(s.store, universe, acl, q, paths);
      case ClearRemoved(pid) =>
        var t := s.tickets[pid];
        ClearedMayDrop(s.store, universe, acl, t.oldHead, t.q.a, t.paths);
      case Commit(pid) =>
        var t := s.tickets[pid];
        SwapHead(s.refs, name, t.oldHead, t.q.newHead);
        CoveredBy(universe, acl, name, t.oldHead, t.q, t.paths);
      case _ =>
    }
  }

  lemma WriteStart(universe: Store, acl: Acl, name: RefName, s: State)
    requires Starts(universe, name, s) && IsSnapshot(s.store, s.heads[0])
    ensures WriteInv(universe, acl, name, s)
  {
  }

  /** Objects are only added during the run, and never a tree without its subtrees. */
  ghost predicate StoreGrows(states: seq<State>) {
    && (forall i :: 0 <= i < |states| ==> TreesStored(states[i].store))
    && (forall i :: 0 <= i < |states| - 1 ==> Extends(states[i].store, states[i + 1].store))
  }

  /** In every interleaving, under two-point labels and with all trees stored, every
      path added, changed or removed between consecutive heads was writable by the
      accessor that committed the step, and so was the timeline. Nothing is asked of
      the names in the trees. */
  lemma {:induction false} EveryChangeWritable(
    universe: Store, acl: Acl, name: RefName, states: seq<State>, steps: seq<Step>, k: nat)
    requires IsRun(universe, acl, name, states, steps) && k < |states|
    requires acl.lattice == TwoPoint() && StoreGrows(states) && IsSnapshot(states[0].store, states[0].heads[0])
    ensures WriteInv(universe, acl, name, states[k])
    decreases k
  {
    hide Takes, WriteInv, TreesStored, Extends;
    if k == 0 {
      WriteStart(universe, acl, name, states[0]);
    } else {
      EveryChangeWritable(universe, acl, name, states, steps, k - 1);
      WriteStep(universe, acl, name, states[k - 1], steps[k - 1], states[k]);
    }
  }
}
