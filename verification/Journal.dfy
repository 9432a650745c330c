/** The on-disk ref backend: a write-ahead journal makes a multi-ref commit
    crash-atomic. Every method takes a `budget`, the number of disk operations
    that complete before the process dies; a contract that holds for every
    budget therefore holds for a crash at every step. */
module Journal {
  import opened Wrappers
  import opened Refs

  datatype Status = Completed | Crashed

  datatype CommitStatus = Committed | Refused(error: RefError) | Died

  /** One session event: a commit attempt, or an attempt to open the store. */
  datatype Event = Commit(ops: seq<RefOp>, commitBudget: nat) | Open(openBudget: nat)

  class DiskRefBackend {
    /** The ref files. A value is written to a hidden temporary file and renamed,
        so a file is always whole. */
    var refs: RefMap
    /** The `*.journal` files; temporary files in the directory are never read. */
    var journals: map<nat, Plan>
    /** The process-wide counter that keeps journal names apart. */
    var nextJournal: nat
    /** A process has completed `open` and has not died since. */
    var alive: bool

    constructor ()
      ensures Valid() && State() == map[] && !alive
    {
      refs, journals, nextJournal, alive := map[], map[], 0, false;
    }

    /** At most one journal is pending, and none while a process runs between commits. */
    ghost predicate Valid()
      reads this
    {
      && |journals| <= 1
      && (alive ==> journals == map[])
    }

    /** What the store means: the ref files with the pending journal replayed. */
    ghost function State(): RefMap
      reads this
    {
      if journals == map[] then refs else ApplyPlan(refs, Pending())
    }

    ghost function Pending(): Plan
      requires journals != map[]
      reads this
    {
      JournalNonEmpty();
      var j :| j in journals;
      journals[j]
    }

    ghost function PendingSize(): nat
      reads this
    {
      if journals == map[] then 0 else |Pending()|
    }

    lemma JournalNonEmpty()
      requires journals != map[]
      ensures exists j :: j in journals
    {
      assert journals.Keys == {} ==> journals == map[];
      var j :| j in journals.Keys;
    }

    lemma PendingIs(j: nat)
      requires |journals| <= 1 && j in journals
      ensures journals == map[j := journals[j]] && Pending() == journals[j]
    {
      assert journals.Keys == {j} by {
        if k :| k in journals && k != j {
          assert {j, k} <= journals.Keys;
          SubsetSize({j, k}, journals.Keys);
        }
      }
    }

    /** Writes a plan's values in order, until done or dead. While the journal of
        this plan is in place the meaning of the store does not move. */
    method WriteValues(plan: Plan, budget: nat) returns (s: Status, left: nat)
      modifies this`refs
      ensures ApplyPlan(refs, plan) == ApplyPlan(old(refs), plan)
      ensures s.Completed? ==> refs == ApplyPlan(old(refs), plan) && left <= budget
      ensures budget >= 2 * |plan| ==> s.Completed? && left >= budget - 2 * |plan|
    {
      left := budget;
      for i := 0 to |plan|
        invariant refs == ApplyPlan(old(refs), plan[..i])
        invariant budget - 2 * i <= left <= budget
      {
        Replay(old(refs), plan, i);
        if left == 0 { return Crashed, 0; }
        assert plan[..i + 1][..i] == plan[..i];
        match plan[i].1 {
          case Some(v) =>
            left := left - 1; // the temporary file
            if left == 0 { return Crashed, 0; }
            refs := refs[plan[i].0 := v];
            left := left - 1;
          case None =>
            refs := refs - {plan[i].0};
            left := left - 1;
        }
      }
      assert plan[..|plan|] == plan;
      Replay(old(refs), plan, |plan|);
      s := Completed;
    }

    /** Journal, apply, forget. Only the journal's rename, the second operation,
        changes what the store means; a completed call has changed the files too. */
    method ApplyAtomic(plan: Plan, budget: nat) returns (s: Status)
      requires Valid() && alive
      modifies this
      ensures Valid() && (alive <==> s.Completed?)
      ensures State() == if plan == [] || budget < 2 then old(State()) else ApplyPlan(old(State()), plan)
      ensures s.Completed? ==> refs == ApplyPlan(old(refs), plan)
      ensures budget >= 2 * |plan| + 3 ==> s.Completed?
    {
      if plan == [] { return Completed; }
      alive := false;
      if budget == 0 { return Crashed; } // before the temporary file is written
      if budget == 1 { return Crashed; } // written and synced, not yet renamed
      var j := nextJournal;
      nextJournal := nextJournal + 1;
      journals := journals[j := plan];
      PendingIs(j);
      var left;
      s, left := WriteValues(plan, budget - 2);
      PendingIs(j);
      if s.Crashed? || left == 0 { return Crashed; }
      journals := journals - {j};
      assert journals == map[];
      alive := true;
    }

    /** Replays and removes every pending journal. The meaning of the store never
        changes; a completed recovery has moved it into the files. */
    method Recover(budget: nat) returns (s: Status)
      requires Valid() && !alive
      modifies this`refs, this`journals
      ensures Valid() && State() == old(State())
      ensures s.Completed? ==> journals == map[] && refs == old(State())
      ensures budget > 2 * old(PendingSize()) ==> s.Completed?
    {
      var left := budget;
      while journals != map[]
        invariant Valid() && State() == old(State())
        invariant journals != map[] ==> left == budget && journals == old(journals)
        decreases |journals|
      {
        JournalNonEmpty();
        var j :| j in journals;
        PendingIs(j);
        var plan := journals[j];
        s, left := WriteValues(plan, left);
        PendingIs(j);
        if s.Crashed? || left == 0 { return Crashed; }
        left := left - 1;
        journals := journals - {j};
        assert journals == map[];
      }
      s := Completed;
    }

    /** Starting a process: recovery runs before anything else. */
    method OpenStore(budget: nat) returns (s: Status)
      requires Valid()
      modifies this
      ensures Valid() && State() == old(State()) && (alive <==> s.Completed?)
      ensures s.Completed? ==> refs == State() && journals == map[]
      ensures budget > 2 * old(PendingSize()) ==> s.Completed?
    {
      alive := false; // whatever ran before is gone
      s := Recover(budget);
      alive := s.Completed?;
    }

    /** A transaction under the commit lock: resolve against the files, then apply atomically. */
    method CommitTransaction(ops: seq<RefOp>, budget: nat) returns (r: CommitStatus)
      requires Valid() && alive
      modifies this
      ensures Valid() && (alive <==> !r.Died?)
      ensures State() == After(Commit(ops, budget), true, old(State()))
      ensures r.Committed? ==> RunOps(old(State()), ops) == Ok(State()) && refs == State()
      ensures r.Refused? ==> RunOps(old(State()), ops) == Err(r.error)
      ensures State() == old(State()) || Spares(ops, old(State()), State())
    {
      if RunOps(refs, ops).Ok? { RunSpares(refs, ops); }
      hide Spares;
      var plan := Resolve(refs, ops);
      if plan.Err? { return Refused(plan.error); }
      var s := ApplyAtomic(plan.value, budget);
      r := if s.Completed? then Committed else Died;
    }

    lemma StateOfLive()
      requires Valid() && alive
      ensures refs == State()
    {
    }

    /** One event; a commit needs a live process. */
    method Handle(e: Event)
      requires Valid()
      modifies this
      ensures Valid() && (alive ==> refs == State())
      ensures State() == After(e, old(alive), old(State()))
    {
      match e {
        case Commit(ops, budget) =>
          if alive { var r := CommitTransaction(ops, budget); }
        case Open(budget) =>
          var s := OpenStore(budget);
      }
    }

    /** Any history of commits, crashes and reopen attempts: every event moves the
        meaning of the store exactly as `After` says, whole transaction or nothing,
        and a live store's files say exactly what it means. */
    method Session(script: seq<Event>) returns (ghost meaning: seq<RefMap>, ghost lives: seq<bool>)
      requires Valid()
      modifies this
      ensures |meaning| == |lives| == |script| + 1
      ensures meaning[0] == old(State()) && meaning[|script|] == State()
      ensures lives[0] == old(alive) && lives[|script|] == alive
      ensures forall k :: 0 <= k < |script| ==> meaning[k + 1] == After(script[k], lives[k], meaning[k])
      ensures Valid() && (alive ==> refs == State())
    {
      hide After, State;
      if alive { StateOfLive(); }
      meaning, lives := [State()], [alive];
      for i := 0 to |script|
        invariant Valid() && (alive ==> refs == State()) && |meaning| == |lives| == i + 1
        invariant meaning[0] == old(State()) && meaning[i] == State()
        invariant lives[0] == old(alive) && lives[i] == alive
        invariant forall k :: 0 <= k < i ==> meaning[k + 1] == After(script[k], lives[k], meaning[k])
      {
        Handle(script[i]);
        meaning, lives := meaning + [State()], lives + [alive];
      }
    }
  }

  /** The one way an event may change the meaning of a store: a live store's
      commit whose ops all succeed and whose journal was renamed (the second disk
      operation) takes full effect; everything else changes nothing. */
  ghost function After(e: Event, alive: bool, before: RefMap): RefMap {
    if alive && e.Commit? && e.commitBudget >= 2 && RunOps(before, e.ops).Ok? then RunOps(before, e.ops).value
        else before
  }
}
