/** The three-way merge of flat path maps. */
module Merge {
  import opened Wrappers
  import opened Objects

  datatype MergeConflict = MergeConflict(path: string, ours: Option<ObjectId>, theirs: Option<ObjectId>)

  function Get(files: Files, path: string): Option<ObjectId> {
    if path in files then Some(files[path]) else None
  }

  datatype Outcome = Settled(value: Option<ObjectId>) | Clash

  /** The textbook rule for one path: a side that did not change yields to the other. */
  ghost function Rule(base: Option<ObjectId>, ours: Option<ObjectId>, theirs: Option<ObjectId>): Outcome {
    if ours == theirs then Settled(ours)
    else if ours == base then Settled(theirs)
    else if theirs == base then Settled(ours)
    else Clash
  }

  ghost function At(base: Files, ours: Files, theirs: Files, path: string): Outcome {
    Rule(Get(base, path), Get(ours, path), Get(theirs, path))
  }

  /** The result follows the rule at every path; conflicts come once each, in path order. */
  ghost predicate IsMerge(base: Files, ours: Files, theirs: Files, merged: Files, conflicts: seq<MergeConflict>) {
    && (forall p :: Get(merged, p) == match At(base, ours, theirs, p) { case Settled(v) => v case Clash => None })
    && (forall c :: c in conflicts <==>
        At(base, ours, theirs, c.path).Clash? && c.ours == Get(ours, c.path) && c.theirs == Get(theirs, c.path))
    && (forall i, j :: 0 <= i < j < |conflicts| ==> Before(conflicts[i].path, conflicts[j].path))
  }

  ghost predicate Before(a: string, b: string) {
    StringLe(a, b) && a != b
  }

  /** The part of the result owed to some of the paths. */
  ghost predicate Partial(
    base: Files, ours: Files, theirs: Files, keys: set<string>, merged: Files, conflicts: seq<MergeConflict>)
  {
    && (forall p :: Get(merged, p) == if p !in keys then None
        else match At(base, ours, theirs, p) { case Settled(v) => v case Clash => None })
    && (forall c :: c in conflicts <==>
        && c.path in keys && At(base, ours, theirs, c.path).Clash?
        && c.ours == Get(ours, c.path) && c.theirs == Get(theirs, c.path))
    && (forall i, j :: 0 <= i < j < |conflicts| ==> Before(conflicts[i].path, conflicts[j].path))
  }

  method ThreeWayDiff(ancestor: Files, ours: Files, theirs: Files)
    returns (merged: Files, conflicts: seq<MergeConflict>)
    ensures IsMerge(ancestor, ours, theirs, merged, conflicts)
    ensures forall p :: Get(ours, p) == Get(theirs, p) ==> Get(merged, p) == Get(ours, p)
    ensures forall p :: Get(ours, p) == Get(ancestor, p) ==> Get(merged, p) == Get(theirs, p)
    ensures forall p :: Get(theirs, p) == Get(ancestor, p) ==> Get(merged, p) == Get(ours, p)
    ensures forall p ::
              && Get(ours, p) != Get(theirs, p)
              && Get(ours, p) != Get(ancestor, p) && Get(theirs, p) != Get(ancestor, p) ==>
                p !in merged && MergeConflict(p, Get(ours, p), Get(theirs, p)) in conflicts
    ensures forall c :: c in conflicts ==>
              && c.ours == Get(ours, c.path) && c.theirs == Get(theirs, c.path)
              && c.ours != c.theirs && c.ours != Get(ancestor, c.path) && c.theirs != Get(ancestor, c.path)
  {
    hide At, Rule, Before, Partial, IsMerge, StringLe, InOrder, Get;
    var keys := InOrder(ancestor.Keys + ours.Keys + theirs.Keys);
    merged, conflicts := map[], [];
    NoKeys(ancestor, ours, theirs);
    ghost var done: set<string> := {};
    for i := 0 to |keys|
      invariant done == set k | k in keys[..i]
      invariant Partial(ancestor, ours, theirs, done, merged, conflicts)
    {
      var key := keys[i];
      InOrderBefore(ancestor.Keys + ours.Keys + theirs.Keys, i);
      var anc, our, thr := Get(ancestor, key), Get(ours, key), Get(theirs, key);
      RuleCases(anc, our, thr);
      StepPath(ancestor, ours, theirs, done, merged, conflicts, key);
      done := done + {key};
      if our == thr {
        if our.Some? { merged := merged[key := our.value]; }
        continue;
      }
      match (anc, our, thr) {
        case (_, Some(o), Some(t)) =>
          if anc == Some(o) {
            merged := merged[key := t];
          } else if anc == Some(t) {
            merged := merged[key := o];
          } else {
            conflicts := conflicts + [MergeConflict(key, Some(o), Some(t))];
          }
        case (Some(a), Some(o), None) =>
          if o != a { conflicts := conflicts + [MergeConflict(key, Some(o), None)]; }
        case (None, Some(o), None) =>
          merged := merged[key := o];
        case (Some(a), None, Some(t)) =>
          if t != a { conflicts := conflicts + [MergeConflict(key, None, Some(t))]; }
        case (None, None, Some(t)) =>
          merged := merged[key := t];
      }
    }
    assert keys[..|keys|] == keys;
    AllKeys(ancestor, ours, theirs, done, merged, conflicts);
    MergeMeans(ancestor, ours, theirs, merged, conflicts);
  }

  /** The result at every path, without the rule. */
  lemma MergeMeans(base: Files, ours: Files, theirs: Files, merged: Files, conflicts: seq<MergeConflict>)
    requires IsMerge(base, ours, theirs, merged, conflicts)
    ensures forall p :: Get(ours, p) == Get(theirs, p) ==> Get(merged, p) == Get(ours, p)
    ensures forall p :: Get(ours, p) == Get(base, p) ==> Get(merged, p) == Get(theirs, p)
    ensures forall p :: Get(theirs, p) == Get(base, p) ==> Get(merged, p) == Get(ours, p)
    ensures forall p ::
              Get(ours, p) != Get(theirs, p) && Get(ours, p) != Get(base, p) && Get(theirs, p) != Get(base, p) ==>
                p !in merged && MergeConflict(p, Get(ours, p), Get(theirs, p)) in conflicts
    ensures forall c :: c in conflicts ==>
              && c.ours == Get(ours, c.path) && c.theirs == Get(theirs, c.path)
              && c.ours != c.theirs && c.ours != Get(base, c.path) && c.theirs != Get(base, c.path)
  {
    hide Before;
    forall p
      ensures Get(ours, p) != Get(theirs, p) && Get(ours, p) != Get(base, p) && Get(theirs, p) != Get(base, p) ==>
                p !in merged && MergeConflict(p, Get(ours, p), Get(theirs, p)) in conflicts
    {
      assert Get(merged, p) == match At(base, ours, theirs, p) { case Settled(v) => v case Clash => None };
    }
  }

  lemma InOrderStep(s: set<string>)
    requires s != {}
    ensures InOrder(s) == [First(s)] + InOrder(s - {First(s)})
  {
    hide First;
  }

  lemma {:induction false} InOrderBefore(s: set<string>, i: nat)
    requires i < |InOrder(s)|
    ensures forall j :: 0 <= j < i ==> Before(InOrder(s)[j], InOrder(s)[i])
    decreases |s|
  {
    hide InOrder, First, StringLe;
    var all := InOrder(s);
    assert all[i] in all && s != {};
    var f, rest := First(s), InOrder(s - {First(s)});
    InOrderStep(s);
    if i > 0 {
      InOrderBefore(s - {f}, i - 1);
      assert rest[i - 1] in rest && all[i] == rest[i - 1];
      forall j | 0 <= j < i ensures Before(all[j], all[i]) {
        if j > 0 { assert all[j] == rest[j - 1]; }
      }
    }
  }

  lemma NoKeys(base: Files, ours: Files, theirs: Files)
    ensures Partial(base, ours, theirs, {}, map[], [])
  {
  }

  /** The cases of the code, read off the rule. */
  lemma RuleCases(base: Option<ObjectId>, ours: Option<ObjectId>, theirs: Option<ObjectId>)
    ensures ours == theirs ==> Rule(base, ours, theirs) == Settled(ours)
    ensures ours != theirs && ours == base ==> Rule(base, ours, theirs) == Settled(theirs)
    ensures ours != theirs && theirs == base ==> Rule(base, ours, theirs) == Settled(ours)
    ensures ours != theirs && ours != base && theirs != base ==> Rule(base, ours, theirs) == Clash
  {
  }

  /** What one more path does to the result. */
  lemma StepPath(
    base: Files, ours: Files, theirs: Files, done: set<string>, merged: Files, conflicts: seq<MergeConflict>,
    key: string)
    requires Partial(base, ours, theirs, done, merged, conflicts) && forall k :: k in done ==> Before(k, key)
    ensures match Rule(Get(base, key), Get(ours, key), Get(theirs, key))
            case Settled(None) => Partial(base, ours, theirs, done + {key}, merged, conflicts)
            case Settled(Some(v)) => Partial(base, ours, theirs, done + {key}, merged[key := v], conflicts)
            case Clash =>
              Partial(base, ours, theirs, done + {key}, merged,
                      conflicts + [MergeConflict(key, Get(ours, key), Get(theirs, key))])
  {
    hide Rule, StringLe, Partial;
    match Rule(Get(base, key), Get(ours, key), Get(theirs, key)) {
      case Settled(v) => StepSettled(base, ours, theirs, done, merged, conflicts, key, v);
      case Clash => StepClash(base, ours, theirs, done, merged, conflicts, key);
    }
  }

  lemma StepSettled(
    base: Files, ours: Files, theirs: Files, done: set<string>, merged: Files, conflicts: seq<MergeConflict>,
    key: string, v: Option<ObjectId>)
    requires Partial(base, ours, theirs, done, merged, conflicts) && key !in done
    requires At(base, ours, theirs, key) == Settled(v)
    ensures Partial(base, ours, theirs, done + {key}, if v.Some? then merged[key := v.value] else merged, conflicts)
  {
    hide At, Before;
    assert Get(merged, key) == None;
  }

  lemma StepClash(
    base: Files, ours: Files, theirs: Files, done: set<string>, merged: Files, conflicts: seq<MergeConflict>,
    key: string)
    requires Partial(base, ours, theirs, done, merged, conflicts) && forall k :: k in done ==> Before(k, key)
    requires key !in done && At(base, ours, theirs, key) == Clash
    ensures Partial(base, ours, theirs, done + {key}, merged,
                    conflicts + [MergeConflict(key, Get(ours, key), Get(theirs, key))])
  {
    hide At, Before, Get;
    assert forall i :: 0 <= i < |conflicts| ==> conflicts[i] in conflicts;
  }

  lemma AllKeys(
    base: Files, ours: Files, theirs: Files, done: set<string>, merged: Files, conflicts: seq<MergeConflict>)
    requires Partial(base, ours, theirs, done, merged, conflicts) && done == base.Keys + ours.Keys + theirs.Keys
    ensures IsMerge(base, ours, theirs, merged, conflicts)
  {
  }

  // ----------------------------------------------------------------------
  // Laws
  // ----------------------------------------------------------------------

  ghost predicate Conflicted(conflicts: seq<MergeConflict>, path: string) {
    exists c :: c in conflicts && c.path == path
  }

  lemma ConflictedIff(
    base: Files, ours: Files, theirs: Files, merged: Files, conflicts: seq<MergeConflict>, path: string)
    requires IsMerge(base, ours, theirs, merged, conflicts)
    ensures Conflicted(conflicts, path) <==> At(base, ours, theirs, path).Clash?
  {
    if At(base, ours, theirs, path).Clash? {
      assert MergeConflict(path, Get(ours, path), Get(theirs, path)) in conflicts;
    }
  }

  /** No path is both merged and conflicting, a path that is neither was deleted by
      both sides or by one side while the other kept the ancestor's blob, and a
      merged blob is one of the two sides'. */
  lemma Accounted(base: Files, ours: Files, theirs: Files, merged: Files, conflicts: seq<MergeConflict>, path: string)
    requires IsMerge(base, ours, theirs, merged, conflicts)
    ensures !(path in merged && Conflicted(conflicts, path))
    ensures path !in merged && !Conflicted(conflicts, path) <==>
            || (path !in ours && path !in theirs)
            || (path in base && path !in ours && Get(theirs, path) == Get(base, path))
            || (path in base && path !in theirs && Get(ours, path) == Get(base, path))
    ensures path in merged ==> Get(merged, path) == Get(ours, path) || Get(merged, path) == Get(theirs, path)
  {
    hide IsMerge;
    ConflictedIff(base, ours, theirs, merged, conflicts, path);
    MergedAt(base, ours, theirs, merged, conflicts, path);
  }

  lemma MergedAt(base: Files, ours: Files, theirs: Files, merged: Files, conflicts: seq<MergeConflict>, path: string)
    requires IsMerge(base, ours, theirs, merged, conflicts)
    ensures Get(merged, path) == match At(base, ours, theirs, path) { case Settled(v) => v case Clash => None }
  {
  }

  lemma SameFiles(a: Files, b: Files)
    requires forall p :: Get(a, p) == Get(b, p)
    ensures a == b
  {
    assert forall p :: (p in a <==> p in b) && (p in a ==> a[p] == b[p]) by {
      forall p ensures (p in a <==> p in b) && (p in a ==> a[p] == b[p]) { assert Get(a, p) == Get(b, p); }
    }
  }

  function Swap(c: MergeConflict): MergeConflict {
    MergeConflict(c.path, c.theirs, c.ours)
  }

  lemma SomeMember(a: seq<MergeConflict>)
    ensures a == [] || exists c :: c in a
  {
    if a != [] { assert a[0] in a; }
  }

  /** Two ascending lists with the same members are the same list. */
  lemma {:induction false} SortedUnique(a: seq<MergeConflict>, b: seq<MergeConflict>)
    requires forall i, j :: 0 <= i < j < |a| ==> Before(a[i].path, a[j].path)
    requires forall i, j :: 0 <= i < j < |b| ==> Before(b[i].path, b[j].path)
    requires forall c :: c in a <==> c in b
    ensures a == b
    decreases |a|
  {
    if a == [] {
      SomeMember(b);
    } else {
      assert a[0] in b && (b != [] ==> b[0] in a);
      HeadsAgree(a, b);
      TailMembers(a);
      TailMembers(b);
      SortedUnique(a[1..], b[1..]);
      assert a == [a[0]] + a[1..] && b == [b[0]] + b[1..];
    }
  }

  lemma TailMembers(a: seq<MergeConflict>)
    requires a != [] && forall i, j :: 0 <= i < j < |a| ==> Before(a[i].path, a[j].path)
    ensures forall c :: c in a[1..] <==> c in a && c != a[0]
  {
    hide StringLe;
    assert a == [a[0]] + a[1..];
    forall c | c in a[1..] ensures c != a[0] {
      var j :| 0 <= j < |a[1..]| && a[1..][j] == c;
      assert Before(a[0].path, a[j + 1].path);
    }
  }

  lemma HeadsAgree(a: seq<MergeConflict>, b: seq<MergeConflict>)
    requires a != [] && b != [] && a[0] in b && b[0] in a
    requires forall i, j :: 0 <= i < j < |a| ==> Before(a[i].path, a[j].path)
    requires forall i, j :: 0 <= i < j < |b| ==> Before(b[i].path, b[j].path)
    ensures a[0] == b[0]
  {
    hide StringLe;
    var i :| 0 <= i < |b| && b[i] == a[0];
    var j :| 0 <= j < |a| && a[j] == b[0];
    StringLeTotal(a[0].path, b[0].path);
  }

  /** Swapping the sides merges to the same map and mirrors each conflict in place. */
  lemma SwapMirrors(
    base: Files, ours: Files, theirs: Files, m: Files, c: seq<MergeConflict>, m': Files, c': seq<MergeConflict>)
    requires IsMerge(base, ours, theirs, m, c) && IsMerge(base, theirs, ours, m', c')
    ensures m == m'
    ensures |c| == |c'| && forall i :: 0 <= i < |c| ==> c'[i] == Swap(c[i])
  {
    hide StringLe;
    forall p ensures At(base, ours, theirs, p) == At(base, theirs, ours, p) {}
    SameFiles(m, m');
    var s := seq(|c|, i requires 0 <= i < |c| => Swap(c[i]));
    forall x ensures x in s <==> Swap(x) in c {
      if x in s { var i :| 0 <= i < |s| && s[i] == x; assert Swap(x) == c[i]; }
      if Swap(x) in c { var i :| 0 <= i < |c| && c[i] == Swap(x); assert s[i] == x; }
    }
    SortedUnique(s, c');
  }

  /** A side that did not change yields the other side, cleanly. */
  lemma UnchangedYields(base: Files, other: Files, m: Files, c: seq<MergeConflict>)
    requires IsMerge(base, base, other, m, c) || IsMerge(base, other, base, m, c)
    ensures m == other && c == []
  {
    forall p ensures Get(m, p) == Get(other, p) {}
    SameFiles(m, other);
    SomeMember(c);
  }

  /** Merging the same source again into a clean result is clean and changes nothing. */
  lemma RemergeIsClean(base: Files, ours: Files, theirs: Files, m: Files, m': Files, c': seq<MergeConflict>)
    requires IsMerge(base, ours, theirs, m, []) && IsMerge(base, m, theirs, m', c')
    ensures m' == m && c' == []
  {
    forall p ensures At(base, m, theirs, p) == Settled(Get(m, p)) {
      RemergeAt(base, ours, theirs, m, p);
    }
    SameFiles(m', m);
    SomeMember(c');
  }

  lemma RemergeAt(base: Files, ours: Files, theirs: Files, m: Files, p: string)
    requires IsMerge(base, ours, theirs, m, [])
    ensures At(base, m, theirs, p) == Settled(Get(m, p))
  {
    ConflictedIff(base, ours, theirs, m, [], p);
    MergedAt(base, ours, theirs, m, [], p);
  }
}
