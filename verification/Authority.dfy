/** Policy authority: chains of policy roots, their verification, and the
    preference between two verified tips. */
module Authority {
  import opened Wrappers
  import opened Objects

  /** The ref that pins the active policy root. */
  const POLICY_ROOT_REF: string := "refs/policy/root"

  // ----------------------------------------------------------------------
  // Chains
  // ----------------------------------------------------------------------

  type Chain = seq<ObjectId>

  predicate IsRoot(store: Store, id: ObjectId) {
    id in store && store[id].PolicyRoot?
  }

  /** A walk along parent links from `tip`; its last id need not be stored. */
  ghost predicate IsPath(store: Store, tip: ObjectId, path: Chain) {
    && path != [] && path[0] == tip
    && (forall i :: 0 <= i < |path| - 1 ==> IsRoot(store, path[i]))
    && (forall i :: 0 <= i < |path| - 1 ==> store[path[i]].parent == Some(path[i + 1]))
  }

  /** The whole lineage of `tip`: stored roots, each the parent of the one before,
      down to a root without a parent. */
  ghost predicate IsChain(store: Store, tip: ObjectId, chain: Chain) {
    && IsPath(store, tip, chain)
    && IsRoot(store, chain[|chain| - 1]) && store[chain[|chain| - 1]].parent == None
  }

  ghost predicate HasChain(store: Store, tip: ObjectId) {
    exists chain :: IsChain(store, tip, chain)
  }

  /** `x` is `tip` or an ancestor of it, in a complete lineage. */
  ghost predicate OnChain(store: Store, tip: ObjectId, x: ObjectId) {
    exists chain :: IsChain(store, tip, chain) && x in chain
  }

  lemma {:induction false} PathAgrees(store: Store, tip: ObjectId, path: Chain, chain: Chain, i: nat)
    requires IsPath(store, tip, path) && IsChain(store, tip, chain) && i < |path|
    ensures i < |chain| && chain[i] == path[i]
  {
    if i > 0 {
      PathAgrees(store, tip, path, chain, i - 1);
      var k := i - 1;
      assert store[path[k]].parent == Some(path[k + 1]);
      assert k < |chain| - 1 ==> store[chain[k]].parent == Some(chain[k + 1]);
    }
  }

  /** A lineage is determined by its tip. */
  lemma ChainUnique(store: Store, tip: ObjectId, a: Chain, b: Chain)
    requires IsChain(store, tip, a) && IsChain(store, tip, b)
    ensures a == b
  {
    PathAgrees(store, tip, a, b, |a| - 1);
    PathAgrees(store, tip, b, a, |b| - 1);
    forall i | 0 <= i < |a| ensures a[i] == b[i] { PathAgrees(store, tip, a, b, i); }
  }

  lemma ChainSuffix(store: Store, tip: ObjectId, chain: Chain, i: nat)
    requires IsChain(store, tip, chain) && i < |chain|
    ensures IsChain(store, chain[i], chain[i..])
  {
  }

  /** A lineage never repeats. */
  lemma ChainDistinct(store: Store, tip: ObjectId, chain: Chain, i: nat, j: nat)
    requires IsChain(store, tip, chain) && i < j < |chain|
    ensures chain[i] != chain[j]
  {
    if chain[i] == chain[j] {
      ChainSuffix(store, tip, chain, i);
      ChainSuffix(store, tip, chain, j);
      ChainUnique(store, chain[i], chain[i..], chain[j..]);
      assert false;
    }
  }

  lemma OnChainTrans(store: Store, a: ObjectId, b: ObjectId, c: ObjectId)
    requires OnChain(store, a, b) && OnChain(store, b, c)
    ensures OnChain(store, a, c)
  {
    var chain :| IsChain(store, a, chain) && b in chain;
    var rest :| IsChain(store, b, rest) && c in rest;
    var i :| 0 <= i < |chain| && chain[i] == b;
    ChainSuffix(store, a, chain, i);
    ChainUnique(store, b, chain[i..], rest);
    assert c in chain[i..];
  }

  lemma OnChainAntisym(store: Store, a: ObjectId, b: ObjectId)
    requires OnChain(store, a, b) && OnChain(store, b, a)
    ensures a == b
  {
    var ca :| IsChain(store, a, ca) && b in ca;
    var cb :| IsChain(store, b, cb) && a in cb;
    var i :| 0 <= i < |ca| && ca[i] == b;
    var j :| 0 <= j < |cb| && cb[j] == a;
    ChainSuffix(store, a, ca, i);
    ChainSuffix(store, b, cb, j);
    ChainUnique(store, b, ca[i..], cb);
    ChainUnique(store, a, cb[j..], ca);
  }

  /** Objects may only be added: a chain stays a chain. */
  lemma ChainGrows(store: Store, store': Store, tip: ObjectId, chain: Chain)
    requires IsChain(store, tip, chain) && Extends(store, store')
    ensures IsChain(store', tip, chain)
  {
  }

  datatype ChainError = Cycle | RootMissing(id: ObjectId)

  /** The walk from `tip` comes back to itself, or arrives at this missing root. */
  ghost predicate ChainFails(store: Store, tip: ObjectId, e: ChainError) {
    exists path :: IsPath(store, tip, path) && PathFails(store, path, e)
  }

  ghost predicate PathFails(store: Store, path: Chain, e: ChainError)
    requires path != []
  {
    var last := path[|path| - 1];
    match e
    case Cycle => last in path[..|path| - 1]
    case RootMissing(id) => last == id && !IsRoot(store, id)
  }

  /** Walks the parent links. It fails exactly when there is no lineage, which is
      when a root is missing or the links run in a cycle. */
  method ChainOf(store: Store, tip: ObjectId) returns (r: Result<Chain, ChainError>)
    ensures r.Ok? ==> IsChain(store, tip, r.value)
    ensures r.Err? ==> !HasChain(store, tip) && ChainFails(store, tip, r.error)
  {
    hide IsChain, HasChain, ChainFails;
    var chain: Chain := [];
    var seen: set<ObjectId> := {};
    var cur := Some(tip);
    while cur.Some?
      invariant cur.Some? ==> IsPath(store, tip, chain + [cur.value])
      invariant cur.None? ==> IsChain(store, tip, chain)
      invariant forall x :: x in seen <==> x in chain
      invariant seen <= store.Keys
      decreases store.Keys - seen, cur.Some?
    {
      var id := cur.value;
      if id in seen {
        Looped(store, tip, chain, id);
        return Err(Cycle);
      }
      seen := seen + {id};
      if id !in store || !store[id].PolicyRoot? {
        Stopped(store, tip, chain + [id]);
        return Err(RootMissing(id));
      }
      PathNext(store, tip, chain, id);
      chain := chain + [id];
      cur := store[id].parent;
    }
    r := Ok(chain);
  }

  lemma PathNext(store: Store, tip: ObjectId, chain: Chain, id: ObjectId)
    requires IsPath(store, tip, chain + [id]) && IsRoot(store, id)
    ensures store[id].parent == None ==> IsChain(store, tip, chain + [id])
    ensures store[id].parent.Some? ==> IsPath(store, tip, chain + [id] + [store[id].parent.value])
  {
  }

  lemma Looped(store: Store, tip: ObjectId, chain: Chain, id: ObjectId)
    requires IsPath(store, tip, chain + [id]) && id in chain
    ensures !HasChain(store, tip) && ChainFails(store, tip, Cycle)
  {
    assert PathFails(store, chain + [id], Cycle) by { assert (chain + [id])[..|chain|] == chain; }
    hide IsPath;
    if full :| IsChain(store, tip, full) {
      var i :| 0 <= i < |chain| && chain[i] == id;
      PathAgrees(store, tip, chain + [id], full, i);
      PathAgrees(store, tip, chain + [id], full, |chain|);
      ChainDistinct(store, tip, full, i, |chain|);
      assert false;
    }
  }

  lemma Stopped(store: Store, tip: ObjectId, path: Chain)
    requires IsPath(store, tip, path) && !IsRoot(store, path[|path| - 1])
    ensures !HasChain(store, tip) && ChainFails(store, tip, RootMissing(path[|path| - 1]))
  {
    assert PathFails(store, path, RootMissing(path[|path| - 1]));
    if full :| IsChain(store, tip, full) {
      PathAgrees(store, tip, path, full, |path| - 1);
      assert false;
    }
  }

  // ----------------------------------------------------------------------
  // Verification
  // ----------------------------------------------------------------------

  datatype TrustAnchor = TrustAnchor(keyId: string, publicKey: seq<nat>)

  datatype RootSignature = RootSignature(root: ObjectId, keyId: string, sig: seq<nat>)

  datatype Credentials = Credentials(sigs: map<ObjectId, RootSignature>, trust: seq<TrustAnchor>)

  /** The signature scheme: does this signature over this root verify under this key? */
  type Scheme = (seq<nat>, ObjectId, seq<nat>) -> bool

  /** The first anchor with this key id. */
  function FindAnchor(trust: seq<TrustAnchor>, keyId: string): (r: Option<TrustAnchor>)
    ensures r.None? <==> forall a :: a in trust ==> a.keyId != keyId
    ensures r.Some? ==> r.value in trust && r.value.keyId == keyId
  {
    if trust == [] then None
    else if trust[0].keyId == keyId then Some(trust[0])
    else
      var r := FindAnchor(trust[1..], keyId);
      assert trust == [trust[0]] + trust[1..];
      r
  }

  predicate SignatureOk(verify: Scheme, trust: seq<TrustAnchor>, root: ObjectId, sig: RootSignature) {
    && sig.root == root
    && FindAnchor(trust, sig.keyId).Some?
    && verify(FindAnchor(trust, sig.keyId).value.publicKey, root, sig.sig)
  }

  /** The anchor at `k` is the first with this key id. */
  ghost predicate FirstAnchor(trust: seq<TrustAnchor>, keyId: string, k: int) {
    0 <= k < |trust| && trust[k].keyId == keyId && forall j :: 0 <= j < k ==> trust[j].keyId != keyId
  }

  lemma {:induction false} FindsFirst(trust: seq<TrustAnchor>, keyId: string, k: nat)
    requires FirstAnchor(trust, keyId, k)
    ensures FindAnchor(trust, keyId) == Some(trust[k])
  {
    if k > 0 {
      assert trust[0].keyId != keyId;
      FindsFirst(trust[1..], keyId, k - 1);
    }
  }

  lemma {:induction false} AnchorPlace(trust: seq<TrustAnchor>, keyId: string) returns (k: nat)
    requires exists a :: a in trust && a.keyId == keyId
    ensures FirstAnchor(trust, keyId, k)
  {
    if trust[0].keyId == keyId {
      k := 0;
    } else {
      assert trust == [trust[0]] + trust[1..];
      k := AnchorPlace(trust[1..], keyId);
      k := k + 1;
    }
  }

  /** A signature stands exactly when it is over this root and verifies under the first
      anchor of its key id. */
  lemma SignatureMeans(verify: Scheme, trust: seq<TrustAnchor>, root: ObjectId, sig: RootSignature)
    ensures SignatureOk(verify, trust, root, sig) <==>
            && sig.root == root
            && exists k :: FirstAnchor(trust, sig.keyId, k) && verify(trust[k].publicKey, root, sig.sig)
  {
    if exists a :: a in trust && a.keyId == sig.keyId {
      var k := AnchorPlace(trust, sig.keyId);
      FindsFirst(trust, sig.keyId, k);
      assert FirstAnchor(trust, sig.keyId, k);
      forall j | FirstAnchor(trust, sig.keyId, j) ensures j == k { assert j < k || k < j || j == k; }
    } else {
      assert forall k :: 0 <= k < |trust| ==> trust[k] in trust;
    }
  }

  predicate KnownHook(kind: string) {
    kind == "signed-approval" || kind == "timeline-policy"
  }

  datatype Reason =
    | NoChain(error: ChainError)
    | MissingLattice(id: ObjectId)
    | MissingRules(id: ObjectId)
    | UnknownHook(id: ObjectId, kind: string)
    | BadSignature(id: ObjectId)
    | Unsigned(id: ObjectId)

  /** What one root of a chain needs. */
  ghost predicate Sound(store: Store, verify: Scheme, creds: Credentials, id: ObjectId) {
    && IsRoot(store, id)
    && store[id].lattice in store && store[id].rules in store
    && (forall h :: h in store[id].hooks ==> KnownHook(h.kind))
    && id in creds.sigs && SignatureOk(verify, creds.trust, id, creds.sigs[id])
  }

  /** The stated reason is a fact about the root it names. */
  ghost predicate Justified(store: Store, verify: Scheme, creds: Credentials, tip: ObjectId, why: Reason) {
    match why
    case NoChain(e) => !HasChain(store, tip) && ChainFails(store, tip, e)
    case MissingLattice(id) => OnChain(store, tip, id) && IsRoot(store, id) && store[id].lattice !in store
    case MissingRules(id) => OnChain(store, tip, id) && IsRoot(store, id) && store[id].rules !in store
    case UnknownHook(id, kind) => OnChain(store, tip, id) && IsRoot(store, id) && !KnownHook(kind) &&
        exists h :: h in store[id].hooks && h.kind == kind
    case BadSignature(id) => OnChain(store, tip, id) && id in creds.sigs &&
        !SignatureOk(verify, creds.trust, id, creds.sigs[id])
    case Unsigned(id) => OnChain(store, tip, id) && id !in creds.sigs
  }

  ghost predicate Accepted(store: Store, verify: Scheme, creds: Credentials, tip: ObjectId) {
    exists chain :: IsChain(store, tip, chain) && forall i :: 0 <= i < |chain| ==> Sound(store, verify, creds, chain[i])
  }

  datatype Verdict = Accept(depth: nat) | Reject(reason: Reason)

  /** Checks one root of the chain. */
  method CheckRoot(store: Store, verify: Scheme, creds: Credentials, ghost tip: ObjectId, id: ObjectId)
    returns (why: Option<Reason>)
    requires IsRoot(store, id) && OnChain(store, tip, id)
    ensures why.None? <==> Sound(store, verify, creds, id)
    ensures why.Some? ==> Justified(store, verify, creds, tip, why.value)
  {
    hide OnChain;
    var root := store[id];
    if root.lattice !in store { return Some(MissingLattice(id)); }
    if root.rules !in store { return Some(MissingRules(id)); }
    for i := 0 to |root.hooks|
      invariant forall k :: 0 <= k < i ==> KnownHook(root.hooks[k].kind)
    {
      if !KnownHook(root.hooks[i].kind) {
        assert root.hooks[i] in store[id].hooks;
        return Some(UnknownHook(id, root.hooks[i].kind));
      }
    }
    if id !in creds.sigs { return Some(Unsigned(id)); }
    if !SignatureOk(verify, creds.trust, id, creds.sigs[id]) { return Some(BadSignature(id)); }
    why := None;
  }

  /** Accepts exactly the tips whose whole lineage is sound. */
  method VerifyChain(store: Store, verify: Scheme, creds: Credentials, tip: ObjectId) returns (v: Verdict)
    ensures v.Accept? <==> Accepted(store, verify, creds, tip)
    ensures v.Accept? ==> exists chain :: IsChain(store, tip, chain) && v.depth == |chain|
    ensures v.Reject? ==> Justified(store, verify, creds, tip, v.reason)
  {
    hide Sound, IsPath, IsChain, SignatureOk, ChainFails;
    var r := ChainOf(store, tip);
    if r.Err? {
      NoneAccepted(store, verify, creds, tip, r.error);
      return Reject(NoChain(r.error));
    }
    var chain := r.value;
    for i := 0 to |chain|
      invariant forall k :: 0 <= k < i ==> Sound(store, verify, creds, chain[k])
    {
      ChainRoots(store, tip, chain, i);
      var why := CheckRoot(store, verify, creds, tip, chain[i]);
      if why.Some? {
        UnsoundRefused(store, verify, creds, tip, chain, i);
        return Reject(why.value);
      }
    }
    v := Accept(|chain|);
  }

  lemma NoneAccepted(store: Store, verify: Scheme, creds: Credentials, tip: ObjectId, e: ChainError)
    requires !HasChain(store, tip) && ChainFails(store, tip, e)
    ensures !Accepted(store, verify, creds, tip) && Justified(store, verify, creds, tip, NoChain(e))
  {
  }

  lemma ChainRoots(store: Store, tip: ObjectId, chain: Chain, i: nat)
    requires IsChain(store, tip, chain) && i < |chain|
    ensures IsRoot(store, chain[i]) && OnChain(store, tip, chain[i])
  {
    assert chain[i] in chain;
  }

  lemma UnsoundRefused(store: Store, verify: Scheme, creds: Credentials, tip: ObjectId, chain: Chain, i: nat)
    requires IsChain(store, tip, chain) && i < |chain| && !Sound(store, verify, creds, chain[i])
    ensures !Accepted(store, verify, creds, tip)
  {
    hide Sound, IsChain;
    forall c | IsChain(store, tip, c) ensures c == chain { ChainUnique(store, tip, c, chain); }
  }

  /** Every ancestor of an accepted tip is accepted. */
  lemma AcceptanceInherited(store: Store, verify: Scheme, creds: Credentials, tip: ObjectId, x: ObjectId)
    requires Accepted(store, verify, creds, tip) && OnChain(store, tip, x)
    ensures Accepted(store, verify, creds, x)
  {
    hide Sound;
    var chain :| IsChain(store, tip, chain) && forall i :: 0 <= i < |chain| ==> Sound(store, verify, creds, chain[i]);
    var c :| IsChain(store, tip, c) && x in c;
    ChainUnique(store, tip, chain, c);
    var i :| 0 <= i < |chain| && chain[i] == x;
    ChainSuffix(store, tip, chain, i);
    assert forall k :: 0 <= k < |chain[i..]| ==> chain[i..][k] == chain[i + k];
  }

  /** What acceptance means, root by root of the lineage: its lattice and rules are
      stored, every hook kind is one of the two known, and there is a signature over it
      that verifies under the first anchor of its key id. */
  lemma AcceptedMeans(store: Store, verify: Scheme, creds: Credentials, tip: ObjectId, chain: Chain)
    requires IsChain(store, tip, chain)
    ensures Accepted(store, verify, creds, tip) <==>
            forall i :: 0 <= i < |chain| ==>
              && IsRoot(store, chain[i]) && store[chain[i]].lattice in store && store[chain[i]].rules in store
              && (forall h :: h in store[chain[i]].hooks ==> h.kind in {"signed-approval", "timeline-policy"})
              && chain[i] in creds.sigs && creds.sigs[chain[i]].root == chain[i]
              && (exists k ::
                    && FirstAnchor(creds.trust, creds.sigs[chain[i]].keyId, k)
                    && verify(creds.trust[k].publicKey, chain[i], creds.sigs[chain[i]].sig))
  {
    hide SignatureOk;
    forall i | 0 <= i < |chain| && chain[i] in creds.sigs
      ensures SignatureOk(verify, creds.trust, chain[i], creds.sigs[chain[i]]) <==>
              && creds.sigs[chain[i]].root == chain[i]
              && (exists k ::
                    && FirstAnchor(creds.trust, creds.sigs[chain[i]].keyId, k)
                    && verify(creds.trust[k].publicKey, chain[i], creds.sigs[chain[i]].sig))
    {
      SignatureMeans(verify, creds.trust, chain[i], creds.sigs[chain[i]]);
    }
    assert Accepted(store, verify, creds, tip) <==>
           forall i :: 0 <= i < |chain| ==> Sound(store, verify, creds, chain[i]) by {
      forall c | IsChain(store, tip, c) ensures c == chain { ChainUnique(store, tip, c, chain); }
    }
  }

  lemma AcceptedGrows(store: Store, store': Store, verify: Scheme, creds: Credentials, tip: ObjectId)
    requires Accepted(store, verify, creds, tip) && Extends(store, store')
    ensures Accepted(store', verify, creds, tip)
  {
    var chain :| IsChain(store, tip, chain) && forall i :: 0 <= i < |chain| ==> Sound(store, verify, creds, chain[i]);
    ChainGrows(store, store', tip, chain);
    forall i | 0 <= i < |chain|
        ensures Sound(store', verify, creds, chain[i]) { assert Sound(store, verify, creds, chain[i]); }
  }

  lemma OnChainGrows(store: Store, store': Store, tip: ObjectId, x: ObjectId)
    requires OnChain(store, tip, x) && Extends(store, store')
    ensures OnChain(store', tip, x)
  {
    var chain :| IsChain(store, tip, chain) && x in chain;
    ChainGrows(store, store', tip, chain);
  }

  // ----------------------------------------------------------------------
  // Reconciliation
  // ----------------------------------------------------------------------

  datatype Resolution = Left | Right | Diverged(left: ObjectId, right: ObjectId)

  /** A tip wins over every root of its own lineage. */
  ghost function Preference(store: Store, a: ObjectId, b: ObjectId): Resolution {
    if OnChain(store, a, b) then Left else if OnChain(store, b, a) then Right else Diverged(a, b)
  }

  /** Two lineages, one of which contains the other's tip, end in the same root. */
  lemma SharedRoot(store: Store, a: ObjectId, b: ObjectId, ca: Chain, cb: Chain)
    requires IsChain(store, a, ca) && IsChain(store, b, cb) && b in ca
    ensures ca[|ca| - 1] == cb[|cb| - 1]
  {
    var i :| 0 <= i < |ca| && ca[i] == b;
    ChainSuffix(store, a, ca, i);
    ChainUnique(store, b, ca[i..], cb);
  }

  lemma OnChainIs(store: Store, tip: ObjectId, chain: Chain, x: ObjectId)
    requires IsChain(store, tip, chain)
    ensures OnChain(store, tip, x) <==> x in chain
  {
    hide IsChain;
    forall c | IsChain(store, tip, c) ensures c == chain { ChainUnique(store, tip, c, chain); }
  }

  /** The answer read off the two lineages: a tip wins over every root of its own, and
      then its lineage is the longer one. */
  ghost predicate Winner(a: ObjectId, ca: Chain, b: ObjectId, cb: Chain, r: Resolution) {
    && (r == Left <==> b in ca)
    && (r == Right <==> a in cb && a != b)
    && (r == Diverged(a, b) <==> b !in ca && a !in cb)
    && (r == Left && a != b ==> |ca| > |cb|)
    && (r == Right ==> |cb| > |ca|)
  }

  /** A lineage that holds another's tip below its own is longer than the other. */
  lemma LineageLonger(store: Store, a: ObjectId, ca: Chain, b: ObjectId, cb: Chain)
    requires IsChain(store, a, ca) && IsChain(store, b, cb)
    ensures a != b && b in ca ==> |ca| > |cb| && a !in cb
    ensures a == b ==> ca == cb && b in ca
  {
    if a == b {
      ChainUnique(store, a, ca, cb);
    } else if b in ca {
      var i :| 0 <= i < |ca| && ca[i] == b;
      ChainSuffix(store, a, ca, i);
      ChainUnique(store, b, ca[i..], cb);
      if k :| 0 <= k < |cb| && cb[k] == a {
        ChainDistinct(store, a, ca, 0, i + k);
      }
    }
  }

  lemma LongerWins(store: Store, a: ObjectId, ca: Chain, b: ObjectId, cb: Chain)
    requires IsChain(store, a, ca) && IsChain(store, b, cb)
    ensures Winner(a, ca, b, cb, Preference(store, a, b))
  {
    hide IsChain, OnChain;
    LineageLonger(store, a, ca, b, cb);
    LineageLonger(store, b, cb, a, ca);
    OnChainIs(store, a, ca, b);
    OnChainIs(store, b, cb, a);
  }

  /** The comparison of two tips that have lineages. */
  method Compare(store: Store, a: ObjectId, b: ObjectId) returns (r: Resolution)
    requires HasChain(store, a) && HasChain(store, b)
    ensures r == Preference(store, a, b)
  {
    hide OnChain, IsChain;
    var chainA := ChainOf(store, a);
    var chainB := ChainOf(store, b);
    var ca, cb := chainA.value, chainB.value;
    OnChainIs(store, a, ca, b);
    OnChainIs(store, b, cb, a);
    ChainEnds(store, a, ca);
    ChainEnds(store, b, cb);
    if a == b { return Left; }
    if b in ca { SharedRoot(store, a, b, ca, cb); }
    if a in cb { SharedRoot(store, b, a, cb, ca); }
    if ca[|ca| - 1] != cb[|cb| - 1] { return Diverged(a, b); }
    if b in ca {
      r := Left;
    } else if a in cb {
      r := Right;
    } else {
      r := Diverged(a, b);
    }
  }

  /** Fails naming the first candidate that does not verify; otherwise the tip that
      extends the other wins, and tips on separate branches diverge. */
  method Reconcile(store: Store, verify: Scheme, creds: Credentials, a: ObjectId, b: ObjectId)
    returns (r: Result<Resolution, ObjectId>)
    ensures r.Ok? <==> Accepted(store, verify, creds, a) && Accepted(store, verify, creds, b)
    ensures r.Err? ==> r.error == if !Accepted(store, verify, creds, a) then a else b
    ensures r.Ok? ==> r.value == Preference(store, a, b)
    ensures r.Ok? ==> forall ca, cb :: IsChain(store, a, ca) && IsChain(store, b, cb) ==>
              && (r.value == Left <==> b in ca)
              && (r.value == Right <==> a in cb && a != b)
              && (r.value == Diverged(a, b) <==> b !in ca && a !in cb)
              && (r.value == Left && a != b ==> |ca| > |cb|)
              && (r.value == Right ==> |cb| > |ca|)
  {
    hide Accepted, IsChain, Preference, OnChain;
    var va := VerifyChain(store, verify, creds, a);
    if va.Reject? { return Err(a); }
    var vb := VerifyChain(store, verify, creds, b);
    if vb.Reject? { return Err(b); }
    var w := Compare(store, a, b);
    forall ca, cb | IsChain(store, a, ca) && IsChain(store, b, cb) ensures Winner(a, ca, b, cb, w) {
      LongerWins(store, a, ca, b, cb);
    }
    r := Ok(w);
  }

  lemma ChainEnds(store: Store, tip: ObjectId, chain: Chain)
    requires IsChain(store, tip, chain)
    ensures |chain| > 0 && chain[0] == tip && tip in chain
  {
  }

  /** For distinct tips, left one way is right the other way. */
  lemma PreferenceMirrors(store: Store, a: ObjectId, b: ObjectId)
    requires a != b
    ensures Preference(store, a, b) == Left <==> Preference(store, b, a) == Right
    ensures Preference(store, a, b).Diverged? <==> Preference(store, b, a).Diverged?
  {
    hide OnChain;
    if OnChain(store, a, b) && OnChain(store, b, a) {
      OnChainAntisym(store, a, b);
      assert false;
    }
  }

  lemma PreferenceTransitive(store: Store, a: ObjectId, b: ObjectId, c: ObjectId)
    requires Preference(store, a, b) == Left && Preference(store, b, c) == Left
    ensures Preference(store, a, c) == Left
  {
    OnChainTrans(store, a, b, c);
  }
}
