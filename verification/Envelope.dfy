/** The closed contract of a Change Set, and why a proposal meets it. */
module Envelope {
  import opened Prelude
  import opened PortablePaths
  import opened Boundaries
  import opened ChangeSet
  import opened Inventory
  import opened Propose
  import opened RoundTrip
  import A = Assess
  import V = FolderbaseVersion

  /** One authorized part of the Folderbase; without a prefix it is all of it. */
  type Scope = Option<Path>

  /** Within some scope, and outside the state directory. */
  predicate IsAuthorized(p: Path, authorized: seq<Scope>) {
    && (p != [] ==> p[0] != ".folderbase")
    && exists k :: 0 <= k < |authorized| && (authorized[k].None? || authorized[k].value <= p)
  }

  /** A delta may mention this state. */
  ghost predicate Permitted(s: State, authorized: seq<Scope>) {
    && IsPortablePath(Join(s.path)) && IsAuthorized(s.path, authorized)
    && (s.FileState? ==> |s.content| <= V.MAX_OBJECT_BYTES)
    && (s.LinkState? ==> SafeTarget(Join(s.path), s.target))
  }

  ghost predicate AllPermitted(ds: seq<Delta>, authorized: seq<Scope>) {
    forall d :: d in ds ==>
      && (d.before.Some? ==> Permitted(d.before.value, authorized))
      && (d.after.Some? ==> Permitted(d.after.value, authorized))
  }

  /** The delta changes something, and bytes it creates are staged. */
  predicate Meaningful(d: Delta) {
    && d.before != d.after
    && (d.Creates() && d.after.value.FileState? ==> d.after.value.reference.Staged?)
  }

  predicate OrderedById(ds: seq<Delta>) {
    forall i, j :: 0 <= i < j < |ds| ==> BytesBefore(ds[i].objectId, ds[j].objectId)
  }

  /** No two final paths might be confused. */
  ghost predicate FinalPathsFree(ds: seq<Delta>, keys: A.Keys) {
    forall i, j :: 0 <= i < j < |ds| && ds[i].after.Some? && ds[j].after.Some? ==>
      !Confusable(ds[i].after.value.path, ds[j].after.value.path, keys)
  }

  predicate Confusable(p: Path, q: Path, keys: A.Keys) { p == q || keys.Collide(p, q) }

  ghost predicate ValidDeltas(ds: seq<Delta>, authorized: seq<Scope>, keys: A.Keys) {
    && 1 <= |ds| <= MAX_CHANGE_SET_ENTRIES && OrderedById(ds)
    && (forall d :: d in ds ==> Meaningful(d))
    && AllPermitted(ds, authorized) && FinalPathsFree(ds, keys)
  }

  // ---------- validation ----------

  method ValidateState(s: State, authorized: seq<Scope>) returns (ok: bool)
    ensures ok <==> Permitted(s, authorized)
  {
    if !IsPortablePath(Join(s.path)) || !IsAuthorized(s.path, authorized) {
      return false;
    }
    match s {
      case DirectoryState(_) =>
        return true;
      case FileState(_, content, _, _, _) =>
        return |content| <= V.MAX_OBJECT_BYTES;
      case LinkState(path, target, _) =>
        ok := ValidateSafeSymlinkTarget(Join(path), target);
    }
  }

  ghost predicate PathsFree(paths: seq<Path>, keys: A.Keys) {
    forall i, j :: 0 <= i < j < |paths| ==> !Confusable(paths[i], paths[j], keys)
  }

  /** Refuse colliding paths, with three sets of keys. */
  method RejectPathCollisions(paths: seq<Path>, keys: A.Keys) returns (ok: bool)
    ensures ok <==> PathsFree(paths, keys)
  {
    var exact: set<Path>, nfc: set<string>, folded: set<string> := {}, {}, {};
    for n := 0 to |paths|
      invariant PathsFree(paths[..n], keys)
      invariant exact == (set k | 0 <= k < n :: paths[k])
      invariant nfc == (set k | 0 <= k < n :: keys.nfc(paths[k]))
      invariant folded == (set k | 0 <= k < n :: keys.folded(paths[k]))
    {
      var p := paths[n];
      if p in exact || keys.nfc(p) in nfc || keys.folded(p) in folded {
        var k :| 0 <= k < n && Confusable(paths[k], p, keys);
        return false;
      }
      exact, nfc, folded := exact + {p}, nfc + {keys.nfc(p)}, folded + {keys.folded(p)};
    }
    assert paths[..|paths|] == paths;
    return true;
  }

  /** The final paths of the first deltas, in order, and which delta each comes from. */
  ghost predicate Finals(ds: seq<Delta>, paths: seq<Path>, owners: seq<nat>) {
    && |owners| == |paths|
    && (forall k :: 0 <= k < |paths| ==>
          owners[k] < |ds| && ds[owners[k]].after.Some? && ds[owners[k]].after.value.path == paths[k])
    && (forall j, k :: 0 <= j < k < |paths| ==> owners[j] < owners[k])
    && (forall i: nat :: i < |ds| && ds[i].after.Some? ==> i in owners)
  }

  lemma FinalsExtend(ds: seq<Delta>, n: nat, paths: seq<Path>, owners: seq<nat>)
    requires n < |ds| && Finals(ds[..n], paths, owners)
    ensures if ds[n].after.Some? then Finals(ds[..n + 1], paths + [ds[n].after.value.path], owners + [n])
            else Finals(ds[..n + 1], paths, owners)
  {
    assert forall i :: 0 <= i < n ==> ds[..n + 1][i] == ds[..n][i];
  }

  lemma FinalsAreFree(ds: seq<Delta>, paths: seq<Path>, owners: seq<nat>, keys: A.Keys)
    requires Finals(ds, paths, owners)
    ensures PathsFree(paths, keys) <==> FinalPathsFree(ds, keys)
  {
    if PathsFree(paths, keys) {
      forall i: nat, j: nat | i < j < |ds| && ds[i].after.Some? && ds[j].after.Some?
        ensures !Confusable(ds[i].after.value.path, ds[j].after.value.path, keys)
      {
        var a :| 0 <= a < |owners| && owners[a] == i;
        var b :| 0 <= b < |owners| && owners[b] == j;
        assert a < b;
      }
    }
  }

  method ValidateDelta(d: Delta, authorized: seq<Scope>) returns (ok: bool)
    ensures ok <==> Meaningful(d) && AllPermitted([d], authorized)
  {
    assert forall e :: e in [d] <==> e == d;
    if !Meaningful(d) {
      return false;
    }
    if d.before.Some? {
      ok := ValidateState(d.before.value, authorized);
      if !ok {
        return false;
      }
    }
    ok := true;
    if d.after.Some? {
      ok := ValidateState(d.after.value, authorized);
    }
  }

  ghost predicate ValidPrefix(ds: seq<Delta>, authorized: seq<Scope>) {
    OrderedById(ds) && (forall d :: d in ds ==> Meaningful(d)) && AllPermitted(ds, authorized)
  }

  lemma OneMoreValid(ds: seq<Delta>, n: nat, authorized: seq<Scope>)
    requires n < |ds| && ValidPrefix(ds[..n], authorized)
    ensures ValidPrefix(ds[..n + 1], authorized) <==>
      && (n > 0 ==> BytesBefore(ds[n - 1].objectId, ds[n].objectId))
      && Meaningful(ds[n]) && AllPermitted([ds[n]], authorized)
  {
    var init, longer := ds[..n], ds[..n + 1];
    assert longer == init + [ds[n]];
    assert forall d :: d in longer <==> d in init || d in [ds[n]];
    assert ds[n] in longer;
    if n > 0 && BytesBefore(ds[n - 1].objectId, ds[n].objectId) {
      forall i | 0 <= i < n ensures BytesBefore(ds[i].objectId, ds[n].objectId) {
        if i < n - 1 {
          assert BytesBefore(init[i].objectId, init[n - 1].objectId);
          BytesTransitive(ds[i].objectId, ds[n - 1].objectId, ds[n].objectId);
        }
      }
      assert forall i, j :: 0 <= i < j < n ==> longer[i] == init[i] && longer[j] == init[j];
    }
    if n > 0 && OrderedById(longer) {
      assert BytesBefore(longer[n - 1].objectId, longer[n].objectId);
    }
  }

  /** Decide whether the deltas of an envelope meet the closed contract. */
  method ValidateDeltas(ds: seq<Delta>, authorized: seq<Scope>, keys: A.Keys) returns (ok: bool)
    ensures ok <==> ValidDeltas(ds, authorized, keys)
  {
    if |ds| == 0 || |ds| > MAX_CHANGE_SET_ENTRIES {
      return false;
    }
    var finalPaths: seq<Path> := [];
    ghost var owners: seq<nat> := [];
    for n := 0 to |ds|
      invariant ValidPrefix(ds[..n], authorized) && Finals(ds[..n], finalPaths, owners)
    {
      OneMoreValid(ds, n, authorized);
      ok := ValidateDelta(ds[n], authorized);
      if !ok || (n > 0 && !BytesBefore(ds[n - 1].objectId, ds[n].objectId)) {
        return false;
      }
      FinalsExtend(ds, n, finalPaths, owners);
      if ds[n].after.Some? {
        finalPaths, owners := finalPaths + [ds[n].after.value.path], owners + [n];
      }
    }
    assert ds[..|ds|] == ds;
    FinalsAreFree(ds, finalPaths, owners, keys);
    ok := RejectPathCollisions(finalPaths, keys);
  }

  // ---------- proposals ----------

  /** Order deltas by object ID. */
  method SortById(ds: seq<Delta>) returns (sorted: seq<Delta>)
    requires forall i, j :: 0 <= i < j < |ds| ==> ds[i].objectId != ds[j].objectId
    ensures OrderedById(sorted) && |sorted| == |ds| && forall d :: d in sorted <==> d in ds
  {
    sorted := [];
    for n := 0 to |ds|
      invariant OrderedById(sorted) && |sorted| == n && forall d :: d in sorted <==> d in ds[..n]
    {
      assert ds[..n + 1] == ds[..n] + [ds[n]];
      forall k | 0 <= k < |sorted| ensures sorted[k].objectId != ds[n].objectId {
        assert sorted[k] in ds[..n];
      }
      sorted := InsertById(sorted, ds[n]);
    }
    assert ds[..|ds|] == ds;
  }

  method InsertById(sorted: seq<Delta>, d: Delta) returns (r: seq<Delta>)
    requires OrderedById(sorted) && forall k :: 0 <= k < |sorted| ==> sorted[k].objectId != d.objectId
    ensures OrderedById(r) && |r| == |sorted| + 1 && forall e :: e in r <==> e in sorted || e == d
  {
    var k := 0;
    while k < |sorted| && BytesBefore(sorted[k].objectId, d.objectId)
      invariant k <= |sorted| && forall j :: 0 <= j < k ==> BytesBefore(sorted[j].objectId, d.objectId)
    {
      k := k + 1;
    }
    if k < |sorted| {
      BytesTotal(sorted[k].objectId, d.objectId);
      forall j | k < j < |sorted| ensures BytesBefore(d.objectId, sorted[j].objectId) {
        BytesTransitive(d.objectId, sorted[k].objectId, sorted[j].objectId);
      }
    }
    r := sorted[..k] + [d] + sorted[k..];
    assert sorted == sorted[..k] + sorted[k..];
  }

  /** No two deltas of a set have final paths that might be confused. */
  ghost predicate SetPathsFree(ds: seq<Delta>, keys: A.Keys) {
    forall d, e :: d in ds && e in ds && d != e && d.after.Some? && e.after.Some? ==>
      !Confusable(d.after.value.path, e.after.value.path, keys)
  }

  lemma FreeEitherWay(sorted: seq<Delta>, ds: seq<Delta>, keys: A.Keys)
    requires OrderedById(sorted) && forall d :: d in sorted <==> d in ds
    ensures FinalPathsFree(sorted, keys) <==> SetPathsFree(ds, keys)
  {
    if SetPathsFree(ds, keys) {
      forall i, j | 0 <= i < j < |sorted| && sorted[i].after.Some? && sorted[j].after.Some?
        ensures !Confusable(sorted[i].after.value.path, sorted[j].after.value.path, keys)
      {
        BytesTotal(sorted[i].objectId, sorted[j].objectId);
        assert sorted[i] in ds && sorted[j] in ds;
      }
    }
    if FinalPathsFree(sorted, keys) {
      forall d, e | d in ds && e in ds && d != e && d.after.Some? && e.after.Some?
        ensures !Confusable(d.after.value.path, e.after.value.path, keys)
      {
        var i :| 0 <= i < |sorted| && sorted[i] == d;
        var j :| 0 <= j < |sorted| && sorted[j] == e;
        assert i < j || j < i;
      }
    }
  }

  /**
   Propose and seal.  What comes out is a valid envelope of exactly the proposed deltas; and
   one comes out exactly when their number is allowed, every state mentioned is permitted and
   no final paths collide, so nothing else about a proposal can be refused.
   */
  method SealProposal(base: seq<Entry>, current: seq<Entry>, minted: seq<Minted>, authorized: seq<Scope>, keys: A.Keys)
    returns (envelope: Option<seq<Delta>>, deltas: seq<Delta>, ghost pairs: seq<Pair>, ghost origins: seq<Origin>)
    requires IsBase(base) && IsInventory(current) && MintedFor(base, current, minted)
    ensures Proposed(base, current, pairs, minted, deltas, origins) && Exhausted(base, current, pairs)
    ensures envelope.Some? ==>
      ValidDeltas(envelope.value, authorized, keys) && forall d :: d in envelope.value <==> d in deltas
    ensures envelope.Some? <==>
      1 <= |deltas| <= MAX_CHANGE_SET_ENTRIES && AllPermitted(deltas, authorized) && SetPathsFree(deltas, keys)
  {
    var accepted;
    accepted, deltas, pairs, origins := ProposeDeltas(base, current, minted);
    envelope := None;
    if !accepted {
      return;
    }
    forall i | 0 <= i < |deltas| ensures Meaningful(deltas[i]) {}
    var sorted := SortById(deltas);
    FreeEitherWay(sorted, deltas, keys);
    var ok := ValidateDeltas(sorted, authorized, keys);
    if ok {
      envelope := Some(sorted);
    }
  }
}
