/** Matching a checkout against its projection base, and the deltas that turn one into the other. */
module Propose {
  import opened Prelude
  import opened ChangeSet
  import opened Inventory

  /** A base index matched with a current index. */
  datatype Pair = Pair(b: nat, c: nat)

  ghost predicate InRange(base: seq<Entry>, current: seq<Entry>, pairs: seq<Pair>) {
    forall k :: 0 <= k < |pairs| ==> pairs[k].b < |base| && pairs[k].c < |current|
  }

  /** A kind-preserving partial bijection between base and current entries. */
  ghost predicate IsMatching(base: seq<Entry>, current: seq<Entry>, pairs: seq<Pair>) {
    && InRange(base, current, pairs)
    && (forall k :: 0 <= k < |pairs| ==> base[pairs[k].b].kind == current[pairs[k].c].kind)
    && (forall k, l :: 0 <= k < l < |pairs| ==> pairs[k].b != pairs[l].b && pairs[k].c != pairs[l].c)
  }

  predicate SamePlace(b: Entry, c: Entry) {
    b.path == c.path && b.kind == c.kind
  }

  ghost predicate HasSamePlaces(base: seq<Entry>, current: seq<Entry>, pairs: seq<Pair>) {
    forall b: nat, c: nat {:trigger SamePlace(base[b], current[c])} ::
      b < |base| && c < |current| && SamePlace(base[b], current[c]) ==> Pair(b, c) in pairs
  }

  /** Unmatched base entries with the content of `e`. */
  function Twins(base: seq<Entry>, matched: set<nat>, e: Entry): set<nat> {
    set b: nat | b < |base| && b !in matched && base[b].SameOpaqueContent(e)
  }

  /** Unmatched entries of one kind. */
  function Leftovers(entries: seq<Entry>, matched: set<nat>, kind: Kind): set<nat> {
    set i: nat | i < |entries| && i !in matched && entries[i].kind == kind
  }

  lemma SingletonHolds(s: set<nat>, x: nat, y: nat)
    requires |s| == 1 && x in s && y in s
    ensures x == y
  {
    if x != y {
      assert {x, y} <= s;
      SubsetSize({x, y}, s);
    }
  }

  method SoleElement(s: set<nat>) returns (x: nat)
    requires |s| == 1
    ensures s == {x}
  {
    x :| x in s;
    forall y | y in s ensures y == x { SingletonHolds(s, x, y); }
  }

  lemma SubsetSize(a: set<nat>, b: set<nat>)
    requires a <= b
    ensures |a| <= |b|
  {
    assert b == a + (b - a);
  }

  function BaseSide(pairs: seq<Pair>): set<nat> {
    set k | 0 <= k < |pairs| :: pairs[k].b
  }

  function CurrentSide(pairs: seq<Pair>): set<nat> {
    set k | 0 <= k < |pairs| :: pairs[k].c
  }

  lemma SidesGrow(pairs: seq<Pair>, p: Pair)
    ensures BaseSide(pairs + [p]) == BaseSide(pairs) + {p.b}
    ensures CurrentSide(pairs + [p]) == CurrentSide(pairs) + {p.c}
  {
    var more := pairs + [p];
    assert forall k :: 0 <= k < |pairs| ==> more[k] == pairs[k];
    assert more[|pairs|] == p;
  }

  /** What every pass keeps: a matching with all entries found at their place, whose first `n`
      pairs are justified by place or by equal content. */
  ghost predicate GoodMatching(base: seq<Entry>, current: seq<Entry>, pairs: seq<Pair>, n: nat) {
    && IsMatching(base, current, pairs)
    && HasSamePlaces(base, current, pairs)
    && n <= |pairs|
    && (forall k :: 0 <= k < n ==> Justified(base[pairs[k].b], current[pairs[k].c]))
  }

  predicate Justified(b: Entry, c: Entry) {
    SamePlace(b, c) || b.SameOpaqueContent(c)
  }

  lemma PairExtendsMatching(base: seq<Entry>, current: seq<Entry>, pairs: seq<Pair>, b: nat, c: nat)
    requires IsMatching(base, current, pairs) && b < |base| && c < |current|
    requires b !in BaseSide(pairs) && c !in CurrentSide(pairs) && base[b].kind == current[c].kind
    ensures IsMatching(base, current, pairs + [Pair(b, c)])
    ensures HasSamePlaces(base, current, pairs) ==> HasSamePlaces(base, current, pairs + [Pair(b, c)])
    ensures forall n :: GoodMatching(base, current, pairs, n) ==> GoodMatching(base, current, pairs + [Pair(b, c)], n)
    ensures Justified(base[b], current[c]) && GoodMatching(base, current, pairs, |pairs|) ==>
      GoodMatching(base, current, pairs + [Pair(b, c)], |pairs| + 1)
  {
    SidesGrow(pairs, Pair(b, c));
    var more := pairs + [Pair(b, c)];
    forall k, l | 0 <= k < l < |more| ensures more[k].b != more[l].b && more[k].c != more[l].c {
      if l == |pairs| { assert more[k] == pairs[k]; }
    }
  }

  // ---------- which pairs are made, whatever the order ----------

  ghost predicate PlacedBase(base: seq<Entry>, current: seq<Entry>, b: nat)
    requires b < |base|
  {
    exists c: nat :: c < |current| && SamePlace(base[b], current[c])
  }

  ghost predicate PlacedCurrent(base: seq<Entry>, current: seq<Entry>, c: nat)
    requires c < |current|
  {
    exists b: nat :: b < |base| && SamePlace(base[b], current[c])
  }

  /** Neither entry is at its place, and no other displaced base entry has the content. */
  ghost predicate SoleTwin(base: seq<Entry>, current: seq<Entry>, b: nat, c: nat) {
    && b < |base| && c < |current| && !PlacedBase(base, current, b) && !PlacedCurrent(base, current, c)
    && base[b].SameOpaqueContent(current[c])
    && forall x: nat {:trigger base[x].SameOpaqueContent(current[c])} ::
         x < |base| && !PlacedBase(base, current, x) && base[x].SameOpaqueContent(current[c]) ==> x == b
  }

  /** A rename by content: a sole twin, for the first checkout entry that has it. */
  ghost predicate Renamed(base: seq<Entry>, current: seq<Entry>, b: nat, c: nat) {
    SoleTwin(base, current, b, c) && forall x: nat :: x < c ==> !SoleTwin(base, current, b, x)
  }

  /** Neither at its place nor renamed by content. */
  ghost predicate LeftBase(base: seq<Entry>, current: seq<Entry>, b: nat) {
    b < |base| && !PlacedBase(base, current, b) && forall c: nat :: !Renamed(base, current, b, c)
  }

  ghost predicate LeftCurrent(base: seq<Entry>, current: seq<Entry>, c: nat) {
    c < |current| && !PlacedCurrent(base, current, c) && forall b: nat :: !Renamed(base, current, b, c)
  }

  /** Of their kind, one entry is left in the base and one in the checkout. */
  ghost predicate LastOfKind(base: seq<Entry>, current: seq<Entry>, b: nat, c: nat) {
    && LeftBase(base, current, b) && LeftCurrent(base, current, c) && base[b].kind == current[c].kind
    && (forall x: nat :: LeftBase(base, current, x) && base[x].kind == base[b].kind ==> x == b)
    && (forall x: nat :: LeftCurrent(base, current, x) && current[x].kind == base[b].kind ==> x == c)
  }

  /** The matching is exactly the pairs at one place, the renames by content, and the last of `kinds`. */
  ghost predicate Determined(base: seq<Entry>, current: seq<Entry>, pairs: seq<Pair>, kinds: set<Kind>) {
    forall b: nat, c: nat {:trigger Pair(b, c) in pairs} :: Pair(b, c) in pairs <==>
      && b < |base| && c < |current|
      && (|| SamePlace(base[b], current[c])
          || Renamed(base, current, b, c)
          || (base[b].kind in kinds && LastOfKind(base, current, b, c)))
  }

  /** The state of the second pass: renames are made up to checkout entry `n`. */
  ghost predicate RenamedUpTo(base: seq<Entry>, current: seq<Entry>, pairs: seq<Pair>, n: nat) {
    forall b: nat, c: nat {:trigger Pair(b, c) in pairs} :: Pair(b, c) in pairs <==>
      && b < |base| && c < |current| && (SamePlace(base[b], current[c]) || (c < n && Renamed(base, current, b, c)))
  }

  lemma {:induction false} FirstSoleTwin(base: seq<Entry>, current: seq<Entry>, b: nat, c: nat)
    requires SoleTwin(base, current, b, c)
    ensures exists x: nat :: x <= c && Renamed(base, current, b, x)
  {
    if x: nat :| x < c && SoleTwin(base, current, b, x) {
      FirstSoleTwin(base, current, b, x);
    } else {
      assert Renamed(base, current, b, c);
    }
  }

  lemma InBaseSide(pairs: seq<Pair>, b: nat)
    ensures b in BaseSide(pairs) <==> exists c: nat :: Pair(b, c) in pairs
    ensures b in CurrentSide(pairs) <==> exists x: nat :: Pair(x, b) in pairs
  {
    if c: nat :| Pair(b, c) in pairs {
      var k :| 0 <= k < |pairs| && pairs[k] == Pair(b, c);
    }
    if x: nat :| Pair(x, b) in pairs {
      var k :| 0 <= k < |pairs| && pairs[k] == Pair(x, b);
    }
    if b in BaseSide(pairs) {
      var k :| 0 <= k < |pairs| && pairs[k].b == b;
      assert Pair(b, pairs[k].c) in pairs;
    }
    if b in CurrentSide(pairs) {
      var k :| 0 <= k < |pairs| && pairs[k].c == b;
      assert Pair(pairs[k].b, b) in pairs;
    }
  }

  lemma PlacedIsMatched(base: seq<Entry>, current: seq<Entry>, pairs: seq<Pair>, n: nat)
    requires RenamedUpTo(base, current, pairs, n)
    ensures forall b: nat :: b < |base| && PlacedBase(base, current, b) ==> b in BaseSide(pairs)
    ensures forall c: nat :: c < |current| && PlacedCurrent(base, current, c) ==> c in CurrentSide(pairs)
  {
    forall b: nat | b < |base| && PlacedBase(base, current, b) ensures b in BaseSide(pairs) {
      var c: nat :| c < |current| && SamePlace(base[b], current[c]);
      assert Pair(b, c) in pairs;
      InBaseSide(pairs, b);
    }
    forall c: nat | c < |current| && PlacedCurrent(base, current, c) ensures c in CurrentSide(pairs) {
      var b: nat :| b < |base| && SamePlace(base[b], current[c]);
      assert Pair(b, c) in pairs;
      InBaseSide(pairs, c);
    }
  }

  /** A base entry that was matched before a twin's turn is not another twin of it. */
  lemma MatchedIsNoTwin(base: seq<Entry>, current: seq<Entry>, pairs: seq<Pair>, n: nat, b: nat, x: nat)
    requires n < |current| && RenamedUpTo(base, current, pairs, n)
    requires b < |base| && b !in BaseSide(pairs) && base[b].SameOpaqueContent(current[n])
    requires x < |base| && x in BaseSide(pairs) && base[x].SameOpaqueContent(current[n])
    ensures PlacedBase(base, current, x)
  {
    PlacedIsMatched(base, current, pairs, n);
    InBaseSide(pairs, x);
    var c: nat :| Pair(x, c) in pairs;
    assert Renamed(base, current, x, c) ==> base[b].SameOpaqueContent(current[c]);
  }

  /** What the second pass finds is a rename by content. */
  lemma CandidateIsRenamed(base: seq<Entry>, current: seq<Entry>, pairs: seq<Pair>, n: nat, b: nat)
    requires n < |current| && RenamedUpTo(base, current, pairs, n) && n !in CurrentSide(pairs)
    requires Twins(base, BaseSide(pairs), current[n]) == {b}
    ensures Renamed(base, current, b, n)
  {
    assert b in Twins(base, BaseSide(pairs), current[n]);
    PlacedIsMatched(base, current, pairs, n);
    InBaseSide(pairs, b);
    forall x: nat | x < |base| && !PlacedBase(base, current, x) && base[x].SameOpaqueContent(current[n])
      ensures x == b
    {
      if x in BaseSide(pairs) {
        MatchedIsNoTwin(base, current, pairs, n, b, x);
      }
      assert x in Twins(base, BaseSide(pairs), current[n]);
    }
    assert SoleTwin(base, current, b, n);
    FirstSoleTwin(base, current, b, n);
    var x: nat :| x <= n && Renamed(base, current, b, x);
    assert x < n ==> Pair(b, x) in pairs;
  }

  /** Every rename by content is found when its turn comes. */
  lemma RenamedIsCandidate(base: seq<Entry>, current: seq<Entry>, pairs: seq<Pair>, n: nat, b: nat)
    requires n < |current| && RenamedUpTo(base, current, pairs, n) && Renamed(base, current, b, n)
    ensures n !in CurrentSide(pairs) && Twins(base, BaseSide(pairs), current[n]) == {b}
  {
    PlacedIsMatched(base, current, pairs, n);
    InBaseSide(pairs, b);
    InBaseSide(pairs, n);
    assert b !in BaseSide(pairs);
  }

  lemma RenameIsMade(base: seq<Entry>, current: seq<Entry>, pairs: seq<Pair>, n: nat, b: nat)
    requires n < |current| && RenamedUpTo(base, current, pairs, n) && n !in CurrentSide(pairs)
    requires Twins(base, BaseSide(pairs), current[n]) == {b}
    ensures RenamedUpTo(base, current, pairs + [Pair(b, n)], n + 1)
  {
    CandidateIsRenamed(base, current, pairs, n, b);
    forall x: nat | Renamed(base, current, x, n) ensures x == b {
      RenamedIsCandidate(base, current, pairs, n, x);
    }
    forall x: nat, c: nat ensures Pair(x, c) in pairs + [Pair(b, n)] <==> Pair(x, c) in pairs || (x == b && c == n) {}
  }

  lemma NoRenameIsMissed(base: seq<Entry>, current: seq<Entry>, pairs: seq<Pair>, n: nat)
    requires n < |current| && RenamedUpTo(base, current, pairs, n)
    requires n in CurrentSide(pairs) || |Twins(base, BaseSide(pairs), current[n])| != 1
    ensures RenamedUpTo(base, current, pairs, n + 1)
  {
    forall x: nat ensures !Renamed(base, current, x, n) {
      if Renamed(base, current, x, n) {
        RenamedIsCandidate(base, current, pairs, n, x);
      }
    }
  }

  /** First pass: an entry of the same kind at the same path. */
  method MatchSamePlaces(base: seq<Entry>, current: seq<Entry>) returns (pairs: seq<Pair>)
    requires IsInventory(base) && IsInventory(current)
    ensures GoodMatching(base, current, pairs, |pairs|) && RenamedUpTo(base, current, pairs, 0)
  {
    var byPath: map<Path, nat> := map[];
    for b := 0 to |base|
      invariant forall p :: p in byPath ==> byPath[p] < b && base[byPath[p]].path == p
      invariant forall x :: 0 <= x < b ==> base[x].path in byPath
    {
      byPath := byPath[base[b].path := b];
    }
    pairs := [];
    for c := 0 to |current|
      invariant IsMatching(base, current, pairs)
      invariant forall k :: 0 <= k < |pairs| ==> pairs[k].c < c && SamePlace(base[pairs[k].b], current[pairs[k].c])
      invariant forall b: nat, x: nat :: b < |base| && x < c && SamePlace(base[b], current[x]) ==> Pair(b, x) in pairs
    {
      var e := current[c];
      if e.path in byPath && base[byPath[e.path]].kind == e.kind {
        PairExtendsMatching(base, current, pairs, byPath[e.path], c);
        pairs := pairs + [Pair(byPath[e.path], c)];
      }
    }
  }

  /** No unmatched current entry below `n` has exactly one unmatched twin in the base. */
  ghost predicate NoSoleTwin(base: seq<Entry>, current: seq<Entry>, pairs: seq<Pair>, n: nat)
    requires n <= |current|
  {
    forall c {:trigger Twins(base, BaseSide(pairs), current[c])} :: 0 <= c < n && c !in CurrentSide(pairs) ==>
      |Twins(base, BaseSide(pairs), current[c])| != 1
  }

  /** Matching a sole twin does not turn another entry's twins into a sole one. */
  lemma SoleTwinMatchKeeps(base: seq<Entry>, current: seq<Entry>, pairs: seq<Pair>, n: nat, b: nat)
    requires n < |current| && b < |base| && NoSoleTwin(base, current, pairs, n)
    requires Twins(base, BaseSide(pairs), current[n]) == {b}
    ensures NoSoleTwin(base, current, pairs + [Pair(b, n)], n + 1)
  {
    SidesGrow(pairs, Pair(b, n));
    var more := BaseSide(pairs + [Pair(b, n)]);
    forall c | 0 <= c < n && c !in CurrentSide(pairs + [Pair(b, n)])
      ensures |Twins(base, more, current[c])| != 1
    {
      var twins := Twins(base, BaseSide(pairs), current[c]);
      assert b in Twins(base, BaseSide(pairs), current[n]);
      if base[b].SameOpaqueContent(current[c]) {
        assert twins == Twins(base, BaseSide(pairs), current[n]);
      } else {
        assert twins == Twins(base, more, current[c]);
      }
    }
  }

  /** Matching the only entry left of a kind leaves no twins of that kind at all. */
  lemma SoleLeftMatchKeeps(base: seq<Entry>, current: seq<Entry>, pairs: seq<Pair>, kind: Kind, b: nat, c: nat)
    requires b < |base| && c < |current| && NoSoleTwin(base, current, pairs, |current|)
    requires Leftovers(base, BaseSide(pairs), kind) == {b}
    ensures NoSoleTwin(base, current, pairs + [Pair(b, c)], |current|)
  {
    SidesGrow(pairs, Pair(b, c));
    var more := BaseSide(pairs + [Pair(b, c)]);
    forall x | 0 <= x < |current| && x !in CurrentSide(pairs + [Pair(b, c)])
      ensures |Twins(base, more, current[x])| != 1
    {
      assert b in Leftovers(base, BaseSide(pairs), kind);
      if current[x].kind == kind {
        assert Twins(base, more, current[x]) <= Leftovers(base, BaseSide(pairs), kind) - {b};
      } else {
        assert Twins(base, BaseSide(pairs), current[x]) == Twins(base, more, current[x]);
      }
    }
  }

  /** Second pass: unambiguous equal content is a rename. */
  method MatchTwins(base: seq<Entry>, current: seq<Entry>, same: seq<Pair>) returns (pairs: seq<Pair>)
    requires GoodMatching(base, current, same, |same|) && RenamedUpTo(base, current, same, 0)
    ensures GoodMatching(base, current, pairs, |pairs|) && DirectoriesStay(base, current, pairs)
    ensures NoSoleTwin(base, current, pairs, |current|) && RenamedUpTo(base, current, pairs, |current|)
  {
    pairs := same;
    var matchedBase, matchedCurrent := BaseSide(same), CurrentSide(same);
    for c := 0 to |current|
      invariant GoodMatching(base, current, pairs, |pairs|)
      invariant matchedBase == BaseSide(pairs) && matchedCurrent == CurrentSide(pairs)
      invariant NoSoleTwin(base, current, pairs, c) && RenamedUpTo(base, current, pairs, c)
    {
      var candidates := Twins(base, matchedBase, current[c]);
      if c in matchedCurrent || |candidates| != 1 {
        NoRenameIsMissed(base, current, pairs, c);
      }
      if c !in matchedCurrent {
        if |candidates| == 1 {
          var b := SoleElement(candidates);
          RenameIsMade(base, current, pairs, c, b);
          PairExtendsMatching(base, current, pairs, b, c);
          SoleTwinMatchKeeps(base, current, pairs, c, b);
          SidesGrow(pairs, Pair(b, c));
          pairs := pairs + [Pair(b, c)];
          matchedBase, matchedCurrent := matchedBase + {b}, matchedCurrent + {c};
        }
      }
    }
  }

  /** Both sides have exactly one unmatched entry of this kind. */
  ghost predicate OneLeftOnEachSide(base: seq<Entry>, current: seq<Entry>, pairs: seq<Pair>, kind: Kind) {
    |Leftovers(base, BaseSide(pairs), kind)| == 1 && |Leftovers(current, CurrentSide(pairs), kind)| == 1
  }

  lemma RenamesAreDetermined(base: seq<Entry>, current: seq<Entry>, pairs: seq<Pair>)
    requires RenamedUpTo(base, current, pairs, |current|)
    ensures Determined(base, current, pairs, {})
  {}

  /** What is unmatched of a kind not paired off yet is what is left of it. */
  lemma UnmatchedIsLeft(base: seq<Entry>, current: seq<Entry>, pairs: seq<Pair>, kinds: set<Kind>, kind: Kind)
    requires Determined(base, current, pairs, kinds) && kind !in kinds && IsMatching(base, current, pairs)
    ensures forall b: nat :: b in Leftovers(base, BaseSide(pairs), kind) <==>
      b < |base| && base[b].kind == kind && LeftBase(base, current, b)
    ensures forall c: nat :: c in Leftovers(current, CurrentSide(pairs), kind) <==>
      c < |current| && current[c].kind == kind && LeftCurrent(base, current, c)
  {
    forall b: nat | b < |base| && base[b].kind == kind && b in BaseSide(pairs) ensures !LeftBase(base, current, b) {
      InBaseSide(pairs, b);
      var c: nat :| Pair(b, c) in pairs;
    }
    forall b: nat | b < |base| && !LeftBase(base, current, b) ensures b in BaseSide(pairs) {
      InBaseSide(pairs, b);
      var c: nat :| c < |current| && (SamePlace(base[b], current[c]) || Renamed(base, current, b, c));
      assert Pair(b, c) in pairs;
    }
    forall c: nat | c < |current| && current[c].kind == kind && c in CurrentSide(pairs)
      ensures !LeftCurrent(base, current, c)
    {
      InBaseSide(pairs, c);
      var b: nat :| Pair(b, c) in pairs;
      KindsAgree(base, current, pairs, b, c);
    }
    forall c: nat | c < |current| && !LeftCurrent(base, current, c) ensures c in CurrentSide(pairs) {
      InBaseSide(pairs, c);
      var b: nat :| b < |base| && (SamePlace(base[b], current[c]) || Renamed(base, current, b, c));
      assert Pair(b, c) in pairs;
    }
  }

  lemma KindsAgree(base: seq<Entry>, current: seq<Entry>, pairs: seq<Pair>, b: nat, c: nat)
    requires IsMatching(base, current, pairs) && Pair(b, c) in pairs
    ensures b < |base| && c < |current| && base[b].kind == current[c].kind
  {}

  /** Pairing the last two of a kind, if there are just these, determines that kind too. */
  lemma LastIsDetermined(base: seq<Entry>, current: seq<Entry>, before: seq<Pair>, kinds: set<Kind>, kind: Kind,
                         pairs: seq<Pair>)
    requires Determined(base, current, before, kinds) && kind !in kinds && IsMatching(base, current, before)
    requires var l, r := Leftovers(base, BaseSide(before), kind), Leftovers(current, CurrentSide(before), kind);
      if |l| == 1 && |r| == 1
      then exists b: nat, c: nat :: l == {b} && r == {c} && pairs == before + [Pair(b, c)]
      else pairs == before
    ensures Determined(base, current, pairs, kinds + {kind})
  {
    UnmatchedIsLeft(base, current, before, kinds, kind);
    var l, r := Leftovers(base, BaseSide(before), kind), Leftovers(current, CurrentSide(before), kind);
    forall b: nat, c: nat | LastOfKind(base, current, b, c) && base[b].kind == kind ensures l == {b} && r == {c} {
      assert b in l && c in r;
    }
    if |l| == 1 && |r| == 1 {
      var b: nat, c: nat :| l == {b} && r == {c} && pairs == before + [Pair(b, c)];
      assert b in l && c in r;
      assert LastOfKind(base, current, b, c);
      forall x: nat, y: nat ensures Pair(x, y) in pairs <==> Pair(x, y) in before || (x == b && y == c) {}
    }
  }

  lemma LastPairFits(base: seq<Entry>, current: seq<Entry>, pairs: seq<Pair>, kind: Kind, b: nat, c: nat)
    requires IsMatching(base, current, pairs) && NoSoleTwin(base, current, pairs, |current|)
    requires DirectoriesStay(base, current, pairs) && kind != Directory
    requires Leftovers(base, BaseSide(pairs), kind) == {b} && Leftovers(current, CurrentSide(pairs), kind) == {c}
    ensures var more := pairs + [Pair(b, c)];
      && IsMatching(base, current, more) && DirectoriesStay(base, current, more)
      && (forall n :: GoodMatching(base, current, pairs, n) ==> GoodMatching(base, current, more, n))
      && NoSoleTwin(base, current, more, |current|) && !OneLeftOnEachSide(base, current, more, kind)
  {
    assert b in Leftovers(base, BaseSide(pairs), kind) && c in Leftovers(current, CurrentSide(pairs), kind);
    PairExtendsMatching(base, current, pairs, b, c);
    SoleLeftMatchKeeps(base, current, pairs, kind, b, c);
    SidesGrow(pairs, Pair(b, c));
    assert Leftovers(base, BaseSide(pairs + [Pair(b, c)]), kind) == Leftovers(base, BaseSide(pairs), kind) - {b} == {};
  }

  /** Third pass, for one kind: pair the last unmatched entry with the last unmatched entry. */
  method MatchLeftovers(base: seq<Entry>, current: seq<Entry>, before: seq<Pair>, kind: Kind, ghost kinds: set<Kind>)
    returns (pairs: seq<Pair>)
    requires Determined(base, current, before, kinds) && kind !in kinds
    requires IsMatching(base, current, before) && NoSoleTwin(base, current, before, |current|)
    requires DirectoriesStay(base, current, before) && kind != Directory
    ensures IsMatching(base, current, pairs) && DirectoriesStay(base, current, pairs)
    ensures forall n :: GoodMatching(base, current, before, n) ==> GoodMatching(base, current, pairs, n)
    ensures NoSoleTwin(base, current, pairs, |current|)
    ensures !OneLeftOnEachSide(base, current, pairs, kind) && Determined(base, current, pairs, kinds + {kind})
    ensures if OneLeftOnEachSide(base, current, before, kind)
            then exists b: nat, c: nat ::
                   && b < |base| && base[b].kind == kind && c < |current| && current[c].kind == kind
                   && pairs == before + [Pair(b, c)]
            else pairs == before
  {
    pairs := before;
    var remainingBase := Leftovers(base, BaseSide(pairs), kind);
    var remainingCurrent := Leftovers(current, CurrentSide(pairs), kind);
    if |remainingBase| == 1 && |remainingCurrent| == 1 {
      var b := SoleElement(remainingBase);
      var c := SoleElement(remainingCurrent);
      LastPairFits(base, current, pairs, kind, b, c);
      pairs := pairs + [Pair(b, c)];
    }
    LastIsDetermined(base, current, before, kinds, kind, pairs);
  }

  /** A pair of another kind does not change what is left of this kind. */
  lemma OtherKindLeft(base: seq<Entry>, current: seq<Entry>, pairs: seq<Pair>, b: nat, c: nat, kind: Kind)
    requires b < |base| && c < |current| && base[b].kind != kind && current[c].kind != kind
    ensures OneLeftOnEachSide(base, current, pairs + [Pair(b, c)], kind) <==>
      OneLeftOnEachSide(base, current, pairs, kind)
  {
    SidesGrow(pairs, Pair(b, c));
    assert Leftovers(base, BaseSide(pairs + [Pair(b, c)]), kind) == Leftovers(base, BaseSide(pairs), kind);
    assert Leftovers(current, CurrentSide(pairs + [Pair(b, c)]), kind) == Leftovers(current, CurrentSide(pairs), kind);
  }

  /** Pairs never move a directory. */
  ghost predicate DirectoriesStay(base: seq<Entry>, current: seq<Entry>, pairs: seq<Pair>)
    requires InRange(base, current, pairs)
  {
    forall k :: 0 <= k < |pairs| && base[pairs[k].b].kind == Directory ==>
      base[pairs[k].b].path == current[pairs[k].c].path
  }

  /** Which entries are matched: those at one place, the renames by content, and the last of
      their kind on both sides.  So all but two of the pairs are of one place or of equal content,
      and nothing is left that has a sole twin or is alone of its kind on both sides. */
  ghost predicate Exhausted(base: seq<Entry>, current: seq<Entry>, pairs: seq<Pair>) {
    && Determined(base, current, pairs, {RegularFile, Symlink})
    && (exists n: nat :: |pairs| - 2 <= n <= |pairs| && GoodMatching(base, current, pairs, n))
    && NoSoleTwin(base, current, pairs, |current|)
    && !OneLeftOnEachSide(base, current, pairs, RegularFile) && !OneLeftOnEachSide(base, current, pairs, Symlink)
  }

  /**
   Match a checkout against its base: a kind-preserving partial bijection that keeps every
   entry found at its place, pairs equal content where the base has it once, and then at
   most one leftover of each content kind, and pairs nothing else.  Directories never move.
   */
  method MatchInventory(base: seq<Entry>, current: seq<Entry>) returns (pairs: seq<Pair>)
    requires IsInventory(base) && IsInventory(current)
    ensures IsMatching(base, current, pairs) && HasSamePlaces(base, current, pairs)
    ensures DirectoriesStay(base, current, pairs)
    ensures Exhausted(base, current, pairs)
  {
    pairs := MatchSamePlaces(base, current);
    pairs := MatchTwins(base, current, pairs);
    ghost var twins := pairs;
    RenamesAreDetermined(base, current, pairs);
    pairs := MatchLeftovers(base, current, pairs, RegularFile, {});
    ghost var files := pairs;
    assert GoodMatching(base, current, files, |twins|);
    pairs := MatchLeftovers(base, current, pairs, Symlink, {RegularFile});
    assert GoodMatching(base, current, pairs, |twins|);
    if pairs != files {
      var b: nat, c: nat :| b < |base| && base[b].kind == Symlink && c < |current| && current[c].kind == Symlink &&
        pairs == files + [Pair(b, c)];
      OtherKindLeft(base, current, files, b, c, RegularFile);
    }
  }

  /** Of two displaced base entries with one content neither is paired with anything. */
  lemma AmbiguityIsNotGuessed(base: seq<Entry>, current: seq<Entry>, pairs: seq<Pair>, b: nat, x: nat, c: nat)
    requires Determined(base, current, pairs, {RegularFile, Symlink})
    requires b < |base| && x < |base| && b != x && base[b].SameOpaqueContent(base[x])
    requires !PlacedBase(base, current, b) && !PlacedBase(base, current, x)
    ensures Pair(b, c) !in pairs
  {
    forall y: nat ensures !Renamed(base, current, b, y) && !Renamed(base, current, x, y) {
      assert y < |current| ==> (base[b].SameOpaqueContent(current[y]) <==> base[x].SameOpaqueContent(current[y]));
    }
    assert LeftBase(base, current, b) && LeftBase(base, current, x);
  }

  // ---------- deltas ----------

  const MAX_CHANGE_SET_ENTRIES := 16384

  /** The identifiers minted for one checkout entry. */
  datatype Minted = Minted(objectId: ObjectId, version: string, stagingId: string)

  ghost predicate IsBase(base: seq<Entry>) {
    && IsInventory(base)
    && (forall i :: 0 <= i < |base| ==> base[i].objectId.Some? && (base[i].kind != Directory ==> base[i].version.Some?))
    && (forall i, j :: 0 <= i < j < |base| ==> base[i].objectId != base[j].objectId)
  }

  ghost predicate MintedFor(base: seq<Entry>, current: seq<Entry>, minted: seq<Minted>) {
    && |minted| == |current|
    && (forall i, j :: 0 <= i < j < |minted| ==> minted[i].objectId != minted[j].objectId)
    && (forall i, b :: 0 <= i < |minted| && 0 <= b < |base| ==> base[b].objectId != Some(minted[i].objectId))
  }

  function BaseState(e: Entry): State
    requires e.Filled() && (e.kind != Directory ==> e.version.Some?)
  {
    match e.kind
    case Directory => DirectoryState(e.path)
    case RegularFile => FileState(e.path, e.content.value, e.executable.value, e.version.value, ProjectionBase)
    case Symlink => LinkState(e.path, e.target.value, e.version.value)
  }

  function CurrentState(e: Entry, base: Option<Entry>, minted: Minted): State
    requires e.Filled()
    requires base.Some? && base.value.kind != Directory ==> base.value.version.Some?
    requires base.Some? ==> base.value.kind == e.kind
  {
    match e.kind
    case Directory => DirectoryState(e.path)
    case RegularFile =>
      if base.Some? && base.value.content == e.content && base.value.executable == e.executable then
        FileState(e.path, e.content.value, e.executable.value, base.value.version.value, ProjectionBase)
      else
        FileState(e.path, e.content.value, e.executable.value, minted.version, Staged(minted.stagingId))
    case Symlink =>
      LinkState(e.path, e.target.value,
                if base.Some? && base.value.target == e.target then base.value.version.value else minted.version)
  }

  /** Why a delta exists: a pair that changed, a base entry that is gone, a checkout entry that is new. */
  datatype Origin = Changed(b: nat, c: nat) | Gone(b: nat) | New(c: nat)

  ghost predicate IsOrigin(base: seq<Entry>, current: seq<Entry>, pairs: seq<Pair>, o: Origin)
    requires InRange(base, current, pairs)
  {
    match o
    case Changed(b, c) => Pair(b, c) in pairs && !base[b].SameState(current[c])
    case Gone(b) => b < |base| && forall k :: 0 <= k < |pairs| ==> pairs[k].b != b
    case New(c) => c < |current| && forall k :: 0 <= k < |pairs| ==> pairs[k].c != c
  }

  predicate OriginInRange(base: seq<Entry>, current: seq<Entry>, o: Origin) {
    match o
    case Changed(b, c) => b < |base| && c < |current| && base[b].kind == current[c].kind
    case Gone(b) => b < |base|
    case New(c) => c < |current|
  }

  function DeltaOf(base: seq<Entry>, current: seq<Entry>, minted: seq<Minted>, o: Origin): Delta
    requires IsBase(base) && IsInventory(current) && |minted| == |current| && OriginInRange(base, current, o)
  {
    match o
    case Changed(b, c) =>
      Delta(base[b].objectId.value, Some(BaseState(base[b])), Some(CurrentState(current[c], Some(base[b]), minted[c])))
    case Gone(b) => Delta(base[b].objectId.value, Some(BaseState(base[b])), None)
    case New(c) => Delta(minted[c].objectId, None, Some(CurrentState(current[c], None, minted[c])))
  }

  /** Each origin has exactly one delta, and each delta has an origin. */
  ghost predicate Explained(base: seq<Entry>, current: seq<Entry>, pairs: seq<Pair>, minted: seq<Minted>,
                            deltas: seq<Delta>, origins: seq<Origin>)
    requires IsBase(base) && IsInventory(current) && |minted| == |current| && IsMatching(base, current, pairs)
  {
    && |origins| == |deltas|
    && (forall i :: 0 <= i < |origins| ==>
          && IsOrigin(base, current, pairs, origins[i])
          && OriginInRange(base, current, origins[i])
          && deltas[i] == DeltaOf(base, current, minted, origins[i]))
    && (forall i, j :: 0 <= i < j < |origins| ==> origins[i] != origins[j])
  }

  /** One delta per matched pair whose state changed. */
  method ChangedDeltas(base: seq<Entry>, current: seq<Entry>, minted: seq<Minted>, pairs: seq<Pair>)
    returns (deltas: seq<Delta>, ghost origins: seq<Origin>)
    requires IsBase(base) && IsInventory(current) && |minted| == |current| && IsMatching(base, current, pairs)
    ensures Explained(base, current, pairs, minted, deltas, origins)
    ensures forall o :: o in origins <==> o.Changed? && IsOrigin(base, current, pairs, o)
  {
    deltas, origins := [], [];
    for k := 0 to |pairs|
      invariant Explained(base, current, pairs, minted, deltas, origins)
      invariant forall o :: o in origins <==>
        o.Changed? && IsOrigin(base, current, pairs, o) && Pair(o.b, o.c) in pairs[..k]
    {
      var b, c := pairs[k].b, pairs[k].c;
      assert pairs[..k + 1] == pairs[..k] + [pairs[k]];
      assert pairs[k] in pairs;
      if !base[b].SameState(current[c]) {
        deltas := deltas + [DeltaOf(base, current, minted, Changed(b, c))];
        origins := origins + [Changed(b, c)];
      }
    }
    assert pairs[..|pairs|] == pairs;
  }

  /** Then one delta per base entry nothing matched. */
  method GoneDeltas(base: seq<Entry>, current: seq<Entry>, minted: seq<Minted>, pairs: seq<Pair>,
                    changed: seq<Delta>, ghost before: seq<Origin>)
    returns (deltas: seq<Delta>, ghost origins: seq<Origin>)
    requires IsBase(base) && IsInventory(current) && |minted| == |current| && IsMatching(base, current, pairs)
    requires Explained(base, current, pairs, minted, changed, before)
    requires forall o :: o in before ==> o.Changed?
    ensures Explained(base, current, pairs, minted, deltas, origins)
    ensures forall o :: o in origins <==> o in before || (o.Gone? && IsOrigin(base, current, pairs, o))
  {
    deltas, origins := changed, before;
    for b := 0 to |base|
      invariant Explained(base, current, pairs, minted, deltas, origins)
      invariant forall o :: o in origins <==> o in before || (o.Gone? && o.b < b && IsOrigin(base, current, pairs, o))
    {
      if !exists k :: 0 <= k < |pairs| && pairs[k].b == b {
        deltas := deltas + [DeltaOf(base, current, minted, Gone(b))];
        origins := origins + [Gone(b)];
      }
    }
  }

  /** Then one delta per checkout entry nothing matched. */
  method NewDeltas(base: seq<Entry>, current: seq<Entry>, minted: seq<Minted>, pairs: seq<Pair>,
                   earlier: seq<Delta>, ghost before: seq<Origin>)
    returns (deltas: seq<Delta>, ghost origins: seq<Origin>)
    requires IsBase(base) && IsInventory(current) && |minted| == |current| && IsMatching(base, current, pairs)
    requires Explained(base, current, pairs, minted, earlier, before)
    requires forall o :: o in before ==> !o.New?
    ensures Explained(base, current, pairs, minted, deltas, origins)
    ensures forall o :: o in origins <==> o in before || (o.New? && IsOrigin(base, current, pairs, o))
  {
    deltas, origins := earlier, before;
    for c := 0 to |current|
      invariant Explained(base, current, pairs, minted, deltas, origins)
      invariant forall o :: o in origins <==> o in before || (o.New? && o.c < c && IsOrigin(base, current, pairs, o))
    {
      if !exists k :: 0 <= k < |pairs| && pairs[k].c == c {
        deltas := deltas + [DeltaOf(base, current, minted, New(c))];
        origins := origins + [New(c)];
      }
    }
  }

  /** A complete proposal: every origin of the matching is explained by exactly one delta. */
  ghost predicate Proposed(base: seq<Entry>, current: seq<Entry>, pairs: seq<Pair>, minted: seq<Minted>,
                           ds: seq<Delta>, origins: seq<Origin>)
  {
    && IsBase(base) && IsInventory(current) && MintedFor(base, current, minted)
    && IsMatching(base, current, pairs) && HasSamePlaces(base, current, pairs) && DirectoriesStay(base, current, pairs)
    && (forall o :: o in origins <==> IsOrigin(base, current, pairs, o))
    && Explained(base, current, pairs, minted, ds, origins)
  }

  /** Form the deltas of a matched checkout; a set must have from 1 through 16384 of them. */
  method ProposeDeltas(base: seq<Entry>, current: seq<Entry>, minted: seq<Minted>)
    returns (accepted: bool, deltas: seq<Delta>, ghost pairs: seq<Pair>, ghost origins: seq<Origin>)
    requires IsBase(base) && IsInventory(current) && MintedFor(base, current, minted)
    ensures Proposed(base, current, pairs, minted, deltas, origins) && Exhausted(base, current, pairs)
    ensures accepted <==> 1 <= |deltas| <= MAX_CHANGE_SET_ENTRIES
  {
    var matches := MatchInventory(base, current);
    pairs := matches;
    var changed, changedOrigins := ChangedDeltas(base, current, minted, matches);
    var gone, goneOrigins := GoneDeltas(base, current, minted, matches, changed, changedOrigins);
    deltas, origins := NewDeltas(base, current, minted, matches, gone, goneOrigins);
    accepted := 1 <= |deltas| <= MAX_CHANGE_SET_ENTRIES;
  }

  // ---------- the proposal is a correct patch ----------

  /** The base entry is matched by an entry in the same state, so no delta mentions it. */
  ghost predicate Unchanged(base: seq<Entry>, current: seq<Entry>, pairs: seq<Pair>, b: nat, c: nat)
    requires b < |base| && c < |current|
  {
    Pair(b, c) in pairs && base[b].SameState(current[c])
  }

  lemma MatchingIsOneToOne(base: seq<Entry>, current: seq<Entry>, pairs: seq<Pair>, p: Pair, q: Pair)
    requires IsMatching(base, current, pairs) && p in pairs && q in pairs
    ensures p == q || (p.b != q.b && p.c != q.c)
  {}

  lemma OriginHasBeforePath(base: seq<Entry>, current: seq<Entry>, pairs: seq<Pair>, minted: seq<Minted>,
                            ds: seq<Delta>, origins: seq<Origin>, o: Origin)
    requires Proposed(base, current, pairs, minted, ds, origins)
    requires !o.New? && IsOrigin(base, current, pairs, o)
    ensures o.b < |base| && BeforeAt(ds, base[o.b].path)
  {
    var i :| 0 <= i < |origins| && origins[i] == o;
    assert ds[i].before.Some?;
  }

  lemma BeforePathsOfProposal(base: seq<Entry>, current: seq<Entry>, pairs: seq<Pair>, minted: seq<Minted>,
                              ds: seq<Delta>, origins: seq<Origin>, b: nat)
    requires Proposed(base, current, pairs, minted, ds, origins) && b < |base|
    ensures BeforeAt(ds, base[b].path) <==> !exists c: nat :: c < |current| && Unchanged(base, current, pairs, b, c)
  {
    if k: nat :| k < |pairs| && pairs[k].b == b {
      var c := pairs[k].c;
      assert pairs[k] in pairs;
      if base[b].SameState(current[c]) {
        assert Unchanged(base, current, pairs, b, c);
        forall i: nat | i < |ds| && ds[i].before.Some? ensures ds[i].before.value.path != base[b].path {}
      } else {
        OriginHasBeforePath(base, current, pairs, minted, ds, origins, Changed(b, c));
        forall x: nat | x < |current| && Unchanged(base, current, pairs, b, x) ensures false {
          MatchingIsOneToOne(base, current, pairs, Pair(b, x), pairs[k]);
        }
      }
    } else {
      OriginHasBeforePath(base, current, pairs, minted, ds, origins, Gone(b));
    }
  }

  lemma AfterPathsOfProposal(base: seq<Entry>, current: seq<Entry>, pairs: seq<Pair>, minted: seq<Minted>,
                             ds: seq<Delta>, origins: seq<Origin>, c: nat)
    requires Proposed(base, current, pairs, minted, ds, origins) && c < |current|
    ensures AfterAt(ds, current[c].path) <==> !exists b: nat :: b < |base| && Unchanged(base, current, pairs, b, c)
  {
    if k: nat :| k < |pairs| && pairs[k].c == c {
      var b := pairs[k].b;
      assert pairs[k] in pairs;
      if base[b].SameState(current[c]) {
        assert Unchanged(base, current, pairs, b, c);
        forall i: nat | i < |ds| && ds[i].after.Some? ensures ds[i].after.value.path != current[c].path {}
      } else {
        OriginHasAfterPath(base, current, pairs, minted, ds, origins, Changed(b, c));
        forall x: nat | x < |base| && Unchanged(base, current, pairs, x, c) ensures false {
          MatchingIsOneToOne(base, current, pairs, Pair(x, c), pairs[k]);
        }
      }
    } else {
      OriginHasAfterPath(base, current, pairs, minted, ds, origins, New(c));
    }
  }

  lemma OriginHasAfterPath(base: seq<Entry>, current: seq<Entry>, pairs: seq<Pair>, minted: seq<Minted>,
                           ds: seq<Delta>, origins: seq<Origin>, o: Origin)
    requires Proposed(base, current, pairs, minted, ds, origins)
    requires !o.Gone? && IsOrigin(base, current, pairs, o)
    ensures o.c < |current| && AfterAt(ds, current[o.c].path)
  {
    var i :| 0 <= i < |origins| && origins[i] == o;
    assert ds[i].after.Some?;
  }

  /** The base entry is matched with the checkout entry at this path. */
  predicate LeadsTo(current: seq<Entry>, pairs: seq<Pair>, b: nat, p: Path) {
    exists c :: 0 <= c < |current| && Pair(b, c) in pairs && current[c].path == p
  }

  /** A changed or lost entry is named by its base object, wherever it went, and described as the
      base has it; a new one gets the name minted for it, which no base object has. */
  lemma IdentityFollowsBase(base: seq<Entry>, current: seq<Entry>, pairs: seq<Pair>, minted: seq<Minted>,
                            ds: seq<Delta>, origins: seq<Origin>, i: nat)
    requires Proposed(base, current, pairs, minted, ds, origins) && i < |ds|
    ensures ds[i].before.Some? ==>
      exists b: nat :: b < |base| && base[b].path == ds[i].before.value.path &&
        base[b].objectId == Some(ds[i].objectId) && ds[i].before.value.Node() == base[b].Node() &&
        (!ds[i].before.value.DirectoryState? ==> base[b].version == Some(ds[i].before.value.version)) &&
        (ds[i].after.Some? ==> LeadsTo(current, pairs, b, ds[i].after.value.path))
    ensures ds[i].before.None? ==>
      && (forall b :: 0 <= b < |base| ==> base[b].objectId != Some(ds[i].objectId))
      && exists c: nat :: c < |current| && current[c].path == ds[i].after.value.path &&
           ds[i].objectId == minted[c].objectId
  {
    var o := origins[i];
    assert IsOrigin(base, current, pairs, o) && ds[i] == DeltaOf(base, current, minted, o);
    if o.New? {
      assert current[o.c].path == ds[i].after.value.path;
    } else {
      assert base[o.b].path == ds[i].before.value.path;
    }
  }

  /** An entry that keeps its bytes and mode, or its target, keeps its version; any other gets
      the one minted for it, and a file its staged bytes. */
  lemma VersionFollowsContent(base: seq<Entry>, current: seq<Entry>, pairs: seq<Pair>, minted: seq<Minted>,
                              ds: seq<Delta>, origins: seq<Origin>, i: nat)
    requires Proposed(base, current, pairs, minted, ds, origins) && i < |ds|
    requires ds[i].after.Some? && !ds[i].after.value.DirectoryState?
    ensures var a := ds[i].after.value;
      if ds[i].before.Some? && ds[i].before.value.Node() == a.Node()
      then a.version == ds[i].before.value.version && (a.FileState? ==> a.reference == ProjectionBase)
      else exists c: nat :: c < |current| && current[c].path == a.path && a.version == minted[c].version &&
                            (a.FileState? ==> a.reference == Staged(minted[c].stagingId))
  {
    var o := origins[i];
    assert IsOrigin(base, current, pairs, o) && ds[i] == DeltaOf(base, current, minted, o);
    assert current[o.c].path == ds[i].after.value.path;
  }

  lemma ProposedDelta(base: seq<Entry>, current: seq<Entry>, pairs: seq<Pair>, minted: seq<Minted>,
                      ds: seq<Delta>, origins: seq<Origin>, i: nat)
    requires Proposed(base, current, pairs, minted, ds, origins) && i < |ds|
    ensures WellShaped(ds[i])
    ensures ds[i].before.Some? ==>
      exists b: nat :: b < |base| && ds[i].before.value.path == base[b].path &&
        ds[i].before.value.Node() == base[b].Node()
    ensures ds[i].after.Some? ==>
      exists c: nat :: c < |current| && ds[i].after.value.path == current[c].path &&
        ds[i].after.value.Node() == current[c].Node()
  {
    assert IsOrigin(base, current, pairs, origins[i]);
  }

  lemma CheckoutPathIsExplained(base: seq<Entry>, current: seq<Entry>, pairs: seq<Pair>, minted: seq<Minted>,
                                ds: seq<Delta>, origins: seq<Origin>, from: Tree, to: Tree, p: Path)
    requires Proposed(base, current, pairs, minted, ds, origins)
    requires Describes(base, from) && Describes(current, to) && p in to && !AfterAt(ds, p)
    ensures p in from && !BeforeAt(ds, p) && to[p] == from[p]
  {
    assert Listed(current, p);
    var c: nat :| c < |current| && current[c].path == p;
    AfterPathsOfProposal(base, current, pairs, minted, ds, origins, c);
    var b: nat :| b < |base| && Unchanged(base, current, pairs, b, c);
    BeforePathsOfProposal(base, current, pairs, minted, ds, origins, b);
  }

  lemma UntouchedPathStays(base: seq<Entry>, current: seq<Entry>, pairs: seq<Pair>, minted: seq<Minted>,
                           ds: seq<Delta>, origins: seq<Origin>, from: Tree, to: Tree, p: Path)
    requires Proposed(base, current, pairs, minted, ds, origins)
    requires Describes(base, from) && Describes(current, to) && p in from && !BeforeAt(ds, p)
    ensures p in to
  {
    assert Listed(base, p);
    var b: nat :| b < |base| && base[b].path == p;
    BeforePathsOfProposal(base, current, pairs, minted, ds, origins, b);
    var c: nat :| c < |current| && Unchanged(base, current, pairs, b, c);
  }

  /** Removing the before-states and adding the after-states turns the base into the checkout. */
  lemma ProposalIsPatch(base: seq<Entry>, current: seq<Entry>, pairs: seq<Pair>, minted: seq<Minted>,
                        ds: seq<Delta>, origins: seq<Origin>, from: Tree, to: Tree)
    requires Proposed(base, current, pairs, minted, ds, origins)
    requires Describes(base, from) && Describes(current, to) && Closed(to)
    ensures Merge(ds, from, to)
  {
    forall i: nat | i < |ds| && ds[i].after.Some? ensures Holds(to, ds[i].after.value, ds[i].after.value.path) {}
    forall p
      ensures p in to <==> AfterAt(ds, p) || Implied(ds, p) || (p in from && !BeforeAt(ds, p))
      ensures p in to && !AfterAt(ds, p) ==> p in from && to[p] == from[p]
    {
      if p in to && !AfterAt(ds, p) {
        CheckoutPathIsExplained(base, current, pairs, minted, ds, origins, from, to, p);
      }
      if p in from && !BeforeAt(ds, p) {
        UntouchedPathStays(base, current, pairs, minted, ds, origins, from, to, p);
      }
    }
  }
}
