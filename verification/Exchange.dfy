/**
 Replacing a file that must still hold expected bytes, with a swap that is undone when it did
 not, while another writer may change the target between any two steps.
 */
module Exchange {
  import opened Prelude

  /** A regular file, or something else that stands under a name. */
  datatype File = Plain(bytes: seq<int>) | Odd(what: string)

  /** The target, the two artifacts of one exchange owner, its recovery file, and all else. */
  datatype Name = Target | Stage | Backup | Recovery | Elsewhere(name: string)

  /** What the other writer does to the target at one moment. */
  datatype Act = Idle | Write(file: File) | Remove

  type Files = map<Name, File>

  function After(files: Files, act: Act): Files {
    match act
    case Idle => files
    case Write(file) => files[Target := file]
    case Remove => files - {Target}
  }

  /** What stands at the target, if anything. */
  function AtTarget(files: Files): Option<File> {
    if Target in files then Some(files[Target]) else None
  }

  function Acted(file: Option<File>, act: Act): Option<File> {
    match act
    case Idle => file
    case Write(f) => Some(f)
    case Remove => None
  }

  /** What the target holds at the swap, after the other writer's first moment. */
  function Displaced(files: Files, acts: nat -> Act): Option<File> {
    Acted(AtTarget(files), acts(0))
  }

  /** What the target holds when the swap is undone: the replacement, after three more moments. */
  function Between(replacement: seq<int>, acts: nat -> Act): Option<File> {
    Acted(Acted(Acted(Some(Plain(replacement)), acts(1)), acts(2)), acts(3))
  }

  /** The swap takes place, finds other bytes than expected, and can be undone. */
  predicate IsUndone(files: Files, acts: nat -> Act, expected: seq<int>, replacement: seq<int>) {
    var displaced := Displaced(files, acts);
    displaced.Some? && displaced.value != Plain(expected) && Between(replacement, acts).Some?
  }

  /** When only sealed bytes are deleted or written over: unless a failure is reported after
      the swap of other bytes, or an undone swap has bytes to recover and a recovery file of
      the same owner is already there with others. */
  predicate DeletesOnlySealed(files: Files, acts: nat -> Act, hookFails: bool, expected: seq<int>,
                              replacement: seq<int>) {
    || Stage in files
    || if hookFails then Displaced(files, acts).Some? ==> Sealed(Displaced(files, acts).value, expected, replacement)
       else
         (IsUndone(files, acts, expected, replacement) && Between(replacement, acts) != Some(Plain(replacement)) &&
          Recovery in files) ==>
           Sealed(files[Recovery], expected, replacement)
  }

  datatype Outcome = Exchanged | Busy | NotExchanged | WouldOverwrite | Unverified

  /** The bytes whose loss loses nothing: both ends of the exchange. */
  predicate Sealed(file: File, expected: seq<int>, replacement: seq<int>) {
    file == Plain(expected) || file == Plain(replacement)
  }

  predicate AllSealed(files: seq<File>, expected: seq<int>, replacement: seq<int>) {
    forall k :: 0 <= k < |files| ==> Sealed(files[k], expected, replacement)
  }

  lemma OneSealed(file: File, expected: seq<int>, replacement: seq<int>)
    ensures AllSealed([file], expected, replacement) <==> Sealed(file, expected, replacement)
  {
    assert [file][0] == file;
  }

  /** What an undone exchange leaves: the target has its bytes back, and what came between is kept. */
  predicate Undone(files: Files, displaced: File, between: File, replacement: seq<int>, last: Act) {
    && (match last
        case Idle => Target in files && files[Target] == displaced
        case Write(file) => Target in files && files[Target] == file
        case Remove => Target !in files)
    && (between != Plain(replacement) ==> Recovery in files && files[Recovery] == between)
    && Stage !in files
  }

  /** Names that are none of this exchange's are left alone. */
  ghost predicate SameElsewhere(before: Files, after: Files) {
    forall name: Name :: name.Elsewhere? || name.Backup? ==>
      (name in after <==> name in before) && (name in after ==> after[name] == before[name])
  }

  class StateDirectory {
    var files: Files
    /** What this side has deleted or written over. */
    ghost var deleted: seq<File>

    constructor (files: Files)
      ensures this.files == files && deleted == []
    {
      this.files := files;
      deleted := [];
    }

    /** The other writer's moment. */
    method Interfere(act: Act)
      modifies this`files
      ensures files == After(old(files), act)
    {
      files := After(files, act);
    }

    method Delete(name: Name)
      requires name in files
      modifies this
      ensures files == old(files) - {name} && deleted == old(deleted) + [old(files)[name]]
    {
      deleted := deleted + [files[name]];
      files := files - {name};
    }

    /** Move the stage to the recovery name, over whatever stands there. */
    method Recover()
      requires Stage in files
      modifies this
      ensures files == (old(files) - {Stage})[Recovery := old(files)[Stage]]
      ensures deleted == if Recovery in old(files) then old(deleted) + [old(files)[Recovery]] else old(deleted)
    {
      if Recovery in files {
        deleted := deleted + [files[Recovery]];
      }
      files := (files - {Stage})[Recovery := files[Stage]];
    }

    /** The atomic swap; it fails when either name is missing. */
    method Swap() returns (ok: bool)
      modifies this`files
      ensures ok <==> Stage in old(files) && Target in old(files)
      ensures files == if ok then old(files)[Stage := old(files)[Target]][Target := old(files)[Stage]] else old(files)
    {
      ok := Stage in files && Target in files;
      if ok {
        files := files[Stage := files[Target]][Target := files[Stage]];
      }
    }

    /**
     Undo a swap whose displaced bytes, now staged, were not the expected ones.  `acts` are the
     other writer's moments before and after the second swap.
     */
    method Undo(replacement: seq<int>, acts: nat -> Act) returns (r: Outcome, ghost gone: seq<File>)
      requires Stage in files
      modifies this
      ensures r == if Acted(AtTarget(old(files)), acts(3)).Some? then WouldOverwrite else NotExchanged
      ensures r.NotExchanged? ==> files == After(old(files), acts(3)) && gone == []
      ensures r.WouldOverwrite? ==>
        var between := Acted(AtTarget(old(files)), acts(3)).value;
        && Undone(files, old(files)[Stage], between, replacement, acts(4))
        && gone == (if between == Plain(replacement) then [between]
                    else if Recovery in old(files) then [old(files)[Recovery]] else [])
      ensures deleted == old(deleted) + gone
      ensures SameElsewhere(old(files), files)
    {
      Interfere(acts(3));
      gone, r := [], NotExchanged;
      var back := Swap();
      if !back {
        return;
      }
      Interfere(acts(4));
      if files[Stage] == Plain(replacement) {
        gone := [files[Stage]];
        Delete(Stage);
      } else {
        gone := if Recovery in files then [files[Recovery]] else [];
        Recover();
      }
      r := WouldOverwrite;
    }

    /** Write the replacement beside the target, and swap the two. */
    method StageAndSwap(replacement: seq<int>, act: Act) returns (swapped: bool)
      requires Stage !in files
      modifies this`files
      ensures var displaced := Acted(AtTarget(old(files)), act);
        && swapped == displaced.Some?
        && Stage in files && files[Stage] == (if swapped then displaced.value else Plain(replacement))
        && (swapped ==> AtTarget(files) == Some(Plain(replacement)))
      ensures Recovery in files <==> Recovery in old(files)
      ensures Recovery in files ==> files[Recovery] == old(files)[Recovery]
      ensures SameElsewhere(old(files), files)
    {
      files := files[Stage := Plain(replacement)];
      Interfere(act);
      swapped := Swap();
    }

    /** After the swap: keep it if the staged bytes are the expected ones, undo it otherwise. */
    method Conclude(expected: seq<int>, replacement: seq<int>, acts: nat -> Act)
      returns (r: Outcome, ghost gone: seq<File>)
      requires Stage in files
      modifies this
      ensures r.Exchanged? || r.Unverified? <==> old(files)[Stage] == Plain(expected)
      ensures r.Exchanged? <==>
        old(files)[Stage] == Plain(expected) && Acted(AtTarget(old(files)), acts(2)) == Some(Plain(replacement))
      ensures r.Exchanged? ==> AtTarget(files) == Some(Plain(replacement)) && Stage !in files
      ensures var between := Acted(Acted(AtTarget(old(files)), acts(2)), acts(3));
        && (r.WouldOverwrite? <==> old(files)[Stage] != Plain(expected) && between.Some?)
        && (r.WouldOverwrite? ==> Undone(files, old(files)[Stage], between.value, replacement, acts(4)))
        && (AllSealed(gone, expected, replacement) <==>
              (r.WouldOverwrite? && between != Some(Plain(replacement)) && Recovery in old(files) ==>
                 Sealed(old(files)[Recovery], expected, replacement)))
      ensures r.NotExchanged? ==> Stage in files && files[Stage] == old(files)[Stage]
      ensures !r.Busy? && SameElsewhere(old(files), files) && deleted == old(deleted) + gone
    {
      if files[Stage] != Plain(expected) {
        Interfere(acts(2));
        r, gone := Undo(replacement, acts);
        if gone != [] {
          OneSealed(gone[0], expected, replacement);
        }
        return;
      }
      gone := [files[Stage]];
      Delete(Stage);
      Interfere(acts(2));
      r := if Target in files && files[Target] == Plain(replacement) then Exchanged else Unverified;
    }

    /**
     Exchange the target for `replacement` if it holds `expected`.  `acts` are the other
     writer's moments; `hookFails` is a failure reported after the platform has swapped; off
     Windows no caller outside the tests passes a hook that reports one.  `gone` is what this
     side deleted or wrote over.
     */
    method CompareExchange(expected: seq<int>, replacement: seq<int>, acts: nat -> Act, hookFails: bool)
      returns (r: Outcome, ghost gone: seq<File>)
      modifies this
      ensures r.Busy? <==> Stage in old(files)
      ensures r.Busy? ==> files == old(files)
      ensures r.Exchanged? ==> AtTarget(files) == Some(Plain(replacement)) && Stage !in files
      ensures r.Exchanged? || r.Unverified? <==>
        !r.Busy? && !hookFails && Displaced(old(files), acts) == Some(Plain(expected))
      ensures r.WouldOverwrite? <==> !r.Busy? && !hookFails && IsUndone(old(files), acts, expected, replacement)
      ensures r.WouldOverwrite? ==>
        Undone(files, Displaced(old(files), acts).value, Between(replacement, acts).value, replacement, acts(4))
      ensures r.NotExchanged? && Displaced(old(files), acts).Some? && !hookFails ==>
        Stage in files && files[Stage] == Displaced(old(files), acts).value
      ensures SameElsewhere(old(files), files)
      ensures deleted == old(deleted) + gone
      ensures AllSealed(gone, expected, replacement) <==>
        DeletesOnlySealed(old(files), acts, hookFails, expected, replacement)
    {
      gone := [];
      if Stage in files {
        r := Busy;
        return;
      }
      var swapped := StageAndSwap(replacement, acts(0));
      if !swapped || hookFails {
        gone := [files[Stage]];
        OneSealed(files[Stage], expected, replacement);
        Delete(Stage);
        r := NotExchanged;
        return;
      }
      Interfere(acts(1));
      r, gone := Conclude(expected, replacement, acts);
    }

    /**
     Clear the artifacts of an interrupted exchange: each goes only if it holds sealed bytes,
     and all are gone exactly when they all did.
     */
    method RecoverArtifacts(expected: seq<int>, replacement: seq<int>) returns (ok: bool)
      modifies this
      ensures ok <==>
        forall name :: name in old(files) && (name.Stage? || name.Backup?) ==>
          Sealed(old(files)[name], expected, replacement)
      ensures ok ==> files == old(files) - {Stage, Backup}
      ensures forall name :: name in old(files) && !(name in files) ==> Sealed(old(files)[name], expected, replacement)
      ensures forall name :: name in files ==> name in old(files) && files[name] == old(files)[name]
      ensures old(deleted) <= deleted && AllSealed(deleted[|old(deleted)|..], expected, replacement)
    {
      ok := ClearArtifact(Stage, expected, replacement);
      if ok {
        ok := ClearArtifact(Backup, expected, replacement);
      }
    }

    method ClearArtifact(name: Name, expected: seq<int>, replacement: seq<int>) returns (ok: bool)
      modifies this
      ensures ok <==> (name in old(files) ==> Sealed(old(files)[name], expected, replacement))
      ensures files == if ok then old(files) - {name} else old(files)
      ensures deleted == if ok && name in old(files) then old(deleted) + [old(files)[name]] else old(deleted)
    {
      if name !in files {
        return true;
      }
      if !Sealed(files[name], expected, replacement) {
        return false;
      }
      Delete(name);
      return true;
    }
  }

  /** For instance: two writes by another writer, and a recovery file left by the same owner.
      The bytes it recovered earlier are written over. */
  method EarlierRecoveryIsLost(d: StateDirectory) returns (r: Outcome)
    requires d.files == map[Target := Plain([1]), Recovery := Plain([9])] && d.deleted == []
    modifies d
    ensures r == WouldOverwrite && AtTarget(d.files) == Some(Plain([2]))
    ensures Recovery in d.files && d.files[Recovery] == Plain([3])
    ensures !AllSealed(d.deleted, [1], [4])
  {
    var acts := (n: nat) => if n == 0 then Write(Plain([2])) else if n == 1 then Write(Plain([3])) else Idle;
    assert Displaced(d.files, acts) == Some(Plain([2])) && Between([4], acts) == Some(Plain([3]));
    ghost var gone;
    r, gone := d.CompareExchange([1], [4], acts, false);
    assert d.deleted == gone;
  }
}
