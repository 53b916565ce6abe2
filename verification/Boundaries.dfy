/**
 Nested boundaries and symbolic-link targets: the prefix-probing ancestor index, lexical
 resolution with a component stack, and the depth counter checkouts use.
 */
module Boundaries {
  import opened Prelude
  import opened PortablePaths

  /** `path` lies strictly beneath `boundary`. */
  predicate Beneath(path: string, boundary: string) {
    boundary + "/" <= path
  }

  /** Some boundary, out of all of them, has `path` beneath it (or, if asked, is it). */
  ghost predicate UnderSome(boundaries: set<string>, path: string, includeExact: bool) {
    exists b :: b in boundaries && (Beneath(path, b) || (includeExact && path == b))
  }

  lemma BeneathAtSeparator(path: string, b: string)
    ensures Beneath(path, b) <==> |b| < |path| && path[|b|] == '/' && path[..|b|] == b
  {
    if Beneath(path, b) {
      assert path[..|b| + 1] == b + "/";
      assert path[..|b|] == path[..|b| + 1][..|b|];
    }
    if |b| < |path| && path[|b|] == '/' && path[..|b|] == b {
      assert path[..|b| + 1] == b + "/";
    }
  }

  /** Probe the prefix before each separator; no scan over the boundaries. */
  method ContainsAncestor(boundaries: set<string>, path: string, includeExact: bool) returns (r: bool)
    ensures r <==> UnderSome(boundaries, path, includeExact)
  {
    forall b ensures Beneath(path, b) <==> |b| < |path| && path[|b|] == '/' && path[..|b|] == b {
      BeneathAtSeparator(path, b);
    }
    for separator := 0 to |path|
      invariant forall b :: b in boundaries && |b| < separator ==> !Beneath(path, b)
    {
      if path[separator] == '/' && path[..separator] in boundaries {
        assert Beneath(path, path[..separator]);
        return true;
      }
    }
    return includeExact && path in boundaries;
  }

  // ---------- lexical resolution ----------

  /** Follow one component from a directory, or step out of the root. */
  function Follow(dir: seq<string>, component: string): Option<seq<string>> {
    if component == "" || component == "." then Some(dir)
    else if component == ".." then (if dir == [] then None else Some(dir[..|dir| - 1]))
    else Some(dir + [component])
  }

  /** Where a relative target leads from a directory; None once it leaves the root. */
  function Resolve(dir: seq<string>, components: seq<string>): Option<seq<string>>
    decreases |components|
  {
    if components == [] then Some(dir)
    else
      match Resolve(dir, components[..|components| - 1])
      case None => None
      case Some(d) => Follow(d, components[|components| - 1])
  }

  predicate Ordinary(component: string) {
    component != "" && component != "." && component != ".."
  }

  /** A step down and a step up again lead back. */
  lemma UpUndoesDown(dir: seq<string>, before: seq<string>, component: string)
    requires Ordinary(component)
    ensures Resolve(dir, before + [component, ".."]) == Resolve(dir, before)
  {
    var down, up := before + [component], before + [component, ".."];
    assert up[..|up| - 1] == down && down[..|down| - 1] == before;
    if Resolve(dir, before).Some? {
      var d := Resolve(dir, before).value;
      assert (d + [component])[..|d|] == d;
    }
  }

  function ParentOf(link: string): seq<string> {
    Split(link)[..|Split(link)| - 1]
  }

  predicate PortableTarget(target: string) {
    && target != "" && |target| <= MAX_PATH_BYTES
    && target[0] != '/' && target[|target| - 1] != '/'
    && '\\' !in target && '\0' !in target
    && !HasDoubleSlash(target)
    && !DrivePrefix(target)
  }

  predicate HasDoubleSlash(s: string) {
    exists k :: 0 <= k < |s| - 1 && s[k] == '/' && s[k + 1] == '/'
  }

  /** Every component pushed on the way is portable, and the way never gets too deep. */
  predicate PortableWalk(dir: seq<string>, components: seq<string>)
    decreases |components|
  {
    components == [] ||
    var init, last := components[..|components| - 1], components[|components| - 1];
    && PortableWalk(dir, init)
    && (last != "." && last != ".." ==>
          && PortableComponent(last)
          && (Resolve(dir, components).Some? ==> |Resolve(dir, components).value| <= MAX_PATH_DEPTH))
  }

  /** What a Version asks of a link: it resolves inside the root, to a portable place
      outside protocol state and outside every nested boundary. */
  ghost predicate LinkInside(link: string, target: string, boundaries: set<string>, fold: string -> string) {
    && PortableTarget(target)
    && PortableWalk(ParentOf(link), Split(target))
    && var resolved := Resolve(ParentOf(link), Split(target));
       && resolved.Some?
       && (Join(resolved.value) != "" ==>
             && IsPortablePath(Join(resolved.value))
             && !UnderSome(boundaries, fold(Join(resolved.value)), true))
  }

  /** Walk the components with a stack; None when the walk is refused. */
  method Walk(dir: seq<string>, components: seq<string>) returns (r: Option<seq<string>>)
    ensures r.Some? <==> PortableWalk(dir, components) && Resolve(dir, components).Some?
    ensures r.Some? ==> r == Resolve(dir, components)
  {
    var resolved := dir;
    for n := 0 to |components|
      invariant Resolve(dir, components[..n]) == Some(resolved) && PortableWalk(dir, components[..n])
    {
      assert components[..n + 1][..n] == components[..n];
      var accepted := true;
      if components[n] == "." {
      } else if components[n] == ".." {
        accepted := resolved != [];
        resolved := if accepted then resolved[..|resolved| - 1] else [];
      } else {
        resolved := resolved + [components[n]];
        accepted := PortableComponent(components[n]) && |resolved| <= MAX_PATH_DEPTH;
      }
      if !accepted {
        RefusalIsFinal(dir, components, n + 1);
        return None;
      }
    }
    assert components[..|components|] == components;
    return Some(resolved);
  }

  /** Nothing that follows makes up for a refused step. */
  lemma {:induction false} RefusalIsFinal(dir: seq<string>, components: seq<string>, n: nat)
    requires n <= |components|
    requires !PortableWalk(dir, components[..n]) || Resolve(dir, components[..n]).None?
    ensures !PortableWalk(dir, components) || Resolve(dir, components).None?
    decreases |components| - n
  {
    if n < |components| {
      assert components[..n + 1][..n] == components[..n];
      RefusalIsFinal(dir, components, n + 1);
    } else {
      assert components[..n] == components;
    }
  }

  /** Validate a link target: its text, its walk, and where it leads. */
  method ValidateSymlinkTarget(link: string, target: string, boundaries: set<string>, fold: string -> string)
    returns (ok: bool)
    ensures ok <==> LinkInside(link, target, boundaries, fold)
  {
    if !PortableTarget(target) {
      return false;
    }
    var resolved := Walk(ParentOf(link), Split(target));
    if resolved.None? {
      return false;
    }
    var path := Join(resolved.value);
    if path == "" {
      return true;
    }
    if !IsPortablePath(path) {
      return false;
    }
    var under := ContainsAncestor(boundaries, fold(path), true);
    return !under;
  }

  // ---------- the depth counter ----------

  /** Levels gained, less levels lost, over some components. */
  function Climb(components: seq<string>): int {
    if components == [] then 0
    else
      var last := components[|components| - 1];
      Climb(components[..|components| - 1]) + (if last == "" || last == "." then 0 else if last == ".." then -1 else 1)
  }

  /** The check a checkout makes: counting levels, the target never climbs above the root. */
  ghost predicate SafeTarget(path: string, target: string) {
    && target != "" && '\\' !in target && target[0] != '/'
    && StaysAbove(|ParentOf(path)|, Split(target))
  }

  ghost predicate StaysAbove(depth: nat, components: seq<string>) {
    forall n :: 0 <= n <= |components| ==> depth + Climb(components[..n]) >= 0
  }

  method ValidateSafeSymlinkTarget(path: string, target: string) returns (ok: bool)
    ensures ok <==> SafeTarget(path, target)
  {
    if target == "" || '\\' in target || target[0] == '/' {
      return false;
    }
    var depth: int := |Split(path)| - 1;
    var components := Split(target);
    for n := 0 to |components|
      invariant depth == |ParentOf(path)| + Climb(components[..n])
      invariant forall m :: 0 <= m <= n ==> |ParentOf(path)| + Climb(components[..m]) >= 0
    {
      assert components[..n + 1][..n] == components[..n];
      match components[n] {
        case "" =>
        case "." =>
        case ".." =>
          depth := depth - 1;
          if depth < 0 {
            return false;
          }
        case _ =>
          depth := depth + 1;
      }
    }
    return true;
  }

  /** The counter is exactly lexical resolution with the names forgotten. */
  lemma {:induction false} CounterIsResolution(dir: seq<string>, components: seq<string>)
    ensures Resolve(dir, components).Some? <==> StaysAbove(|dir|, components)
    ensures Resolve(dir, components).Some? ==> |Resolve(dir, components).value| == |dir| + Climb(components)
    decreases |components|
  {
    if components != [] {
      var init := components[..|components| - 1];
      CounterIsResolution(dir, init);
      assert forall n :: 0 <= n < |components| ==> components[..n] == init[..n];
      assert components[..|components|] == components;
    } else {
      assert components[..0] == components;
    }
  }

  /** A checkout takes a relative target exactly when it resolves inside the root. */
  lemma SafeTargetResolves(path: string, target: string)
    requires target != "" && '\\' !in target && target[0] != '/'
    ensures SafeTarget(path, target) <==> Resolve(ParentOf(path), Split(target)).Some?
  {
    CounterIsResolution(ParentOf(path), Split(target));
  }

  /** So every link a Version accepts, a checkout accepts. */
  lemma VersionLinksAreSafe(link: string, target: string, boundaries: set<string>, fold: string -> string)
    requires LinkInside(link, target, boundaries, fold)
    ensures SafeTarget(link, target)
  {
    SafeTargetResolves(link, target);
  }
}
