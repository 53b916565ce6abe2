/** Inventories of a projection base, a checkout or the current source. */
module Inventory {
  import opened Prelude
  import opened ChangeSet

  datatype Entry = Entry(
    path: Path,
    kind: Kind,
    objectId: Option<ObjectId>,
    version: Option<string>,
    content: Option<Content>,
    executable: Option<bool>,
    target: Option<string>)
  {
    /** The fields an inventory fills in for its kind. */
    predicate Filled() {
      match kind
      case Directory => content.None? && executable.None? && target.None?
      case RegularFile => content.Some? && executable.Some? && target.None?
      case Symlink => content.None? && executable.None? && target.Some?
    }

    function Node(): Node
      requires Filled()
    {
      match kind
      case Directory => Dir
      case RegularFile => File(content.value, executable.value)
      case Symlink => Link(target.value)
    }

    predicate SameContentOrMetadata(other: Entry) {
      kind == other.kind && content == other.content && executable == other.executable && target == other.target
    }

    predicate SameState(other: Entry) {
      path == other.path && SameContentOrMetadata(other)
    }

    /** Equal bytes and mode, or equal link target: a deterministic rename proof. */
    predicate SameOpaqueContent(other: Entry) {
      kind == other.kind &&
      match kind
      case Directory => false
      case RegularFile => content == other.content && executable == other.executable
      case Symlink => target == other.target
    }
  }

  /** An inventory lists each path once, with the fields of its kind. */
  ghost predicate IsInventory(entries: seq<Entry>) {
    && (forall i :: 0 <= i < |entries| ==> entries[i].Filled() && entries[i].path != [])
    && (forall i, j :: 0 <= i < |entries| && 0 <= j < |entries| && entries[i].path == entries[j].path ==> i == j)
  }

  predicate Listed(entries: seq<Entry>, p: Path) {
    exists i :: 0 <= i < |entries| && entries[i].path == p
  }

  /** The tree an inventory describes. */
  ghost predicate Describes(entries: seq<Entry>, t: Tree)
    requires IsInventory(entries)
  {
    && (forall i :: 0 <= i < |entries| ==> entries[i].path in t && t[entries[i].path] == entries[i].Node())
    && (forall p :: p in t ==> Listed(entries, p))
  }
}
