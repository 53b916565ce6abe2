/**
 Sanitizing a private directory down to one retained file, without recursion: directories are
 moved into a queue beside the file and taken apart there.

 Entries are identified by number, as inodes are; each knows its parent directory.  Renaming a
 directory changes one entry and carries everything beneath it along.
 */
module Sanitizer {
  import opened Prelude

  /** A fresh work name is one nobody else has: that of the directory it was made for. */
  datatype Name = Given(text: string) | Work(id: nat) | Queue

  datatype Kind = Regular(bytes: seq<int>) | Directory | Special

  datatype Node = Node(parent: nat, name: Name, kind: Kind)

  const ROOT: nat := 0

  type Nodes = map<nat, Node>

  function Children(nodes: Nodes, dir: nat): set<nat> {
    set id | id in nodes && nodes[id].parent == dir
  }

  /** Every entry hangs from the root through directories; `rank` grows along the way down. */
  ghost predicate IsTree(nodes: Nodes, rank: map<nat, nat>) {
    forall id :: id in nodes ==> Hangs(nodes, rank, id)
  }

  ghost predicate Hangs(nodes: Nodes, rank: map<nat, nat>, id: nat)
    requires id in nodes
  {
    var dir := nodes[id].parent;
    && id != ROOT && id in rank
    && (dir != ROOT ==> dir in nodes && nodes[dir].kind.Directory? && dir in rank && rank[dir] < rank[id])
  }

  /** The one entry that stays: the regular file of this name at the root. */
  predicate Kept(node: Node, retained: string) {
    node.parent == ROOT && node.name == Given(retained) && node.kind.Regular?
  }

  /** Beneath files there is nothing, so a tree of files alone is its root level. */
  lemma {:induction false} NothingBeneathFiles(nodes: Nodes, rank: map<nat, nat>, id: nat)
    requires IsTree(nodes, rank) && id in nodes
    requires forall top :: top in Children(nodes, ROOT) ==> !nodes[top].kind.Directory?
    ensures nodes[id].parent == ROOT
    decreases if id in rank then rank[id] else 0
  {
    assert Hangs(nodes, rank, id);
    var dir := nodes[id].parent;
    if dir != ROOT {
      assert Hangs(nodes, rank, dir);
      NothingBeneathFiles(nodes, rank, dir);
    }
  }

  /** No pass up to the last one showed this name. */
  ghost predicate Unseen(visible: (nat, Name) -> bool, name: Name, last: nat) {
    forall pass :: 0 <= pass <= last ==> !visible(pass, name)
  }

  /** One pass leaves the queue, the retained file and what it did not see, untouched. */
  ghost predicate Passed(before: Nodes, after: Nodes, queue: nat, retained: string, visible: (nat, Name) -> bool,
                         pass: nat) {
    && (forall id :: id in Children(after, ROOT) <==>
          id in Children(before, ROOT) &&
            (id == queue || Kept(before[id], retained) || !visible(pass, before[id].name)))
    && (forall id :: id in Children(after, ROOT) ==> after[id] == before[id])
  }

  /** So do all the passes, of what none of them saw. */
  ghost predicate AllPassed(before: Nodes, after: Nodes, queue: nat, retained: string, visible: (nat, Name) -> bool,
                            last: nat) {
    && (forall id :: id in Children(after, ROOT) <==>
          id in Children(before, ROOT) &&
            (id == queue || Kept(before[id], retained) || Unseen(visible, before[id].name, last)))
    && (forall id :: id in Children(after, ROOT) ==> after[id] == before[id])
  }

  lemma FirstPass(before: Nodes, after: Nodes, queue: nat, retained: string, visible: (nat, Name) -> bool)
    requires Passed(before, after, queue, retained, visible, 0)
    ensures AllPassed(before, after, queue, retained, visible, 0)
  {
    assert forall name :: Unseen(visible, name, 0) <==> !visible(0, name);
  }

  lemma NextPass(before: Nodes, mid: Nodes, after: Nodes, queue: nat, retained: string, visible: (nat, Name) -> bool,
                 last: nat)
    requires AllPassed(before, mid, queue, retained, visible, last) &&
      Passed(mid, after, queue, retained, visible, last + 1)
    ensures AllPassed(before, after, queue, retained, visible, last + 1)
  {
    assert forall name :: Unseen(visible, name, last + 1) <==> Unseen(visible, name, last) && !visible(last + 1, name);
  }

  lemma ChildrenWithout(nodes: Nodes, id: nat, dir: nat)
    ensures Children(nodes - {id}, dir) == Children(nodes, dir) - {id}
  {}

  lemma ChildrenAfterMove(nodes: Nodes, id: nat, moved: Node, dir: nat)
    ensures Children(nodes[id := moved], dir) ==
      if moved.parent == dir then Children(nodes, dir) + {id} else Children(nodes, dir) - {id}
  {}

  lemma FewerKeys(a: Nodes, b: Nodes, id: nat)
    requires a.Keys <= b.Keys && id in b && id !in a
    ensures |a| < |b|
  {
    KeysBound(a.Keys, b.Keys - {id});
  }

  lemma {:induction false} KeysBound(a: set<nat>, b: set<nat>)
    requires a <= b
    ensures |a| <= |b|
  {
    if a != {} {
      var x :| x in a;
      KeysBound(a - {x}, b - {x});
    }
  }

  lemma PassShrinks(before: Nodes, after: Nodes, queue: nat, retained: string, visible: (nat, Name) -> bool, pass: nat)
    requires Passed(before, after, queue, retained, visible, pass)
    ensures Children(after, ROOT) == Children(before, ROOT) || |Children(after, ROOT)| < |Children(before, ROOT)|
  {
    if Children(after, ROOT) != Children(before, ROOT) {
      var gone :| gone in Children(before, ROOT) && gone !in Children(after, ROOT);
      KeysBound(Children(after, ROOT), Children(before, ROOT) - {gone});
    }
  }

  /** What a listing of a directory shows, by the round and what the directory holds then.  It
      is taken while entries are moved away, and may miss some. */
  type Listing = (nat, set<nat>) -> set<nat>

  /** It shows only what is there, and of a directory that holds something, something. */
  predicate Shows(listing: Listing, round: nat, present: set<nat>) {
    listing(round, present) <= present && (present != {} ==> listing(round, present) != {})
  }

  ghost predicate Fair(listing: Listing) {
    forall round, present :: Shows(listing, round, present)
  }

  lemma FewerChildren(a: set<nat>, b: set<nat>)
    requires a < b
    ensures |a| < |b|
  {
    assert b == a + (b - a);
    assert b - a != {};
  }

  class PrivateDirectory {
    var nodes: Nodes
    ghost var rank: map<nat, nat>

    ghost predicate Valid()
      reads this
    {
      IsTree(nodes, rank)
    }

    /** The queue is a directory at the root that ranks before everything else. */
    ghost predicate HasQueue(queue: nat)
      reads this
    {
      && queue in nodes && nodes[queue] == Node(ROOT, Queue, Directory) && queue in rank
      && forall id :: id in nodes && id != queue ==> id in rank && rank[queue] < rank[id]
    }

    method RemoveFile(id: nat)
      requires Valid() && id in nodes && !nodes[id].kind.Directory?
      modifies this`nodes
      ensures Valid() && nodes == old(nodes) - {id}
    {
      nodes := nodes - {id};
      assert forall other :: other in nodes ==> Hangs(old(nodes), rank, other);
    }

    method RemoveDirectory(id: nat)
      requires Valid() && id in nodes && nodes[id].kind.Directory? && Children(nodes, id) == {}
      modifies this`nodes
      ensures Valid() && nodes == old(nodes) - {id}
    {
      assert forall other :: other in nodes && nodes[other].parent == id ==> other in Children(nodes, id);
      nodes := nodes - {id};
      assert forall other :: other in nodes ==> Hangs(old(nodes), rank, other);
    }

    /** Move a directory into the queue under a fresh name. */
    method Enqueue(id: nat, queue: nat)
      requires Valid() && HasQueue(queue) && id in nodes && id != queue && nodes[id].kind.Directory?
      modifies this`nodes
      ensures Valid() && HasQueue(queue)
      ensures nodes == old(nodes)[id := Node(queue, Work(id), Directory)]
    {
      nodes := nodes[id := Node(queue, Work(id), Directory)];
      assert forall other :: other in nodes ==> Hangs(old(nodes), rank, other);
    }

    /**
     Go over the root once.  What is seen is moved into the queue or removed, except the queue
     and the retained file.
     */
    method RootPass(queue: nat, retained: string, visible: (nat, Name) -> bool, pass: nat) returns (changed: bool)
      requires Valid() && HasQueue(queue)
      modifies this`nodes
      ensures Valid() && HasQueue(queue)
      ensures Passed(old(nodes), nodes, queue, retained, visible, pass)
      ensures changed <==> Children(nodes, ROOT) != Children(old(nodes), ROOT)
    {
      changed := false;
      ghost var start := nodes;
      var todo := Children(nodes, ROOT);
      while todo != {}
        invariant Valid() && HasQueue(queue)
        invariant todo <= Children(nodes, ROOT) <= Children(start, ROOT)
        invariant forall id :: id in Children(nodes, ROOT) ==> nodes[id] == start[id]
        invariant forall id :: id in Children(start, ROOT) && id !in todo ==>
          (id in Children(nodes, ROOT) <==> id == queue || Kept(start[id], retained) || !visible(pass, start[id].name))
        invariant changed <==> Children(nodes, ROOT) != Children(start, ROOT)
        decreases todo
      {
        var id :| id in todo;
        todo := todo - {id};
        if visible(pass, nodes[id].name) && id != queue && !Kept(nodes[id], retained) {
          ChildrenWithout(nodes, id, ROOT);
          ChildrenAfterMove(nodes, id, Node(queue, Work(id), Directory), ROOT);
          if nodes[id].kind.Directory? {
            Enqueue(id, queue);
          } else {
            RemoveFile(id);
          }
          changed := true;
        }
      }
    }

    /** Make the queue: a new directory at the root, ranked before all there is. */
    method MakeQueue(queue: nat)
      requires Valid() && queue !in nodes && queue != ROOT
      modifies this
      ensures Valid() && HasQueue(queue) && nodes == old(nodes)[queue := Node(ROOT, Queue, Directory)]
    {
      ghost var below := rank;
      rank := (map id | id in below :: below[id] + 1)[queue := 0];
      nodes := nodes[queue := Node(ROOT, Queue, Directory)];
      assert forall id :: id in old(nodes) ==> Hangs(old(nodes), below, id);
    }

    /**
     Pass over the root until a pass changes nothing, then empty and remove the queue.  What is
     left at the root is what was kept or never seen, untouched.
     */
    method SanitizeVisible(retained: string, visible: (nat, Name) -> bool, listing: Listing, queue: nat)
      returns (last: nat)
      requires Fair(listing)
      requires Valid() && queue !in nodes && queue != ROOT
      modifies this
      ensures Valid() && queue !in nodes
      ensures forall id :: id in Children(nodes, ROOT) <==>
        id in Children(old(nodes), ROOT) &&
          (Kept(old(nodes)[id], retained) || Unseen(visible, old(nodes)[id].name, last))
      ensures forall id :: id in Children(nodes, ROOT) ==> nodes[id] == old(nodes)[id]
    {
      MakeQueue(queue);
      ghost var start := nodes;
      ChildrenAfterMove(old(nodes), queue, Node(ROOT, Queue, Directory), ROOT);
      last := 0;
      var changed := RootPass(queue, retained, visible, last);
      FirstPass(start, nodes, queue, retained, visible);
      while changed
        invariant Valid() && HasQueue(queue) && AllPassed(start, nodes, queue, retained, visible, last)
        decreases |Children(nodes, ROOT)|, changed
      {
        ghost var before := nodes;
        last := last + 1;
        changed := RootPass(queue, retained, visible, last);
        NextPass(start, before, nodes, queue, retained, visible, last - 1);
        PassShrinks(before, nodes, queue, retained, visible, last);
      }
      Drain(queue, listing);
      ChildrenWithout(nodes, queue, ROOT);
      RemoveDirectory(queue);
    }

    /** Seeing everything, exactly the retained file is left, untouched, or nothing. */
    method Sanitize(retained: string, listing: Listing, queue: nat)
      requires Fair(listing)
      requires Valid() && queue !in nodes && queue != ROOT
      modifies this
      ensures Valid()
      ensures forall id :: id in nodes <==> id in old(nodes) && Kept(old(nodes)[id], retained)
      ensures forall id :: id in nodes ==> nodes[id] == old(nodes)[id]
    {
      var everything: (nat, Name) -> bool := (_, _) => true;
      var last := SanitizeVisible(retained, everything, listing, queue);
      forall name ensures !Unseen(everything, name, last) {
        assert everything(0, name);
      }
      forall id | id in nodes ensures id in Children(nodes, ROOT) {
        NothingBeneathFiles(nodes, rank, id);
      }
    }

    /** Take one entry out of a queued directory. */
    method TakeOut(id: nat, work: nat, queue: nat)
      requires Valid() && HasQueue(queue) && work in Children(nodes, queue) && work != queue &&
        id in Children(nodes, work)
      modifies this`nodes
      ensures Valid() && HasQueue(queue) && SameRoot(old(nodes), nodes) && nodes.Keys <= old(nodes).Keys
      ensures work in nodes && nodes[work] == old(nodes)[work]
      ensures Children(nodes, work) == Children(old(nodes), work) - {id} &&
        Children(old(nodes), queue) <= Children(nodes, queue)
    {
      assert Hangs(nodes, rank, id) && Hangs(nodes, rank, work);
      var moved := Node(queue, Work(id), Directory);
      ChildrenWithout(nodes, id, work);
      ChildrenWithout(nodes, id, queue);
      ChildrenWithout(nodes, id, ROOT);
      ChildrenAfterMove(nodes, id, moved, work);
      ChildrenAfterMove(nodes, id, moved, queue);
      ChildrenAfterMove(nodes, id, moved, ROOT);
      if nodes[id].kind.Directory? {
        Enqueue(id, queue);
      } else {
        RemoveFile(id);
      }
    }

    /** Take one queued directory apart, by as many listings as it takes: its directories join
        the queue, the rest is removed. */
    method Empty(work: nat, queue: nat, listing: Listing)
      requires Fair(listing)
      requires Valid() && HasQueue(queue) && work in Children(nodes, queue) && work != queue &&
        nodes[work].kind.Directory?
      modifies this`nodes
      ensures Valid() && HasQueue(queue) && Children(nodes, work) == {} && work in Children(nodes, queue) &&
        nodes[work] == old(nodes)[work]
      ensures nodes.Keys <= old(nodes).Keys && SameRoot(old(nodes), nodes) &&
        Children(old(nodes), queue) <= Children(nodes, queue)
    {
      var round := 0;
      while Children(nodes, work) != {}
        invariant Valid() && HasQueue(queue) && work in nodes && nodes[work] == old(nodes)[work]
        invariant Children(old(nodes), queue) <= Children(nodes, queue)
        invariant nodes.Keys <= old(nodes).Keys && SameRoot(old(nodes), nodes)
        decreases |Children(nodes, work)|
      {
        ghost var whole := Children(nodes, work);
        assert Shows(listing, round, whole);
        var todo := listing(round, Children(nodes, work));
        while todo != {}
          invariant Valid() && HasQueue(queue) && work in nodes && nodes[work] == old(nodes)[work]
          invariant nodes.Keys <= old(nodes).Keys && SameRoot(old(nodes), nodes)
          invariant todo <= Children(nodes, work) <= whole && (todo == {} ==> Children(nodes, work) != whole)
          invariant Children(old(nodes), queue) <= Children(nodes, queue)
          decreases todo
        {
          var id :| id in todo;
          TakeOut(id, work, queue);
          todo := todo - {id};
        }
        FewerChildren(Children(nodes, work), whole);
        round := round + 1;
      }
    }

    /** Empty the queue: every round removes at least the directories it saw. */
    method Drain(queue: nat, listing: Listing)
      requires Fair(listing)
      requires Valid() && HasQueue(queue)
      modifies this`nodes
      ensures Valid() && HasQueue(queue) && Children(nodes, queue) == {}
      ensures SameRoot(old(nodes), nodes)
    {
      var round := 0;
      while Children(nodes, queue) != {}
        invariant Valid() && HasQueue(queue) && SameRoot(old(nodes), nodes)
        decreases |nodes|
      {
        assert Shows(listing, round, Children(nodes, queue));
        var todo := listing(round, Children(nodes, queue));
        ghost var count := |nodes|;
        while todo != {}
          invariant Valid() && HasQueue(queue) && SameRoot(old(nodes), nodes)
          invariant todo <= Children(nodes, queue)
          invariant |nodes| <= count && (todo == {} ==> |nodes| < count)
          decreases todo
        {
          var id :| id in todo;
          RemoveQueued(id, queue, listing);
          todo := todo - {id};
        }
        round := round + 1;
      }
    }

    /** Remove one entry of the queue, whatever it is. */
    method RemoveQueued(id: nat, queue: nat, listing: Listing)
      requires Fair(listing)
      requires Valid() && HasQueue(queue) && id in Children(nodes, queue)
      modifies this`nodes
      ensures Valid() && HasQueue(queue) && SameRoot(old(nodes), nodes)
      ensures |nodes| < |old(nodes)|
      ensures Children(old(nodes), queue) - {id} <= Children(nodes, queue)
    {
      if nodes[id].kind.Directory? {
        assert Hangs(nodes, rank, id);
        Empty(id, queue, listing);
        ChildrenWithout(nodes, id, queue);
        ChildrenWithout(nodes, id, ROOT);
        RemoveDirectory(id);
      } else {
        ChildrenWithout(nodes, id, queue);
        ChildrenWithout(nodes, id, ROOT);
        RemoveFile(id);
      }
      FewerKeys(nodes, old(nodes), id);
    }
  }

  /** The root level is the same, entry for entry. */
  predicate SameRoot(a: Nodes, b: Nodes) {
    Children(a, ROOT) == Children(b, ROOT) && forall id :: id in Children(a, ROOT) ==> a[id] == b[id]
  }
}
