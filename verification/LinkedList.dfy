/** The intrusive singly linked list that LIST_DEFINE generates for every record type. */
module LinkedList {

  class Node<T> {
    var val: T
    var next: Node?<T>

    constructor (val: T)
      ensures this.val == val && this.next == null
    {
      this.val := val;
      this.next := null;
    }
  }

  class List<T> {
    var head: Node?<T>
    var tail: Node?<T>
    var count: nat
    ghost var nodes: seq<Node<T>>

    /** The nodes are chained in order; what follows the last one is left open. */
    ghost predicate Chained()
      reads this, nodes
    {
      && count == |nodes|
      && (nodes == [] ==> head == null && tail == null)
      && (nodes != [] ==> head == nodes[0] && tail == nodes[|nodes| - 1])
      && (forall i, j :: 0 <= i && i + 1 == j < |nodes| ==> nodes[i].next == nodes[j])
      && (forall i, j :: 0 <= i < j < |nodes| ==> nodes[i] != nodes[j])
    }

    ghost predicate Valid()
      reads this, nodes
    {
      Chained() && (nodes != [] ==> nodes[|nodes| - 1].next == null)
    }

    ghost function Last(): set<Node<T>>
      reads this
    {
      if tail == null then {} else {tail}
    }

    ghost function Contents(): (s: seq<T>)
      reads this, nodes
      ensures |s| == |nodes| && forall i :: 0 <= i < |s| ==> s[i] == nodes[i].val
    {
      seq(|nodes|, i requires 0 <= i < |nodes| reads this, nodes => nodes[i].val)
    }

    constructor ()
      ensures Valid() && nodes == []
    {
      head, tail, count := null, null, 0;
      nodes := [];
    }

    /** Appends a node. Only the old tail's link is written, so a node that is followed already stays followed. */
    method Add(ent: Node<T>)
      requires Chained() && ent !in nodes
      modifies this, Last()`next
      ensures Chained() && nodes == old(nodes) + [ent] && Contents() == old(Contents()) + [ent.val]
      ensures ent.next == old(ent.next)
      ensures ent.next == null ==> Valid()
      ensures old(tail) != null ==> old(tail).next == ent
    {
      if head == null {
        head := ent;
        tail := ent;
      } else {
        tail.next := ent;
        tail := ent;
      }
      count := count + 1;
      nodes := nodes + [ent];
    }

    method DelFst()
      requires Valid()
      modifies this
      ensures Valid() && nodes == (if old(nodes) == [] then [] else old(nodes)[1..])
      ensures Contents() == (if old(Contents()) == [] then [] else old(Contents())[1..])
    {
      if count > 1 {
        head := head.next;
        count := count - 1;
        nodes := nodes[1..];
      } else if count == 1 {
        head := null;
        tail := null;
        count := count - 1;
        nodes := [];
      }
    }

    /** Unlinks the node behind `ent`, if there is one. */
    method DelNxt(ent: Node<T>, ghost i: nat)
      requires Valid() && i < |nodes| && nodes[i] == ent
      modifies this, ent`next
      ensures Valid()
      ensures nodes == (if i + 1 == |old(nodes)| then old(nodes) else old(nodes)[..i + 1] + old(nodes)[i + 2..])
      ensures Contents() == (if i + 1 == |old(nodes)| then old(Contents()) else old(Contents())[..i + 1] + old(Contents())[i + 2..])
    {
      var nxt := ent.next;
      assert i + 1 < |nodes| ==> nodes[i].next == nodes[i + 1];
      if tail == nxt {
        tail := ent;
      }
      if nxt != null {
        ghost var n0 := nodes;
        assert i + 2 < |nodes| ==> nodes[i + 1].next == nodes[i + 2];
        ent.next := nxt.next;
        count := count - 1;
        nodes := nodes[..i + 1] + nodes[i + 2..];
        forall j, k | 0 <= j && j + 1 == k < |nodes| ensures nodes[j].next == nodes[k] {
          assert j < i ==> nodes[j] == n0[j] && nodes[k] == n0[k];
          assert j > i ==> nodes[j] == n0[j + 1] && nodes[k] == n0[k + 1];
        }
      }
    }

    /** Appends a node unless an equal one, by the record type's comparison, is listed already. */
    method AddLkSet(ent: Node<T>, cmp: (T, T) -> int) returns (added: bool)
      requires Valid() && ent !in nodes && ent.next == null
      modifies this, Last()`next
      ensures Valid()
      ensures added <==> forall x :: x in old(Contents()) ==> cmp(x, old(ent.val)) != 0
      ensures nodes == if added then old(nodes) + [ent] else old(nodes)
      ensures Contents() == if added then old(Contents()) + [ent.val] else old(Contents())
    {
      var cur := head;
      ghost var i := 0;
      while cur != null
        invariant i <= |nodes| && cur == (if i < |nodes| then nodes[i] else null)
        invariant forall j :: 0 <= j < i ==> cmp(nodes[j].val, ent.val) != 0
        decreases |nodes| - i
      {
        if cmp(cur.val, ent.val) == 0 {
          assert cur.val in Contents() by { assert Contents()[i] == cur.val; }
          return false;
        }
        cur := cur.next;
        i := i + 1;
      }
      Add(ent);
      added := true;
    }
  }

  /**
   The loop of type_cpy: the nodes of `src` are appended to the empty `dest` one by one while their
   links still chain them together, and `src` is emptied by hand at the end.
   */
  method MoveAll<T>(dest: List<T>, src: List<T>)
    requires dest != src && dest.Valid() && src.Valid() && dest.nodes == []
    modifies dest, src, src.nodes
    ensures dest.Valid() && dest.nodes == old(src.nodes)
    ensures forall n :: n in dest.nodes ==> n.val == old(n.val)
    ensures src.Valid() && src.nodes == []
  {
    ghost var ns := src.nodes;
    var cur := src.head;
    ghost var i := 0;
    while cur != null
      invariant i <= |ns| && cur == (if i < |ns| then ns[i] else null)
      invariant dest.Chained() && dest.nodes == ns[..i] && src.nodes == ns
      invariant forall n :: n in ns ==> n.next == old(n.next) && n.val == old(n.val)
      decreases |ns| - i
    {
      ghost var t := dest.tail;
      assert t != null ==> i > 0 && t == ns[i - 1] && t.next == cur;
      dest.Add(cur);
      assert forall n :: n in ns ==> n.next == old(n.next);
      assert cur == ns[i] && (i + 1 < |ns| ==> cur.next == ns[i + 1]);
      cur := cur.next;
      i := i + 1;
    }
    assert ns[..i] == ns;
    assert ns != [] ==> ns[|ns| - 1] in ns;
    src.head := null;
    src.tail := null;
    src.count := 0;
    src.nodes := [];
  }
}
