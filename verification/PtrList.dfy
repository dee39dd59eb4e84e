/** The doubly linked list of pointers. */
module PtrList {

  class Element<T(==)> {
    var prev: Element?<T>
    var next: Element?<T>
    const ptr: T

    constructor (ptr: T)
      ensures this.ptr == ptr && prev == null && next == null
    {
      this.ptr, prev, next := ptr, null, null;
    }
  }

  class List<T(==)> {
    var first: Element?<T>
    ghost var nodes: seq<Element<T>>  // the elements in list order
    ghost var repr: set<object>

    ghost predicate Valid()
      reads this, repr
      ensures Valid() ==> this in repr
    {
      && this in repr && (forall i :: 0 <= i < |nodes| ==> nodes[i] in repr)
      && first == At(nodes, 0)
      && Distinct(nodes)
      && forall i :: 0 <= i < |nodes| ==> Linked(nodes, i)
    }

    ghost function Contents(): (s: seq<T>)
      reads this
      ensures |s| == |nodes|
    {
      Ptrs(nodes)
    }

    constructor ()
      ensures Valid() && nodes == [] && Contents() == [] && fresh(repr)
    {
      first, nodes, repr := null, [], {this};
    }

    method GetFirst() returns (e: Element?<T>)
      requires Valid()
      ensures e == At(nodes, 0)
    {
      e := first;
    }

    method GetNext(e: Element<T>, ghost k: nat) returns (next: Element?<T>)
      requires Valid() && k < |nodes| && nodes[k] == e
      ensures next == At(nodes, k + 1)
    {
      assert Linked(nodes, k);
      next := e.next;
    }

    /** The pointer of element k. */
    method GetPtr(e: Element<T>, ghost k: nat) returns (ptr: T)
      requires Valid() && k < |nodes| && nodes[k] == e
      ensures ptr == Contents()[k]
    {
      ptr := e.ptr;
    }

    /** Inserts before element k, which is `after`. */
    method InsertBefore(after: Element<T>, ptr: T, ghost k: nat)
      requires Valid() && k < |nodes| && nodes[k] == after
      modifies repr
      ensures Valid() && Contents() == old(Contents()[..k]) + [ptr] + old(Contents()[k..])
      ensures nodes == Insert(old(nodes), k, nodes[k]) && fresh(nodes[k]) && repr == old(repr) + {nodes[k]}
    {
      assert first != null;
      var e := new Element(ptr);
      LinkBefore(after, e, k);
      Spliced(nodes, e, k);
      PtrsOfInsert(nodes, e, k);
      nodes, repr := Insert(nodes, k, e), repr + {e};
    }

    method LinkBefore(after: Element<T>, e: Element<T>, ghost k: nat)
      requires Valid() && k < |nodes| && nodes[k] == after && e !in nodes
      modifies `first, e, nodes
      ensures first == (if k == 0 then e else nodes[0]) && e.prev == At(nodes, k - 1) && e.next == nodes[k]
      ensures AllLinkedBut(nodes, k - 1, e, k, e)
    {
      assert Linked(nodes, k) && (k > 0 ==> Linked(nodes, k - 1));
      ghost var j := k - 1;
      if after == first {
        e.prev := null;
        e.next := after;
        first.prev := e;
        first := e;
      } else {
        e.prev := after.prev;
        e.next := after;
        if after.prev != null {
          after.prev.next := e;
        }
        after.prev := e;
      }
      forall i | 0 <= i < |nodes| ensures LinkedBut(nodes, i, j, e, k, e) {
        assert old(Linked(nodes, i));
      }
    }

    /** Inserts behind element k - 1, which is `before`, or into the empty list. */
    method InsertAfter(before: Element?<T>, ptr: T, ghost k: nat)
      requires Valid() && k <= |nodes| && before == At(nodes, k - 1) && (before == null ==> nodes == [])
      modifies repr
      ensures Valid() && Contents() == old(Contents()[..k]) + [ptr] + old(Contents()[k..])
      ensures nodes == Insert(old(nodes), k, nodes[k]) && fresh(nodes[k]) && repr == old(repr) + {nodes[k]}
    {
      var e := new Element(ptr);
      if before == null {
        assert first == null;
        e.prev := null;
        e.next := null;
        first := e;
      } else {
        assert first != null;
        LinkAfter(before, e, k);
      }
      Spliced(nodes, e, k);
      PtrsOfInsert(nodes, e, k);
      nodes, repr := Insert(nodes, k, e), repr + {e};
    }

    method LinkAfter(before: Element<T>, e: Element<T>, ghost k: nat)
      requires Valid() && 0 < k <= |nodes| && nodes[k - 1] == before && e !in nodes
      modifies e, nodes
      ensures e.prev == nodes[k - 1] && e.next == At(nodes, k)
      ensures AllLinkedBut(nodes, k - 1, e, k, e)
    {
      ghost var j := k - 1;
      assert Linked(nodes, j) && (k < |nodes| ==> Linked(nodes, k));
      e.prev := before;
      e.next := before.next;
      if before.next != null {
        before.next.prev := e;
      }
      before.next := e;
      forall i | 0 <= i < |nodes| ensures LinkedBut(nodes, i, j, e, k, e) {
        assert old(Linked(nodes, i));
      }
    }

    /** Takes element k out of the list. The other elements stay where they are. */
    method Remove(e: Element<T>, ghost k: nat)
      requires Valid() && k < |nodes| && nodes[k] == e
      modifies repr
      ensures Valid() && Contents() == old(Contents()[..k]) + old(Contents()[k + 1..])
      ensures nodes == Without(old(nodes), k) && repr == old(repr)
    {
      Unlink(e, k);
      Unspliced(nodes, k);
      PtrsOfWithout(nodes, k);
      nodes := Without(nodes, k);
    }

    method Unlink(e: Element<T>, ghost k: nat)
      requires Valid() && k < |nodes| && nodes[k] == e
      modifies `first, nodes
      ensures first == (if k == 0 then At(nodes, 1) else nodes[0])
      ensures OthersLinked(nodes, k, k - 1, At(nodes, k + 1), k + 1, At(nodes, k - 1))
    {
      ghost var j, l, next, prev := k - 1, k + 1, At(nodes, k + 1), At(nodes, k - 1);
      assert Linked(nodes, k) && (k > 0 ==> Linked(nodes, j)) && (l < |nodes| ==> Linked(nodes, l));
      if e == first {
        first := e.next;
        if e.next != null {
          e.next.prev := null;
        }
      } else {
        assert e.prev != null;
        e.prev.next := e.next;
        if e.next != null {
          e.next.prev := e.prev;
        }
      }
      forall i | 0 <= i < |nodes| && i != k ensures LinkedBut(nodes, i, j, next, l, prev) {
        assert old(Linked(nodes, i));
      }
    }

    /** Finds the first element for a pointer. */
    method Find(ptr: T) returns (e: Element?<T>, ghost k: nat)
      requires Valid()
      ensures k <= |nodes| && e == At(nodes, k)
      ensures ptr !in Contents()[..k] && (k < |nodes| ==> Contents()[k] == ptr)
      ensures if e == null then ptr !in Contents() else e in nodes && e.ptr == ptr
    {
      e, k := first, 0;
      while e != null
        invariant k <= |nodes| && e == At(nodes, k) && ptr !in Contents()[..k]
        decreases |nodes| - k
      {
        if e.ptr == ptr {
          return;
        }
        assert Linked(nodes, k);
        e, k := e.next, k + 1;
      }
    }
  }

  ghost function Insert<T>(nodes: seq<Element<T>>, k: nat, e: Element<T>): seq<Element<T>>
    requires k <= |nodes|
  {
    nodes[..k] + [e] + nodes[k..]
  }

  /** Element i is linked as in the list, except for the next of element n and the prev of element p. */
  ghost predicate LinkedBut<T>(nodes: seq<Element<T>>, i: nat, n: int, next: Element?<T>, p: int, prev: Element?<T>)
    requires i < |nodes|
    reads nodes
  {
    && nodes[i].next == (if i == n then next else At(nodes, i + 1))
    && nodes[i].prev == (if i == p then prev else At(nodes, i - 1))
  }

  ghost predicate AllLinkedBut<T>(nodes: seq<Element<T>>, n: int, next: Element?<T>, p: int, prev: Element?<T>)
    reads nodes
  {
    forall i :: 0 <= i < |nodes| ==> LinkedBut(nodes, i, n, next, p, prev)
  }

  ghost predicate OthersLinked<T>(nodes: seq<Element<T>>, k: nat, n: int, next: Element?<T>, p: int, prev: Element?<T>)
    reads nodes
  {
    forall i :: 0 <= i < |nodes| && i != k ==> LinkedBut(nodes, i, n, next, p, prev)
  }

  /** An element that is linked between its neighbours, while all else stays, is in the list. */
  lemma Spliced<T>(nodes: seq<Element<T>>, e: Element<T>, k: nat)
    requires k <= |nodes| && e !in nodes && Distinct(nodes)
    requires e.prev == At(nodes, k - 1) && e.next == At(nodes, k)
    requires AllLinkedBut(nodes, k - 1, e, k, e)
    ensures Distinct(Insert(nodes, k, e))
    ensures forall i :: 0 <= i < |nodes| + 1 ==> Linked(Insert(nodes, k, e), i)
  {
    var n := k - 1;
    forall i | 0 <= i < |nodes| + 1 ensures Linked(Insert(nodes, k, e), i) {
      if i < k {
        assert LinkedBut(nodes, i, n, e, k, e);
      } else if i > k {
        assert LinkedBut(nodes, i - 1, n, e, k, e);
      }
    }
  }

  /** When the neighbours of element k are linked to each other, the list is a list without it. */
  lemma Unspliced<T>(nodes: seq<Element<T>>, k: nat)
    requires k < |nodes| && Distinct(nodes)
    requires OthersLinked(nodes, k, k - 1, At(nodes, k + 1), k + 1, At(nodes, k - 1))
    ensures Distinct(Without(nodes, k))
    ensures forall i :: 0 <= i < |nodes| - 1 ==> Linked(Without(nodes, k), i)
  {
    var n, p, next, prev := k - 1, k + 1, At(nodes, k + 1), At(nodes, k - 1);
    forall i | 0 <= i < |nodes| - 1 ensures Linked(Without(nodes, k), i) {
      assert LinkedBut(nodes, if i < k then i else i + 1, n, next, p, prev);
    }
  }

  lemma PtrsOfInsert<T>(nodes: seq<Element<T>>, e: Element<T>, k: nat)
    requires k <= |nodes|
    ensures Ptrs(Insert(nodes, k, e)) == Ptrs(nodes)[..k] + [e.ptr] + Ptrs(nodes)[k..]
  {
  }

  lemma PtrsOfWithout<T>(nodes: seq<Element<T>>, k: nat)
    requires k < |nodes|
    ensures Ptrs(Without(nodes, k)) == Ptrs(nodes)[..k] + Ptrs(nodes)[k + 1..]
  {
  }

  ghost function Without<T>(nodes: seq<Element<T>>, k: nat): seq<Element<T>>
    requires k < |nodes|
  {
    nodes[..k] + nodes[k + 1..]
  }

  /** Element i of the list, or null behind its end. */
  ghost function At<T>(nodes: seq<Element<T>>, i: int): Element?<T> {
    if 0 <= i < |nodes| then nodes[i] else null
  }

  ghost predicate Linked<T>(nodes: seq<Element<T>>, i: nat)
    requires i < |nodes|
    reads nodes
  {
    nodes[i].next == At(nodes, i + 1) && nodes[i].prev == At(nodes, i - 1)
  }

  ghost predicate Distinct<T>(nodes: seq<Element<T>>) {
    forall i, j :: 0 <= i < j < |nodes| ==> nodes[i] != nodes[j]
  }

  ghost function Ptrs<T>(nodes: seq<Element<T>>): (s: seq<T>)
    ensures |s| == |nodes|
  {
    seq(|nodes|, i requires 0 <= i < |nodes| => nodes[i].ptr)
  }
}
