/** A queue of owned strings kept as a singly linked list with head and tail
    pointers and a maintained element count. A null queue is a `Queue?`
    that is `null`; every operation accepts it. */
module LinkedQueue {
  import opened CStrings
  import opened Sequences

  /** A list element (`list_ele_t`): its own copy of a string and the link
      to its successor. */
  class Node {
    const value: CString
    var next: Node?

    constructor (value: CString, next: Node?)
      ensures this.value == value && this.next == next
    {
      this.value := value;
      this.next := next;
    }
  }

  /** The queue header (`queue_t`). */
  class Queue {
    var head: Node?
    var tail: Node?
    var size: int

    // Abstract view: the elements from head to tail, which are exactly the
    // elements the queue owns, and the strings they hold.
    ghost var Nodes: seq<Node>
    ghost var Contents: seq<CString>

    /** The chain from `head` links the elements of `Nodes` in order, ends at
        `tail` with no successor, has `size` elements, and holds `Contents`. */
    ghost predicate Valid()
      reads this, Nodes
    {
      (forall i, j :: 0 <= i < j < |Nodes| ==> Nodes[i] != Nodes[j]) &&
      size == |Nodes| && |Contents| == |Nodes| &&
      (forall i :: 0 <= i < |Nodes| ==> Nodes[i].value == Contents[i]) &&
      (forall i :: 0 <= i < |Nodes| - 1 ==> Nodes[i].next == Nodes[i + 1]) &&
      (Nodes != [] ==> Nodes[|Nodes| - 1].next == null) &&
      head == (if Nodes == [] then null else Nodes[0]) &&
      tail == (if Nodes == [] then null else Nodes[|Nodes| - 1])
    }

    constructor ()
      ensures Valid()
      ensures head == null && tail == null && size == 0
      ensures Nodes == [] && Contents == []
    {
      head, tail, size := null, null, 0;
      Nodes, Contents := [], [];
    }
  }

  /** `q_new`: a fresh empty queue, or null when the header cannot be
      allocated. */
  method New(allocFails: bool) returns (q: Queue?)
    ensures q == null <==> allocFails
    ensures q != null ==> fresh(q) && q.Valid()
    ensures q != null ==> q.head == null && q.tail == null && q.size == 0 && q.Contents == []
  {
    if allocFails {
      return null;
    }
    q := new Queue();
  }

  /** `q_free`: takes a copy of `head` and walks the chain from it, so the
      header is not needed once the walk starts (the source releases the
      header first). Dafny has no deallocation, so what is released is
      reported as `released`: every element once, in order. */
  method Free(q: Queue?) returns (ghost released: seq<Node>)
    requires q != null ==> q.Valid()
    ensures q == null ==> released == []
    ensures q != null ==> released == q.Nodes
  {
    if q == null {
      return [];
    }
    var pointer := q.head;
    released := ReleaseChain(pointer, q.Nodes);
  }

  /** The loop of `q_free`: follows `next` from `pointer`, the first element
      of the chain `nodes`, until null, visiting each element of the chain
      once, in order. */
  method ReleaseChain(pointer: Node?, ghost nodes: seq<Node>) returns (ghost released: seq<Node>)
    requires pointer == if nodes == [] then null else nodes[0]
    requires forall j :: 0 <= j < |nodes| - 1 ==> nodes[j].next == nodes[j + 1]
    requires nodes != [] ==> nodes[|nodes| - 1].next == null
    ensures released == nodes
  {
    released := [];
    var p := pointer;
    ghost var i := 0;
    while p != null
      invariant 0 <= i <= |nodes|
      invariant released == nodes[..i]
      invariant i < |nodes| ==> p == nodes[i]
      invariant i == |nodes| ==> p == null
      decreases |nodes| - i
    {
      var prev := p;
      p := p.next;
      released := released + [prev];
      i := i + 1;
    }
  }

  /** `q_insert_head`: a fresh element holding a copy of `s` becomes the new
      head; on an empty queue it is also the tail. Fails on a null queue or
      when allocation fails, changing nothing. */
  method InsertHead(q: Queue?, s: CString, allocFails: bool) returns (ok: bool)
    requires q != null ==> q.Valid()
    modifies q
    ensures ok <==> q != null && !allocFails
    ensures q != null ==> q.Valid()
    ensures q != null && !ok ==> unchanged(q)
    ensures ok ==> fresh(q.head) && q.head.value == s && q.head.next == old(q.head)
    ensures ok ==> q.Nodes == [q.head] + old(q.Nodes) && q.Contents == [s] + old(q.Contents)
    ensures ok ==> q.size == old(q.size) + 1
    ensures ok ==> q.tail == if old(q.head) == null then q.head else old(q.tail)
  {
    if q == null || allocFails {
      return false;
    }
    var newh := new Node(s, q.head);
    if q.head == null {
      q.tail := newh;
    }
    q.head := newh;
    q.size := q.size + 1;
    q.Nodes := [newh] + q.Nodes;
    q.Contents := [s] + q.Contents;
    ok := true;
  }

  /** `q_insert_tail`: a fresh element holding a copy of `s` becomes the new
      tail, linked after the old tail; on an empty queue it is also the head.
      Fails on a null queue or when allocation fails, changing nothing.
      Unlike queue.c:91-95, `tail` is set on an empty queue as well. */
  method InsertTail(q: Queue?, s: CString, allocFails: bool) returns (ok: bool)
    requires q != null ==> q.Valid()
    modifies q, if q != null && q.tail != null then {q.tail} else {}
    ensures ok <==> q != null && !allocFails
    ensures q != null ==> q.Valid()
    ensures q != null && !ok ==> unchanged(q)
    ensures q != null && old(q.tail) != null ==> old(q.tail).next == if ok then q.tail else null
    ensures ok ==> fresh(q.tail) && q.tail.value == s && q.tail.next == null
    ensures ok ==> q.Nodes == old(q.Nodes) + [q.tail] && q.Contents == old(q.Contents) + [s]
    ensures ok ==> q.size == old(q.size) + 1
    ensures ok ==> q.head == if old(q.head) == null then q.tail else old(q.head)
  {
    if q == null || allocFails {
      return false;
    }
    var newt := new Node(s, null);
    if q.tail != null {
      q.tail.next := newt;
    } else {
      q.head := newt;
    }
    q.tail := newt;
    q.size := q.size + 1;
    q.Nodes := q.Nodes + [newt];
    q.Contents := q.Contents + [s];
    ok := true;
  }

  /** The copy of the removed value into the caller's buffer: every one of
      the `bufsize` slots is cleared, then at most `bufsize - 1` characters
      are copied (with NUL padding up to that bound). Slots from `bufsize`
      on are left alone. */
  method CopyOut(sp: array<char>, bufsize: nat, v: CString)
    requires 0 < bufsize <= sp.Length
    modifies sp
    ensures sp[..bufsize] == BufferImage(v, bufsize)
    ensures sp[bufsize..] == old(sp[bufsize..])
  {
    forall i | 0 <= i < bufsize {
      sp[i] := '\0';
    }
    forall i | 0 <= i < bufsize - 1 {
      sp[i] := if i < |v| then v[i] else '\0';
    }
    ghost var image := BufferImage(v, bufsize);
    assert forall i :: 0 <= i < bufsize ==> sp[i] == image[i];
    assert sp[..bufsize] == image;
  }

  /** `q_remove_head`: unlinks the head and, when a buffer with room for at
      least the terminator is supplied, leaves in it the removed value
      truncated to `bufsize - 1` characters. Fails on a null or empty queue,
      changing nothing. Unlike queue.c:114-125, `tail` is cleared when the
      last element goes, and nothing is written unless `sp` is non-null and
      `bufsize` is positive. */
  method RemoveHead(q: Queue?, sp: array?<char>, bufsize: nat) returns (ok: bool)
    requires q != null ==> q.Valid()
    requires sp != null ==> bufsize <= sp.Length
    modifies q, sp
    ensures ok <==> q != null && old(q.Contents) != []
    ensures q != null ==> q.Valid()
    ensures q != null && !ok ==> unchanged(q)
    ensures ok ==> q.Contents == old(q.Contents)[1..] && q.Nodes == old(q.Nodes)[1..]
    ensures ok ==> q.size == old(q.size) - 1
    ensures ok ==> q.head == old(q.head).next
    ensures ok ==> q.tail == if q.head == null then null else old(q.tail)
    ensures sp != null && ok && bufsize > 0 ==>
      sp[..bufsize] == BufferImage(old(q.Contents)[0], bufsize) &&
      sp[bufsize..] == old(sp[bufsize..])
    ensures sp != null && !(ok && bufsize > 0) ==> sp[..] == old(sp[..])
  {
    if q == null || q.head == null {
      return false;
    }
    // The source's `size == 0` branch (queue.c:114-117) cannot be taken:
    // a non-null head means at least one element.
    var v := q.head.value;
    if CopyGuard(sp == null, bufsize) {
      CopyOut(sp, bufsize, v);
    }
    Unlink(q);
    ok := true;
  }

  /** The unlinking step of `q_remove_head`: `head` moves to its successor,
      `tail` is cleared when no successor exists, and the count drops by one. */
  method Unlink(q: Queue)
    requires q.Valid() && q.head != null
    modifies q
    ensures q.Valid()
    ensures q.Contents == old(q.Contents)[1..] && q.Nodes == old(q.Nodes)[1..]
    ensures q.size == old(q.size) - 1
    ensures q.head == old(q.head).next
    ensures q.tail == if q.head == null then null else old(q.tail)
  {
    var oldHead := q.head;
    q.head := oldHead.next;
    if q.head == null {
      q.tail := null;
    }
    q.size := q.size - 1;
    q.Nodes := q.Nodes[1..];
    q.Contents := q.Contents[1..];
  }

  /** `q_size`: the maintained count, which is the number of elements in the
      chain; 0 for a null queue. Nothing is traversed. */
  method Size(q: Queue?) returns (n: int)
    requires q != null ==> q.Valid()
    ensures q == null ==> n == 0
    ensures q != null ==> n == |q.Contents| == |q.Nodes|
  {
    if q == null {
      return 0;
    }
    n := q.size;
  }

  /** `q_reverse`: flips every `next` link in place, so the old tail becomes
      the head and the old head the tail; no element is allocated or copied.
      Nothing changes on a null or empty queue. */
  method Reverse(q: Queue?)
    requires q != null ==> q.Valid()
    modifies q, if q != null then q.Nodes else []
    ensures q != null ==> q.Valid() && q.size == old(q.size)
    ensures q != null ==> q.Nodes == Reversed(old(q.Nodes)) && q.Contents == Reversed(old(q.Contents))
    ensures q != null ==> q.head == old(q.tail) && q.tail == old(q.head)
  {
    if q == null || q.head == null {
      return;
    }
    ghost var nodes := q.Nodes;
    var last := ReverseLinks(q.head, nodes);
    q.tail := q.head;
    q.head := last;
    q.Nodes := Reversed(nodes);
    q.Contents := Reversed(q.Contents);
    ReversedAll(nodes);
    ReversedAll(old(q.Contents));
    ReversedChain(nodes);
  }

  /** The loop of `q_reverse`: walks the chain `nodes` from its first element
      and points every `next` link at the element before it, returning the
      last element. */
  method ReverseLinks(first: Node, ghost nodes: seq<Node>) returns (last: Node)
    requires nodes != [] && first == nodes[0]
    requires forall j, k :: 0 <= j < k < |nodes| ==> nodes[j] != nodes[k]
    requires forall j :: 0 <= j < |nodes| - 1 ==> nodes[j].next == nodes[j + 1]
    requires nodes[|nodes| - 1].next == null
    modifies set j | 0 <= j < |nodes| :: nodes[j]
    ensures last == nodes[|nodes| - 1]
    ensures nodes[0].next == null
    ensures forall j :: 0 < j < |nodes| ==> nodes[j].next == nodes[j - 1]
  {
    ghost var n := |nodes|;
    ghost var i := 0;
    var pointer := first;
    var prev: Node? := null;
    var next := pointer.next;
    while pointer.next != null
      invariant 0 <= i < n
      invariant pointer == nodes[i] && next == pointer.next
      invariant i == 0 ==> prev == null
      invariant i > 0 ==> prev == nodes[i - 1] && nodes[0].next == null
      invariant forall j :: 0 < j < i ==> nodes[j].next == nodes[j - 1]
      invariant forall j :: i <= j < n - 1 ==> nodes[j].next == nodes[j + 1]
      invariant nodes[n - 1].next == null
      invariant i < n - 1 ==> pointer.next == nodes[i + 1]
      decreases n - i
    {
      pointer.next := prev;
      prev := pointer;
      pointer := next;
      next := pointer.next;
      i := i + 1;
    }
    pointer.next := prev;
    last := pointer;
  }

  /** Backward links along `nodes` are forward links along its reversal,
      ending in null: the chain the reversal loop leaves behind. */
  lemma {:induction false} ReversedChain(nodes: seq<Node>)
    requires nodes != [] && nodes[0].next == null
    requires forall j :: 0 < j < |nodes| ==> nodes[j].next == nodes[j - 1]
    ensures forall k :: 0 <= k < |nodes| - 1 ==> Reversed(nodes)[k].next == Reversed(nodes)[k + 1]
    ensures Reversed(nodes)[|nodes| - 1].next == null
  {
    ReversedAll(nodes);
  }
}
