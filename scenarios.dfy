/** Callers of the queue operations that establish, from the operations'
    contracts alone, the behaviours the queue promises across several
    calls: round trips, insertion order, reversal as an involution, and the
    null queue. */
module QueueScenarios {
  import opened CStrings
  import opened Sequences
  import opened LinkedQueue

  /** Inserting at the head and removing from the head gives the string back
      in a buffer longer than it, and restores the queue. */
  method InsertRemoveRoundTrip(q: Queue, s: CString, sp: array<char>, bufsize: nat)
    requires q.Valid()
    requires |s| < bufsize <= sp.Length
    modifies q, sp
    ensures q.Valid() && q.Contents == old(q.Contents) && q.size == old(q.size)
    ensures StringIn(sp[..bufsize]) == s
  {
    var inserted := InsertHead(q, s, false);
    var removed := RemoveHead(q, sp, bufsize);
    TruncatedCopy(s, bufsize);
  }

  /** Removal returns the value currently at the head, truncated to fit. */
  method RemoveInto(q: Queue, sp: array<char>, bufsize: nat) returns (v: CString)
    requires q.Valid() && q.Contents != []
    requires |q.Contents[0]| < bufsize <= sp.Length
    modifies q, sp
    ensures q.Valid() && q.Contents == old(q.Contents)[1..]
    ensures v == old(q.Contents)[0]
    ensures StringIn(sp[..bufsize]) == v && q.size == old(q.size) - 1
  {
    var removed := RemoveHead(q, sp, bufsize);
    TruncatedCopy(old(q.Contents)[0], bufsize);
    v := StringIn(sp[..bufsize]);
  }

  /** Inserting `a` then `b` at the head: removal yields `b`, then `a`. */
  method HeadInsertionOrder(q: Queue, a: CString, b: CString, sp: array<char>, bufsize: nat)
    returns (first: CString, second: CString)
    requires q.Valid()
    requires |a| < bufsize && |b| < bufsize && bufsize <= sp.Length
    modifies q, sp
    ensures q.Valid() && q.Contents == old(q.Contents)
    ensures first == b && second == a
  {
    var ok := InsertHead(q, a, false);
    ok := InsertHead(q, b, false);
    first := RemoveInto(q, sp, bufsize);
    second := RemoveInto(q, sp, bufsize);
  }

  /** Inserting `a` then `b` at the tail of an empty queue: removal yields
      `a`, then `b`. */
  method TailInsertionOrder(q: Queue, a: CString, b: CString, sp: array<char>, bufsize: nat)
    returns (first: CString, second: CString)
    requires q.Valid() && q.Contents == []
    requires |a| < bufsize && |b| < bufsize && bufsize <= sp.Length
    modifies q, q.Nodes, sp
    ensures q.Valid() && q.Contents == []
    ensures first == a && second == b
  {
    var ok := InsertTail(q, a, false);
    ok := InsertTail(q, b, false);
    first := RemoveInto(q, sp, bufsize);
    second := RemoveInto(q, sp, bufsize);
  }

  /** A new queue; tail insertions of "a" and "b", a head insertion of "c",
      then one removal: "c" comes out and two elements remain. */
  method MixedInsertions() returns (removed: CString, remaining: int)
    ensures removed == "c" && remaining == 2
  {
    var q := New(false);
    var ok := InsertTail(q, "a", false);
    ok := InsertTail(q, "b", false);
    ok := InsertHead(q, "c", false);
    assert q.Contents == ["c", "a", "b"];
    var sp := new char[8];
    removed := RemoveInto(q, sp, 8);
    assert q.Contents == ["a", "b"];
    remaining := Size(q);
  }

  /** Reversing twice restores the order of the elements and the head and
      tail pointers. */
  method ReverseTwice(q: Queue)
    requires q.Valid()
    modifies q, q.Nodes
    ensures q.Valid()
    ensures q.Nodes == old(q.Nodes) && q.Contents == old(q.Contents)
    ensures q.head == old(q.head) && q.tail == old(q.tail)
  {
    Reverse(q);
    ReversedAll(old(q.Nodes));
    assert forall k :: 0 <= k < |q.Nodes| ==> q.Nodes[k] in old(q.Nodes);
    Reverse(q);
    ReversedInvolution(old(q.Nodes));
    ReversedInvolution(old(q.Contents));
  }

  /** Once removed, an element is out of reach of the queue: neither a
      reversal nor a tail insertion writes into it. */
  method RemovedElementUntouched(q: Queue, s: CString) returns (removed: Node)
    requires q.Valid() && q.Contents != []
    modifies q, q.Nodes
    ensures q.Valid() && removed == old(q.head)
    ensures removed.next == old(removed.next)
    ensures q.tail != removed && q.head != removed
  {
    removed := q.head;
    var ok := RemoveHead(q, null, 0);
    assert removed !in q.Nodes;
    Reverse(q);
    ok := InsertTail(q, s, false);
  }

  /** Every operation accepts the null queue: insertions and removal fail,
      the size is 0, the buffer is not written, and reversal and release do
      nothing. */
  method NullQueue(s: CString, sp: array<char>, bufsize: nat)
    returns (insertedHead: bool, insertedTail: bool, removed: bool, size: int)
    requires bufsize <= sp.Length
    modifies sp
    ensures !insertedHead && !insertedTail && !removed && size == 0
    ensures sp[..] == old(sp[..])
  {
    insertedHead := InsertHead(null, s, false);
    insertedTail := InsertTail(null, s, false);
    removed := RemoveHead(null, sp, bufsize);
    size := Size(null);
    Reverse(null);
    ghost var released := Free(null);
  }
}
