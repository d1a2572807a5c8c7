/** The three places where queue.c, as written, does not keep the queue
    invariant or writes outside the caller's buffer. Each is modelled here
    as written, with a scenario that exhibits the defect; the corrected
    behaviour is what LinkedQueue implements. */
module AsWritten {
  import opened CStrings
  import opened LinkedQueue

  /** `q_insert_tail` as written (queue.c:89-99): `tail` is only updated when
      it was already non-null, so inserting into an empty queue sets `head`
      and leaves `tail` null. */
  method InsertTailAsWritten(q: Queue, s: CString) returns (newt: Node)
    modifies q, q.tail
    ensures fresh(newt) && newt.value == s && newt.next == null
    ensures old(q.tail) != null ==> old(q.tail).next == newt && q.tail == newt
    ensures old(q.tail) == null ==> q.tail == null
    ensures old(q.head) == null ==> q.head == newt
    ensures old(q.head) != null ==> q.head == old(q.head)
    ensures q.size == old(q.size) + 1
  {
    newt := new Node(s, null);
    if q.tail != null {
      q.tail.next := newt;
      q.tail := newt;
    }
    if q.head == null {
      q.head := newt;
    }
    q.size := q.size + 1;
  }

  /** Two tail insertions into a new queue: the count says two, but the
      second element was never linked, the chain from `head` ends after the
      first, and `tail` is still null. */
  method TailInsertionsIntoEmptyQueue() returns (q: Queue, first: Node, second: Node)
    ensures q.size == 2
    ensures q.head == first && first.next == null && q.tail == null
    ensures second != first && second.value == "b"
  {
    q := new Queue();
    first := InsertTailAsWritten(q, "a");
    second := InsertTailAsWritten(q, "b");
  }

  /** `q_remove_head` as written (queue.c:110-133), without the buffer copy:
      the `size == 0` test stands in for "this is the last element", so
      removing the last element of a consistent queue leaves `tail` at the
      released element. */
  method RemoveHeadAsWritten(q: Queue?) returns (ok: bool)
    modifies q
    ensures ok <==> q != null && old(q.head) != null
    ensures q != null && !ok ==> unchanged(q)
    ensures ok && old(q.size) == 0 ==> q.head == null && q.tail == null
    ensures ok && old(q.size) != 0 ==> q.head == old(q.head.next) && q.tail == old(q.tail)
    ensures ok ==> q.size == old(q.size) - 1
  {
    if q == null || q.head == null {
      return false;
    }
    if q.size == 0 {
      q.head := null;
      q.tail := null;
    } else {
      q.head := q.head.next;
    }
    q.size := q.size - 1;
    ok := true;
  }

  /** One element inserted at the head of a new queue and removed as
      written: the queue is empty by `head` and by count, yet `tail` still
      names the released element. */
  method LastRemovalAsWritten() returns (q: Queue)
    ensures fresh(q) && q.head == null && q.size == 0
    ensures q.tail != null && fresh(q.tail) && q.tail.value == "a"
  {
    q := new Queue();
    var _ := InsertHead(q, "a", false);
    var ok := RemoveHeadAsWritten(q);
  }

  /** In the state the removal above leaves (empty by `head` and by count,
      `tail` still set), a tail insertion as written writes its link into the
      stale tail, and the new element becomes head and tail. */
  method LastRemovalLeavesTail(q: Queue) returns (next: Node)
    requires q.head == null && q.size == 0 && q.tail != null
    modifies q, q.tail
    ensures old(q.tail) != next && old(q.tail).next == next
    ensures q.size == 1 && q.head == next && q.tail == next && next.value == "b"
  {
    next := InsertTailAsWritten(q, "b");
  }

  /** The whole sequence on a new queue: insert "a" at the head, remove it,
      insert "b" at the tail. The released "a" element ends up linked to the
      new one. */
  method InsertRemoveInsertTail() returns (q: Queue, released: Node, next: Node)
    ensures q.size == 1 && q.head == next && q.tail == next && next.value == "b"
    ensures released != next && released.value == "a" && released.next == next
  {
    q := LastRemovalAsWritten();
    released := q.tail;
    next := LastRemovalLeavesTail(q);
  }

  /** The copy guard of queue.c:121 as written: it refuses only a null buffer
      of capacity 0, so it admits every call the intended guard admits, every
      real buffer including one of capacity 0, and a null buffer of any
      positive capacity. */
  function CopyGuardAsWritten(spIsNull: bool, bufsize: nat): (copy: bool)
    ensures CopyGuard(spIsNull, bufsize) ==> copy
    ensures !spIsNull ==> copy
    ensures spIsNull && bufsize > 0 ==> copy
  {
    !(spIsNull && bufsize == 0)
  }

  /** The written guard admits exactly two kinds of call the intended guard
      refuses: a null buffer with a positive capacity, where `memset` writes
      through the null pointer, and a real buffer of capacity 0. */
  lemma GuardAdmitsUnsafeCalls(spIsNull: bool, bufsize: nat)
    ensures CopyGuardAsWritten(spIsNull, bufsize) && !CopyGuard(spIsNull, bufsize)
        <==> (spIsNull && bufsize > 0) || (!spIsNull && bufsize == 0)
  {
  }

  /** With capacity 0 the bound `bufsize - 1` passed to `strncpy` wraps to
      the largest `size_t`, and `strncpy` writes that many bytes (it pads to
      its bound) into a buffer that has room for none. */
  lemma GuardAdmitsUnderflow()
    ensures CopyGuardAsWritten(false, 0)
    ensures SizeTPred(0) == SizeTBound - 1 && SizeTPred(0) > 0
  {
  }
}
