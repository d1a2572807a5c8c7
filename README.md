# A verified model of a linked string queue

The repository is one component, `queue.c`: a queue of strings stored as a
singly linked list. A header (`queue_t`) holds `head`, `tail` and a
maintained `size`; each element (`list_ele_t`) holds its own copy of a
string and a `next` pointer. The operations create a queue, release it,
insert at either end in constant time, remove from the head while copying
the removed string into a caller's fixed-capacity buffer, report the size
without traversal, and reverse the list in place by rewiring `next`
pointers. Every operation accepts a null queue.

The model keeps the source's imperative shape:

- `LinkedQueue.Node` and `LinkedQueue.Queue` are classes with the source's
  fields. The queue carries a ghost view: `Nodes` (the elements from head to
  tail, which are exactly the elements the queue owns) and `Contents` (their
  strings).
  `Queue.Valid()` is the invariant: consecutive elements are linked, the last
  has no successor, `head` and `tail` are the first and last elements (both
  null exactly when the queue is empty), `size` is the number of elements,
  the elements are distinct, and each holds the corresponding string.
- The operations are module-level methods that take a `Queue?`, so the null
  queue is an ordinary argument. Each `modifies` clause names the objects the
  operation may write: the header, plus the old tail for tail insertion, the
  buffer for removal and the chain's elements for reversal; nothing outside
  the queue's own chain is written. The `ensures` give the new header fields,
  the new ghost view and, through `Valid()`, the new links of every element
  in the chain. The caller's buffer is an `array?<char>` with a capacity
  `bufsize` no larger than its length.
- A C string is a `CString`: a character sequence containing no NUL, the
  terminator being implicit. `CStrings.BufferImage` is what the buffer's
  first `bufsize` slots hold after a removal, and `CStrings.StringIn` reads a
  buffer back as a C string.
- Allocation failure is an explicit `allocFails` argument of `New`,
  `InsertHead` and `InsertTail`. When it is set, the call fails and leaves the
  queue unchanged, which is what the source does when `malloc` returns NULL
  (queue.c:17-18, 53-59, 80-86).
- `QueueScenarios` holds callers that derive the behaviours spanning several
  calls from the operations' contracts alone: insert-then-remove round trip,
  insertion order at each end, a mixed example, reversal twice, a removed
  element staying out of reach, null safety.
- `AsWritten` models the three defects of the source as written (see
  Findings). The rest of the model uses the corrected behaviour.

## Model

| member | source | states |
|---|---|---|
| `LinkedQueue.Queue.constructor` | queue.c:20-23 | a new header is valid, with null `head` and `tail`, size 0 and no contents |
| `LinkedQueue.New` | queue.c:14-25 | returns null exactly when allocation fails; otherwise a fresh valid empty queue with null `head` and `tail` and size 0 |
| `LinkedQueue.Free` | queue.c:28-43 | tolerates a null queue; otherwise takes a copy of `head` and hands it to the release loop, so it releases exactly the queue's elements, each once, in order |
| `LinkedQueue.ReleaseChain` | queue.c:37-42 | the release loop, given only the saved `head` and no header, follows `next` until null and visits exactly the elements of the chain, each once, in order |
| `LinkedQueue.Node.constructor` | queue.c:53-63 | a new element holds the given string and successor |
| `LinkedQueue.InsertHead` | queue.c:45-70 | succeeds iff the queue is non-null and allocation succeeds; on success a fresh element holding `s` is the new head linked to the old head, contents become `[s] + old contents`, size grows by one, and on an empty queue the new element is also the tail; on failure nothing changes |
| `LinkedQueue.InsertTail` | queue.c:72-100 | succeeds iff the queue is non-null and allocation succeeds; on success a fresh element holding `s` with no successor is the new tail and the old tail (the only element written) links to it, contents become `old contents + [s]`, size grows by one, and on an empty queue the new element is also the head; on failure nothing changes |
| `LinkedQueue.RemoveHead` | queue.c:102-135 | succeeds iff the queue is non-null and non-empty; on success contents lose their first string, size drops by one, `head` moves to its successor and `tail` is cleared when the queue becomes empty; with a buffer of positive capacity its first `bufsize` slots hold the removed string truncated to `bufsize - 1` characters followed by NULs and the slots beyond are untouched; otherwise the buffer is untouched; on failure neither queue nor buffer changes |
| `LinkedQueue.CopyOut` | queue.c:122-123 | after clearing `bufsize` slots and copying with bound `bufsize - 1`, the slots hold `BufferImage` of the value and nothing from `bufsize` on is changed |
| `LinkedQueue.Unlink` | queue.c:125-133 | removing the head of a valid queue keeps it valid, drops the first element and string, moves `head` to the successor, clears `tail` when no successor exists; only the header is written, so the removed element keeps its link |
| `LinkedQueue.Size` | queue.c:137-146 | returns 0 for a null queue; otherwise the number of elements in the chain, read from the maintained count |
| `LinkedQueue.Reverse` | queue.c:148-169 | on a non-null queue the elements and contents become the reversal of the old ones, `head` and `tail` swap and the size is unchanged; only the header and the chain's own elements are written, and nothing is allocated |
| `LinkedQueue.ReverseLinks` | queue.c:157-166 | the pointer-flipping loop turns a forward chain into the backward chain: the first element ends with no successor, every other points at its predecessor, and the last element is returned |
| `LinkedQueue.ReversedChain` | queue.c:166-168 | the backward chain left by the loop is a forward chain, ending in null, along the reversed element sequence |
| `Sequences.ReversedAt` | queue.c:150-153 | position `k` of the reversal is position `n - 1 - k` of the original |
| `Sequences.ReversedAll` | queue.c:150-153 | every position of the reversal is the mirrored position of the original |
| `Sequences.ReversedInvolution` | queue.c:148-169 | reversing twice gives back the original sequence |
| `CStrings.CopiedLength` | queue.c:119-120 | at most `bufsize - 1` characters are copied: all of the string when it fits, exactly `bufsize - 1` when it does not |
| `CStrings.BufferImage` | queue.c:119-123 | the buffer image has exactly `bufsize` slots, agrees with the string on the copied prefix, and is NUL from there on, so its last slot is a terminator |
| `CStrings.StringIn` | queue.c:119-120 | the C string in a buffer is a prefix of it, followed by a NUL unless it fills the buffer |
| `CStrings.StringInTerminated` | queue.c:120 | a string followed by a terminator reads back as itself |
| `CStrings.TruncatedCopy` | queue.c:119-123 | the buffer reads back as the removed string truncated to `bufsize - 1` characters: exactly `bufsize - 1` of them when the string is too long, the whole string when the capacity exceeds its length |
| `CStrings.SizeTPred` | queue.c:123 | `bufsize - 1` in `size_t` arithmetic is the ordinary predecessor for positive capacities and wraps to the largest value for 0 |
| `CStrings.CopyGuard` | queue.c:119-121 | the intended guard copies exactly when a buffer is supplied and has room for at least the terminator; when it copies, the buffer is non-null and the `size_t` bound `bufsize - 1` does not wrap |
| `AsWritten.InsertTailAsWritten` | queue.c:89-99 | as written, insertion into a queue with null `tail` sets `head` but leaves `tail` null |
| `AsWritten.TailInsertionsIntoEmptyQueue` | queue.c:91-95 | two tail insertions into a new queue leave size 2, a chain of one element from `head`, and a null `tail` |
| `AsWritten.RemoveHeadAsWritten` | queue.c:110-134 | as written, removing a head with a non-zero count moves `head` on and keeps `tail`, even when the removed element was the last |
| `AsWritten.LastRemovalAsWritten` | queue.c:110-134 | inserting "a" at the head of a new queue and removing it as written leaves `head` null and size 0, yet `tail` non-null at the released element holding "a" |
| `AsWritten.LastRemovalLeavesTail` | queue.c:89-95 | from the state that removal leaves (null `head`, size 0, non-null `tail`), a tail insertion of "b" as written writes its link into the stale tail, and the new element becomes head and tail with size 1 |
| `AsWritten.InsertRemoveInsertTail` | queue.c:45-135 | on a new queue, head insertion of "a", removal, then tail insertion of "b" leave the released "a" element linked to the new "b" element, which is the queue's head and tail |
| `AsWritten.CopyGuardAsWritten` | queue.c:121 | the written guard admits every call the intended guard admits, every real buffer including capacity 0, and a null buffer of any positive capacity |
| `AsWritten.GuardAdmitsUnsafeCalls` | queue.c:121 | the calls the written guard passes and the intended guard refuses are exactly a null buffer with positive capacity and a real buffer with capacity 0 |
| `AsWritten.GuardAdmitsUnderflow` | queue.c:121-123 | the written guard passes capacity 0, where the `strncpy` bound wraps to the largest `size_t` |
| `QueueScenarios.InsertRemoveRoundTrip` | queue.c:45-70 | inserting `s` at the head and removing it into a buffer longer than `s` yields `s` and restores contents and size |
| `QueueScenarios.RemoveInto` | queue.c:119-125 | removal into a buffer that fits the head string leaves exactly that string in the buffer, drops it from the contents and lowers the size by one |
| `QueueScenarios.HeadInsertionOrder` | queue.c:62-65 | inserting `a` then `b` at the head, removal yields `b` then `a` and restores the contents |
| `QueueScenarios.TailInsertionOrder` | queue.c:89-95 | inserting `a` then `b` at the tail of an empty queue, removal yields `a` then `b` and empties the queue |
| `QueueScenarios.MixedInsertions` | queue.c:72-135 | tail insertions of "a", "b", a head insertion of "c" and one removal yield "c" with two elements left |
| `QueueScenarios.ReverseTwice` | queue.c:148-169 | reversing twice restores elements, contents, `head` and `tail` |
| `QueueScenarios.RemovedElementUntouched` | queue.c:125-169 | after a removal, neither a reversal nor a tail insertion writes into the removed element or makes it the head or tail again |
| `QueueScenarios.NullQueue` | queue.c:31-156 | every null-queue check (queue.c:31, 49, 75, 110, 144, 156): on a null queue both insertions and removal fail, the size is 0, the buffer is untouched, and reversal and release do nothing |

## Left out

- Memory release: Dafny has no deallocation, so `Free` reports the elements it would release instead of releasing them, and nothing stops later use of a released queue or element.
- Free: the source releases the header before walking the chain (queue.c:36); the model reads `head` into a local first, just as the source does, and never touches the header again, but the release of the header itself is not represented.
- The string copy: `strlen`, the `malloc` of `strlen(s) + 1` bytes and `strncpy` of the terminator are represented by storing the `CString` value in a fresh element; strings are character sequences with an implicit terminator, and byte-level layout is not modelled.
- Size: the count is an unbounded integer; overflow of the C `int` after more than 2^31 - 1 insertions is not modelled.
- Which of the two allocations in an insertion fails is not distinguished: both failures return false and leave the queue unchanged, so one `allocFails` flag covers them.
- A null `s` passed to an insertion (undefined behaviour in the source, which calls `strlen` on it) is excluded by the parameter type.
- `harness.h` and `queue.h` are not part of this model; the field types of `queue_t` are taken from their uses in queue.c.
- Concurrency: the source is single-threaded and the model is sequential.

## Findings

| source | as written | input that shows it | evidently intended | confidence | as-written member | corrected member |
|---|---|---|---|---|---|---|
| queue.c:91-95 | `tail` is only assigned when it was already non-null | `q_insert_tail` twice on a new queue: size 2, one element reachable from `head`, `tail` null, the second element lost | on an empty queue the new element becomes both `head` and `tail` | high; not executed | `AsWritten.TailInsertionsIntoEmptyQueue` | `LinkedQueue.InsertTail` |
| queue.c:114-125 | the last element is detected by `size == 0`, which never holds while `head` is non-null, so `tail` is never cleared | `q_insert_head(q, "a")` then `q_remove_head`: `head` null, `tail` the released element; a following `q_insert_tail` writes into it | `tail` is cleared when the removed head has no successor | high; not executed | `AsWritten.LastRemovalAsWritten` | `LinkedQueue.Unlink` |
| queue.c:121-123 | the copy runs unless `sp` is NULL and `bufsize` is 0 | `sp == NULL, bufsize == 1`: `memset` through NULL; `bufsize == 0` with a real buffer: the `strncpy` bound wraps to 2^64 - 1 | copy only when `sp` is non-null and `bufsize` is positive, as the comment at queue.c:119-120 says | high; not executed | `AsWritten.GuardAdmitsUnderflow` | `LinkedQueue.RemoveHead` |
