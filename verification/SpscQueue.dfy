/** CustomSPSCLockFreeQueue with whole operations atomic: a power-of-two ring whose head and tail
    are 64-bit counters that wrap around. */
module SpscQueue {
  import opened Words

  type Elem = int

  datatype Option<T> = None | Some(value: T)

  /** The `len` elements from counter `head` on, where `cells` is the ring. */
  function View(cells: seq<Elem>, head: int, len: nat): (view: seq<Elem>)
    requires |cells| > 0
    ensures |view| == len && forall i :: 0 <= i < len ==> view[i] == cells[Ring(head + i, |cells|)]
  {
    seq(len, i => cells[Ring(head + i, |cells|)])
  }

  /** Writing the cell behind a view that is shorter than the ring appends to the view. */
  lemma ViewPush(cells: seq<Elem>, head: int, len: nat, x: Elem)
    requires len < |cells|
    ensures View(cells[Ring(head + len, |cells|) := x], head, len + 1) == View(cells, head, len) + [x]
  {
    hide Ring;
    var after := View(cells[Ring(head + len, |cells|) := x], head, len + 1);
    forall i | 0 <= i < len + 1 ensures after[i] == (View(cells, head, len) + [x])[i] {
      if i < len { RingDistinct(head + i, head + len, |cells|); }
    }
  }

  lemma ViewPop(cells: seq<Elem>, head: int, len: nat)
    requires |cells| > 0 && len > 0
    ensures View(cells, head + 1, len - 1) == View(cells, head, len)[1..]
  {
    hide Ring;
    forall i | 0 <= i < len - 1 ensures View(cells, head + 1, len - 1)[i] == View(cells, head, len)[1..][i] {
      assert head + 1 + i == head + (i + 1);
    }
  }

  /** A view does not depend on which representative of the head word is used. */
  lemma ViewOfWord(cells: seq<Elem>, head: int, len: nat)
    requires PowerOfTwo(|cells|) && |cells| <= WORD
    ensures |cells| > 0 && View(cells, Word(head), len) == View(cells, head, len)
  {
    hide Ring, PowerOfTwo, Word;
    WordRing(head, |cells|);
    forall i | 0 <= i < len ensures View(cells, Word(head), len)[i] == View(cells, head, len)[i] {
      RingAdd(Word(head), i, |cells|);
      RingAdd(head, i, |cells|);
    }
  }

  /** The tail word lands on the ring where the head word plus the length does. */
  lemma TailCell(head: int, tail: int, capacity: nat)
    requires PowerOfTwo(capacity) && capacity <= HALF
    requires 0 <= head < WORD && 0 <= tail < WORD
    ensures capacity > 0 && Ring(tail, capacity) == Ring(head + Word(tail - head), capacity)
  {
    var len := Word(tail - head);
    assert tail == Word(head + len) by {
      var k := (tail - head) / WORD;
      assert head + len == tail + (-k) * WORD;
      WordShift(tail, -k);
    }
    hide Ring, PowerOfTwo, Word;
    WordRing(head + len, capacity);
  }

  class SpscQueue {
    var buffer: array<Elem>
    var head: int
    var tail: int

    ghost predicate Valid()
      reads this, buffer
    {
      && PowerOfTwo(buffer.Length) && 0 < buffer.Length <= HALF
      && 0 <= head < WORD && 0 <= tail < WORD
      && Word(tail - head) <= buffer.Length
    }

    ghost function Contents(): (c: seq<Elem>)
      requires Valid()
      reads this, buffer
      ensures |c| <= buffer.Length
    {
      View(buffer[..], head, Word(tail - head))
    }

    ghost function State(): (m: Memory)
      requires Valid()
      reads this, buffer
      ensures Sound(m)
    {
      Memory(buffer[..], head, tail)
    }

    /** For the capacities the original constructor does not reject. */
    constructor (capacity: nat)
      requires PowerOfTwo(capacity) && 0 < capacity <= HALF
      ensures Valid() && fresh(buffer) && buffer.Length == capacity && Contents() == []
    {
      buffer := new Elem[capacity](_ => 0);
      head := 0;
      tail := 0;
    }

    /** Appends, unless the ring holds as many elements as it has cells. */
    method Enqueue(x: Elem) returns (ok: bool)
      requires Valid()
      modifies this`tail, buffer
      ensures Valid() && buffer == old(buffer) && head == old(head)
      ensures ok <==> |old(Contents())| < buffer.Length
      ensures Contents() == if ok then old(Contents()) + [x] else old(Contents())
      ensures ok <==> Accepts(old(State()))
      ensures State() == Enqueued(old(State()), x)
    {
      hide PowerOfTwo, Ring;
      var nextTail := Word(tail + 1);
      ghost var len := Word(tail - head);
      NextLength(head, tail, buffer.Length);
      if Word(nextTail - head) > buffer.Length {
        return false;
      }
      TailCell(head, tail, buffer.Length);
      ViewPush(buffer[..], head, len, x);
      ghost var before := buffer[..];
      buffer[Ring(tail, buffer.Length)] := x;
      assert buffer[..] == before[Ring(tail, buffer.Length) := x];
      tail := nextTail;
      return true;
    }

    /** Gives back the oldest element, or nothing exactly when there is none. */
    method Dequeue() returns (r: Option<Elem>)
      requires Valid()
      modifies this`head
      ensures Valid() && buffer == old(buffer) && tail == old(tail)
      ensures r == if old(Contents()) == [] then None else Some(old(Contents())[0])
      ensures Contents() == if old(Contents()) == [] then [] else old(Contents())[1..]
      ensures r.Some? ==> State() == Advanced(old(State())) && r.value == ReadAt(State(), old(head))
    {
      hide PowerOfTwo, Ring;
      if head == tail {
        return None;
      }
      ghost var len := Word(tail - head);
      PreviousLength(head, tail);
      ViewPop(buffer[..], head, len);
      ViewOfWord(buffer[..], head + 1, len - 1);
      var position := head;
      head := Word(head + 1);
      r := Some(buffer[Ring(position, buffer.Length)]);
      assert View(buffer[..], position, len)[0] == buffer[..][Ring(position + 0, buffer.Length)];
    }
  }

  lemma NextLength(head: int, tail: int, capacity: nat)
    requires 0 <= head < WORD && 0 <= tail < WORD && Word(tail - head) <= capacity <= HALF
    ensures Word(Word(tail + 1) - head) == Word(tail - head) + 1
    ensures 0 <= Word(tail + 1) < WORD
  {
  }

  lemma PreviousLength(head: int, tail: int)
    requires 0 <= head < WORD && 0 <= tail < WORD && head != tail
    ensures Word(tail - head) > 0 && Word(tail - Word(head + 1)) == Word(tail - head) - 1
    ensures 0 <= Word(head + 1) < WORD
  {
  }

  // ----- Why whole operations must be atomic ----------------------------------------------------

  /** The ring and its two counters, for the moments inside a `dequeue`. */
  datatype Memory = Memory(cells: seq<Elem>, head: int, tail: int)

  predicate Sound(m: Memory) {
    && PowerOfTwo(|m.cells|) && 0 < |m.cells| <= HALF
    && 0 <= m.head < WORD && 0 <= m.tail < WORD && Word(m.tail - m.head) <= |m.cells|
  }

  /** The test of `enqueue`. */
  predicate Accepts(m: Memory) {
    Word(Word(m.tail + 1) - m.head) <= |m.cells|
  }

  /** One whole `enqueue`. */
  function Enqueued(m: Memory, x: Elem): (after: Memory)
    requires |m.cells| > 0
    ensures |after.cells| == |m.cells| && after.head == m.head
  {
    if Accepts(m) then m.(cells := m.cells[Ring(m.tail, |m.cells|) := x], tail := Word(m.tail + 1)) else m
  }

  function EnqueuedAll(m: Memory, xs: seq<Elem>): (after: Memory)
    requires |m.cells| > 0
    ensures |after.cells| == |m.cells| && after.head == m.head
  {
    if xs == [] then m else Enqueued(EnqueuedAll(m, xs[..|xs| - 1]), xs[|xs| - 1])
  }

  /** The first half of `dequeue` on a non-empty queue: the head moves on. */
  function Advanced(m: Memory): Memory {
    m.(head := Word(m.head + 1))
  }

  /** The second half: the cell at the old head is read. */
  function ReadAt(m: Memory, position: int): Elem
    requires |m.cells| > 0
  {
    m.cells[Ring(position, |m.cells|)]
  }

  /** The (k + 1)-st enqueue after the head moved on from `head` writes the cell being read exactly
      when k is the room there was before. */
  lemma EnqueueHitsTheCellBeingReadIff(head: int, len: nat, k: nat, capacity: nat)
    requires PowerOfTwo(capacity) && 0 < len <= capacity <= HALF && 0 <= head < WORD && len + k <= capacity
    ensures capacity > 0 && (Ring(Word(head + len + k), capacity) == Ring(head, capacity) <==> k == capacity - len)
  {
    hide PowerOfTwo, Ring, Word;
    WordRing(head + len + k, capacity);
    if k == capacity - len { RingLap(head, capacity); } else { RingDistinct(head + len + k, head, capacity); }
  }

  /** One more element behind n others, in words. */
  lemma TailAfter(head: int, len: nat, n: nat, capacity: nat)
    requires len - 1 + n <= capacity <= HALF && 0 < len
    ensures Word(Word(head + len + n) + 1) == Word(head + len + n + 1)
    ensures Word(Word(Word(head + len + n) + 1) - Word(head + 1)) == len + n
  {
    hide Word;
    WordAdd(head + len + n, 1);
    WordDiff(head + len + n + 1, head + 1);
    WordSmall(len + n);
    assert head + len + n + 1 - (head + 1) == len + n;
  }

  lemma TailIs(m: Memory)
    requires Sound(m)
    ensures m.tail == Word(m.head + Word(m.tail - m.head))
  {
    var k := (m.tail - m.head) / WORD;
    assert m.head + Word(m.tail - m.head) == m.tail + (-k) * WORD;
    WordShift(m.tail, -k);
  }

  /** How many of n enqueues are accepted in the window. */
  function Taken(n: nat, room: nat): nat {
    if n <= room then n else room + 1
  }

  /** The tail and the cell being read, after any enqueues in the window. */
  lemma {:induction false} WindowAfter(m: Memory, xs: seq<Elem>)
    requires Sound(m) && m.head != m.tail
    ensures 0 < Word(m.tail - m.head) <= |m.cells|
    ensures var len := Word(m.tail - m.head);
      var room, after := |m.cells| - len, EnqueuedAll(Advanced(m), xs);
      && after.tail == Word(m.head + len + Taken(|xs|, room))
      && (Accepts(after) <==> |xs| <= room)
      && ReadAt(after, m.head) == (if |xs| <= room then ReadAt(m, m.head) else xs[room])
    decreases |xs|
  {
    WindowStart(m);
    assert ReadAt(Advanced(m), m.head) == ReadAt(m, m.head);
    hide Word, Ring, PowerOfTwo, ReadAt, Accepts, Enqueued;
    var len := Word(m.tail - m.head);
    var room, after := |m.cells| - len, EnqueuedAll(Advanced(m), xs);
    assert |after.cells| == |m.cells| && after.head == Word(m.head + 1);
    if xs == [] {
      assert m.head + len + 0 == m.head + len;
    } else {
      var front := xs[..|xs| - 1];
      WindowAfter(m, front);
      var before := EnqueuedAll(Advanced(m), front);
      assert before.head == Word(m.head + 1) && after == Enqueued(before, xs[|front|]);
      hide EnqueuedAll, Advanced;
      WindowStep(before, m.head, len, Taken(|front|, room), xs[|front|]);
    }
    WindowTest(after, m.head, len, Taken(|xs|, room));
  }

  /** After the head moved on from `head`, with n elements more than before. */
  predicate InWindow(m: Memory, head: int, len: nat, n: nat) {
    && PowerOfTwo(|m.cells|) && 0 < len <= |m.cells| <= HALF && len + n <= |m.cells| + 1
    && 0 <= head < WORD && m.head == Word(head + 1) && m.tail == Word(head + len + n)
  }

  lemma WindowTest(m: Memory, head: int, len: nat, n: nat)
    requires InWindow(m, head, len, n)
    ensures Accepts(m) <==> len + n <= |m.cells|
  {
    hide Word, PowerOfTwo;
    TailAfter(head, len, n, |m.cells|);
  }

  lemma WindowStep(m: Memory, head: int, len: nat, n: nat, x: Elem)
    requires InWindow(m, head, len, n)
    ensures Enqueued(m, x).tail == Word(head + len + if len + n <= |m.cells| then n + 1 else n)
    ensures ReadAt(Enqueued(m, x), head) == if len + n == |m.cells| then x else ReadAt(m, head)
  {
    hide Word, PowerOfTwo, Ring;
    WindowTest(m, head, len, n);
    TailAfter(head, len, n, |m.cells|);
    if len + n <= |m.cells| {
      EnqueueHitsTheCellBeingReadIff(head, len, n, |m.cells|);
      WordRing(head + len + n, |m.cells|);
      assert head + len + n + 1 == head + len + (n + 1);
    }
  }

  lemma WindowStart(m: Memory)
    requires Sound(m) && m.head != m.tail
    ensures 0 < Word(m.tail - m.head) <= |m.cells| && m.tail == Word(m.head + Word(m.tail - m.head))
  {
    PreviousLength(m.head, m.tail);
    TailIs(m);
  }

  /** Exactly when an unatomic `dequeue` is right. If the queue has room for k elements when the head moves
      on, enqueues in the window are accepted up to k + 1; the oldest element is read as long as at most
      k of them have come, and the (k + 1)-st one's element is read instead once it has. */
  lemma OldestIsReadIff(m: Memory, xs: seq<Elem>)
    requires Sound(m) && m.head != m.tail
    ensures var room := |m.cells| - Word(m.tail - m.head);
      && room >= 0
      && (forall k :: 0 <= k < |xs| ==> (Accepts(EnqueuedAll(Advanced(m), xs[..k])) <==> k <= room))
      && var oldest, read := ReadAt(m, m.head), ReadAt(EnqueuedAll(Advanced(m), xs), m.head);
         && oldest == View(m.cells, m.head, Word(m.tail - m.head))[0]
         && (read == oldest <==> |xs| <= room || xs[room] == oldest)
         && (|xs| > room ==> read == xs[room])
  {
    WindowStart(m);
    WindowAfter(m, xs);
    hide Word, Ring, PowerOfTwo;
    forall k | 0 <= k < |xs|
      ensures Accepts(EnqueuedAll(Advanced(m), xs[..k])) <==> k <= |m.cells| - Word(m.tail - m.head)
    {
      WindowAfter(m, xs[..k]);
    }
    assert m.head + 0 == m.head;
  }

  /** A queue that is not full: two cells, one element, and two enqueues before the read. */
  lemma TwoEnqueuesReplaceTheOldest(oldest: Elem, x: Elem, y: Elem)
    ensures var m := Memory([oldest, oldest], 0, 1);
      Sound(m) && ReadAt(EnqueuedAll(Advanced(m), [x, y]), 0) == y
  {
    var m := Memory([oldest, oldest], 0, 1);
    assert PowerOfTwo(2) by { assert PowerOfTwo(1); }
    OldestIsReadIff(m, [x, y]);
  }
}
