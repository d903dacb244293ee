/** The implicit producer's block index of concurrentqueue.h: a circular index from block base to
    block, written by one producer (which reuses freed slots, doubles the index when there is none, and
    takes blocks back when a bulk enqueue fails) and read by any number of consumers, as a system of
    atomic steps.

    Block number j holds elements 32j .. 32j+31; its base as stored is the word image of 32j. */
module BlockIndex {
  import opened Words

  const BLOCK_SIZE: int := 32
  const INVALID_BLOCK_BASE: int := 1
  const INITIAL_INDEX_SIZE: int := 32
  /** An index of this many pointers cannot be allocated in a 64-bit address space. */
  const MAX_INDEX_SIZE: int := 0x400_0000_0000_0000
  const NULL: int := -1
  /** A block pointer that has never been stored. */
  const UNSET: int := -2

  /** `value` is the number of the block the entry points to, or `NULL`. */
  datatype Entry = Entry(key: int, value: int)

  /** `index` holds entry numbers, so entries are shared between an index and its successor.
      `count` (history) is one more than the block number the tail slot stands for. */
  datatype Header = Header(tail: nat, index: seq<nat>, count: nat)

  datatype Producer =
    | Ready
    | Grow
    | StoreKey(slot: nat)
    | StoreTail(slot: nat)
    | GetBlock(slot: nat)
    | StoreValue(slot: nat)
    | Rewind(slot: nat)
    | ClearValue(slot: nat)
    | UndoClear(j: nat, end: nat)
    | UndoRewind(j: nat, end: nat)
    | ProducerAssertionFailed

  /** A consumer with elements `i .. end` claimed and not yet completed. `newest` (history) is the
      block number the tail stood for when it was loaded. */
  datatype Pc =
    | Idle
    | LoadHeader(i: nat, end: nat)
    | LoadTail(i: nat, end: nat, h: nat)
    | LoadKey(i: nat, end: nat, h: nat, tail: nat, newest: nat)
    | Check(i: nat, end: nat, h: nat, idx: nat)
    | LoadValue(i: nat, end: nat, h: nat, idx: nat)
    | Finish(i: nat, end: nat, h: nat, idx: nat, block: int)
    | StoreNull(i: nat, end: nat, h: nat, idx: nat, block: int)
    | LookupAssertionFailed

  /** The last header is the current one. `blocks` counts installed blocks and `done[j]` the completed
      elements of block j; `published` is the tail index and `claimed` the head index.
      `entryOf[j]` (history) is the entry given to block j. */
  datatype State = State(headers: seq<Header>, entries: seq<Entry>, producer: Producer,
                         published: nat, claimed: nat, blocks: nat, done: seq<nat>, pcs: seq<Pc>,
                         entryOf: seq<nat>)

  datatype Option = None | Some(value: nat)

  datatype Choice =
    | InsertBlock(canAlloc: bool)
    | ProducerGo(gotBlock: bool)
    | Undo
    | Publish(count: nat)
    | Claim(t: nat, count: nat)
    | Go(t: nat)

  function Base(j: int): int {
    Word(j * BLOCK_SIZE)
  }

  function FreshEntries(n: nat): (es: seq<Entry>)
    ensures |es| == n && forall i :: 0 <= i < n ==> es[i] == Entry(INVALID_BLOCK_BASE, UNSET)
  {
    seq(n, i => Entry(INVALID_BLOCK_BASE, UNSET))
  }

  function DoubledAt(index: seq<nat>, tail: nat, firstNew: nat, i: nat): nat
    requires |index| > 0
  {
    if i < |index| then index[Ring(tail + 1 + i, |index|)] else firstNew + i - |index|
  }

  /** The successor of an index: the old entries in order, oldest first, then as many fresh ones. */
  function DoubledIndex(index: seq<nat>, tail: nat, firstNew: nat): (index': seq<nat>)
    requires |index| > 0
    ensures |index'| == 2 * |index|
    ensures forall i :: 0 <= i < |index| ==> index'[i] == index[Ring(tail + 1 + i, |index|)]
    ensures forall i :: |index| <= i < 2 * |index| ==> index'[i] == firstNew + i - |index|
  {
    seq(2 * |index|, i requires 0 <= i < 2 * |index| => DoubledAt(index, tail, firstNew, i))
  }

  function Init(threads: nat): State {
    State([Header(INITIAL_INDEX_SIZE - 1, seq(INITIAL_INDEX_SIZE, i => i), 0)], FreshEntries(INITIAL_INDEX_SIZE),
          Ready, 0, 0, 0, [], seq(threads, i => Idle), [])
  }

  function Current(s: State): Header
    requires s.headers != []
  {
    s.headers[|s.headers| - 1]
  }

  function WithCurrent(s: State, h: Header): State
    requires s.headers != []
  {
    s.(headers := s.headers[|s.headers| - 1 := h])
  }

  predicate Free(e: Entry) {
    e.key == INVALID_BLOCK_BASE || e.value == NULL
  }

  predicate HasSlot(p: Producer) {
    p.StoreKey? || p.StoreTail? || p.GetBlock? || p.StoreValue? || p.Rewind? || p.ClearValue?
  }

  /** The memory a step reads is there. */
  predicate WellFormed(s: State) {
    && s.headers != []
    && (forall g, x :: 0 <= g < |s.headers| && 0 <= x < |s.headers[g].index| ==> s.headers[g].index[x] < |s.entries|)
    && (forall g :: 0 <= g < |s.headers| ==> s.headers[g].tail < |s.headers[g].index|)
    && (HasSlot(s.producer) ==> s.producer.slot < |Current(s).index|)
    && |s.done| == s.blocks
  }

  function Step(s: State, c: Choice): State {
    if !WellFormed(s) then s else
    match c
    case InsertBlock(canAlloc) => if s.producer.Ready? then StartInsert(s, canAlloc) else s
    case ProducerGo(gotBlock) => ProducerStep(s, gotBlock)
    case Undo => if s.producer.Ready? then StartUndo(s) else s
    case Publish(count) =>
      if s.producer.Ready? && s.published + count <= BLOCK_SIZE * s.blocks then
        s.(published := s.published + count)
      else s
    case Claim(t, count) =>
      if t < |s.pcs| && s.pcs[t].Idle? && count > 0 && s.claimed + count <= s.published then
        At(s.(claimed := s.claimed + count), t, LoadHeader(s.claimed, s.claimed + count))
      else s
    case Go(t) => if t < |s.pcs| then ConsumerStep(s, t) else s
  }

  function StartInsert(s: State, canAlloc: bool): State
    requires WellFormed(s)
  {
    var h := Current(s);
    var slot := Ring(h.tail + 1, |h.index|);
    if Free(s.entries[h.index[slot]]) then s.(producer := StoreKey(slot))
    else if canAlloc && 2 * |h.index| <= MAX_INDEX_SIZE then s.(producer := Grow)
    else s
  }

  /** The first block without a published element. */
  function FirstUnused(s: State): nat {
    (s.published + BLOCK_SIZE - 1) / BLOCK_SIZE
  }

  /** A bulk enqueue that cannot get all its blocks, or whose elements throw, gives back those it has. */
  function StartUndo(s: State): State
    requires WellFormed(s)
  {
    var first := FirstUnused(s);
    if first < s.blocks then
      s.(blocks := first, done := s.done[..first], producer := UndoClear(first, s.blocks))
    else s
  }

  /** The producer's own look-up of block j, with its assertions. */
  function UndoSlot(s: State, j: nat): Option
    requires WellFormed(s)
  {
    var h := Current(s);
    var tailKey := s.entries[h.index[h.tail]].key;
    var idx := SlotFromKey(h.tail, tailKey, Base(j), |h.index|);
    var e := s.entries[h.index[idx]];
    if tailKey != INVALID_BLOCK_BASE && e.key == Base(j) && e.value != NULL then Some(idx) else None
  }

  function ProducerStep(s: State, gotBlock: bool): State
    requires WellFormed(s)
  {
    var h := Current(s);
    var c := |h.index|;
    match s.producer
    case Grow =>
      var s' := s.(headers := s.headers + [Header(c - 1, DoubledIndex(h.index, h.tail, |s.entries|), h.count)],
                   entries := s.entries + FreshEntries(c));
      s'.(producer := if s'.entries[Current(s').index[c]].key == INVALID_BLOCK_BASE then StoreKey(c)
                      else ProducerAssertionFailed)
    case StoreKey(slot) =>
      var e := h.index[slot];
      s.(entries := s.entries[e := s.entries[e].(key := Base(s.blocks))], producer := StoreTail(slot),
         entryOf := if |s.entryOf| == s.blocks then s.entryOf + [e] else s.entryOf)
    case StoreTail(slot) =>
      WithCurrent(s, h.(tail := slot, count := s.blocks + 1)).(producer := GetBlock(slot))
    case GetBlock(slot) => s.(producer := if gotBlock then StoreValue(slot) else Rewind(slot))
    case Rewind(slot) =>
      WithCurrent(s, h.(tail := Ring(h.tail - 1, c), count := s.blocks)).(producer := ClearValue(slot))
    case ClearValue(slot) =>
      var e := h.index[slot];
      s.(entries := s.entries[e := s.entries[e].(value := NULL)], producer := Ready)
    case StoreValue(slot) =>
      var e := h.index[slot];
      s.(entries := s.entries[e := s.entries[e].(value := s.blocks)], producer := Ready,
         blocks := s.blocks + 1, done := s.done + [0])
    case UndoClear(j, end) =>
      var found := UndoSlot(s, j);
      if found.Some? && found.value < c then
        var e := h.index[found.value];
        s.(entries := s.entries[e := s.entries[e].(value := NULL)], producer := UndoRewind(j, end))
      else s.(producer := ProducerAssertionFailed)
    case UndoRewind(j, end) =>
      WithCurrent(s, h.(tail := Ring(h.tail - 1, c), count := if h.count > 0 then h.count - 1 else 0))
        .(producer := if j + 1 < end then UndoClear(j + 1, end) else Ready)
    case _ => s
  }

  function At(s: State, t: nat, p: Pc): State
    requires t < |s.pcs|
  {
    s.(pcs := s.pcs[t := p])
  }

  /** The slot computed from the tail slot, the key stored there and the wanted base: the difference
      is read as a signed word, divided, and added back modulo the capacity. */
  function SlotFromKey(tail: nat, key: int, base: int, capacity: nat): nat
    requires capacity > 0
  {
    var diff := Signed(Word(base - key));
    var offset := if diff >= 0 then diff / BLOCK_SIZE else -((-diff) / BLOCK_SIZE);
    Ring(Word(tail + Word(offset)), capacity)
  }

  /** After completing up to `i`: the next block sits one slot further in the same index. */
  function Advance(s: State, i: nat, end: nat, h: nat, idx: nat): Pc
    requires h < |s.headers| && |s.headers[h].index| > 0
  {
    if i >= end then Idle else LoadValue(i, end, h, Ring(idx + 1, |s.headers[h].index|))
  }

  function EndOfBlock(i: nat): nat {
    BLOCK_SIZE * (i / BLOCK_SIZE + 1)
  }

  function Min(a: int, b: int): int {
    if a < b then a else b
  }

  /** The slots of header h, none if there is no such header. */
  function Slots(s: State, h: nat): seq<nat> {
    if h < |s.headers| then s.headers[h].index else []
  }

  function ConsumerStep(s: State, t: nat): State
    requires WellFormed(s) && t < |s.pcs|
  {
    match s.pcs[t]
    case Idle => s
    case LookupAssertionFailed => s
    case LoadHeader(i, end) => At(s, t, LoadTail(i, end, |s.headers| - 1))
    case LoadTail(i, end, h) =>
      if h < |s.headers| && s.headers[h].count > 0 then
        At(s, t, LoadKey(i, end, h, s.headers[h].tail, s.headers[h].count - 1))
      else s
    case LoadKey(i, end, h, tail, newest) =>
      if tail < |Slots(s, h)| then At(s, t, AfterKey(i, end, h, tail, s.entries[Slots(s, h)[tail]].key, |Slots(s, h)|))
      else s
    case Check(i, end, h, idx) =>
      if idx < |Slots(s, h)| then
        var e := s.entries[Slots(s, h)[idx]];
        At(s, t, if e.key == Base(i / BLOCK_SIZE) && e.value != NULL then LoadValue(i, end, h, idx)
                 else LookupAssertionFailed)
      else s
    case LoadValue(i, end, h, idx) =>
      if idx < |Slots(s, h)| then At(s, t, Finish(i, end, h, idx, s.entries[Slots(s, h)[idx]].value)) else s
    case Finish(i, end, h, idx, block) =>
      if 0 <= block < |s.done| && idx < |Slots(s, h)| && i <= end then FinishBlock(s, t, i, end, h, idx, block) else s
    case StoreNull(i, end, h, idx, block) =>
      if idx < |Slots(s, h)| then
        var e := Slots(s, h)[idx];
        At(s.(entries := s.entries[e := s.entries[e].(value := NULL)]), t, Advance(s, i, end, h, idx))
      else s
  }

  function AfterKey(i: nat, end: nat, h: nat, tail: nat, key: int, capacity: nat): Pc
    requires capacity > 0
  {
    if key == INVALID_BLOCK_BASE then LookupAssertionFailed
    else Check(i, end, h, SlotFromKey(tail, key, Base(i / BLOCK_SIZE), capacity))
  }

  /** Completes the claimed elements that lie in `block`; whoever completes its last one removes it. */
  function FinishBlock(s: State, t: nat, i: nat, end: nat, h: nat, idx: nat, block: nat): State
    requires t < |s.pcs| && block < |s.done| && idx < |Slots(s, h)| && i <= end
  {
    var next := Min(end, EndOfBlock(i));
    var total := s.done[block] + next - i;
    if total > BLOCK_SIZE then At(s, t, LookupAssertionFailed)
    else
      At(s.(done := s.done[block := total]), t,
         if total == BLOCK_SIZE then StoreNull(next, end, h, idx, block) else Advance(s, next, end, h, idx))
  }

  function Run(s: State, schedule: seq<Choice>): State
    decreases |schedule|
  {
    if schedule == [] then s else Step(Run(s, schedule[..|schedule| - 1]), schedule[|schedule| - 1])
  }

  // ----- Elements in flight -------------------------------------------------------------------

  function Max(a: int, b: int): int {
    if a < b then b else a
  }

  /** How many of the elements `i .. end` lie in block j. */
  function Overlap(i: int, end: int, j: nat): nat {
    Max(0, Min(end, BLOCK_SIZE * j + BLOCK_SIZE) - Max(i, BLOCK_SIZE * j))
  }

  /** Elements of block j at or above index `claimed`. */
  function Unclaimed(claimed: int, j: nat): nat {
    Max(0, Min(BLOCK_SIZE, BLOCK_SIZE * j + BLOCK_SIZE - claimed))
  }

  predicate HasRange(p: Pc) {
    !p.Idle? && !p.LookupAssertionFailed?
  }

  datatype Kind = InFlight | Nulling

  function Weight(k: Kind, p: Pc, j: nat): nat {
    match k
    case InFlight => if HasRange(p) then Overlap(p.i, p.end, j) else 0
    case Nulling => if p.StoreNull? && p.block == j then 1 else 0
  }

  function Total(k: Kind, pcs: seq<Pc>, j: nat): nat {
    if pcs == [] then 0 else Weight(k, pcs[|pcs| - 1], j) + Total(k, pcs[..|pcs| - 1], j)
  }

  lemma {:induction false} TotalUpdate(k: Kind, pcs: seq<Pc>, t: nat, p: Pc, j: nat)
    requires t < |pcs|
    ensures Total(k, pcs[t := p], j) == Total(k, pcs, j) - Weight(k, pcs[t], j) + Weight(k, p, j)
    ensures Weight(k, pcs[t], j) <= Total(k, pcs, j)
  {
    hide Weight;
    var m := |pcs| - 1;
    if t == m {
      assert pcs[t := p][..m] == pcs[..m];
    } else {
      assert pcs[t := p][..m] == pcs[..m][t := p];
      TotalUpdate(k, pcs[..m], t, p, j);
    }
  }

  lemma {:induction false} TotalTwo(k: Kind, pcs: seq<Pc>, t: nat, u: nat, j: nat)
    requires t < u < |pcs|
    ensures Weight(k, pcs[t], j) + Weight(k, pcs[u], j) <= Total(k, pcs, j)
  {
    hide Weight;
    if u < |pcs| - 1 { TotalTwo(k, pcs[..|pcs| - 1], t, u, j); }
    else { TotalUpdate(k, pcs[..|pcs| - 1], t, Idle, j); }
  }

  // ----- The invariant ------------------------------------------------------------------------

  /** Block j is installed in its entry and not yet removed. */
  predicate Present(s: State, j: nat) {
    j < s.blocks && j < |s.entryOf| && s.entryOf[j] < |s.entries| && s.entries[s.entryOf[j]].value == j
  }

  /** Block j is present, or its entry waits for the block to be installed (again). */
  predicate Live(s: State, j: nat) {
    j < |s.entryOf| && (s.blocks <= j || Present(s, j))
  }

  /** Every entry from a live block on still has its own block's key, and they are all different. */
  ghost predicate EntriesKept(s: State) {
    && (forall m :: 0 <= m < |s.entryOf| ==> s.entryOf[m] < |s.entries|)
    && (forall j: nat, m: nat :: Live(s, j) && j <= m < |s.entryOf| ==> s.entries[s.entryOf[m]].key == Base(m))
    && (forall j: nat, m: nat, m': nat :: Live(s, j) && j <= m < m' < |s.entryOf| ==> s.entryOf[m] != s.entryOf[m'])
  }

  /** One past the newest block number that header g can be asked for. */
  function Limit(s: State, g: nat): nat
    requires g < |s.headers|
  {
    if g == |s.headers| - 1 then |s.entryOf| else s.headers[g].count
  }

  function SlotOf(h: Header, m: int): nat
    requires |h.index| > 0
  {
    Ring(h.tail + m - (h.count - 1), |h.index|)
  }

  predicate Shape(s: State, g: nat)
    requires g < |s.headers|
  {
    var h := s.headers[g];
    && 2 <= |h.index| <= MAX_INDEX_SIZE && PowerOfTwo(|h.index|)
    && h.tail < |h.index| && h.count <= Limit(s, g) <= |s.entryOf|
    && (forall x :: 0 <= x < |h.index| ==> h.index[x] < |s.entries|)
    && (forall x, y :: 0 <= x < y < |h.index| ==> h.index[x] != h.index[y])
  }

  /** Header g has room back to block j, and its slot for block m holds that block's entry. */
  predicate LeadsTo(s: State, g: nat, j: nat, m: nat)
    requires g < |s.headers| && |s.headers[g].index| > 0
  {
    var h := s.headers[g];
    Limit(s, g) - j <= |h.index| && m < |s.entryOf| && h.index[SlotOf(h, m)] == s.entryOf[m]
  }

  /** From any live block up to its limit, the header's slots lead to the blocks' entries. */
  ghost predicate Leads(s: State, g: nat)
    requires g < |s.headers| && |s.headers[g].index| > 0
  {
    forall j: nat, m: nat :: Live(s, j) && j <= m < Limit(s, g) ==> LeadsTo(s, g, j, m)
  }

  ghost predicate HeaderInv(s: State, g: nat)
    requires g < |s.headers|
  {
    Shape(s, g) && Leads(s, g)
  }

  /** The entries of blocks `from .. to` hold no block. */
  predicate Cleared(s: State, from: nat, to: nat) {
    forall m :: from <= m < to && m < |s.entryOf| ==>
      s.entryOf[m] < |s.entries| && s.entries[s.entryOf[m]].value == NULL
  }

  /** The entries of blocks `from .. to` hold their blocks. */
  predicate Filled(s: State, from: nat, to: nat) {
    forall m :: from <= m < to && m < |s.entryOf| ==>
      s.entryOf[m] < |s.entries| && s.entries[s.entryOf[m]].value == m
  }

  /** Blocks whose insertion was given up keep their entries, cleared, for the next attempt. While an
      undo is at block j, the tail has been moved back once for every block cleared. */
  predicate ProducerInv(s: State)
    requires s.headers != [] && Current(s).tail < |Current(s).index|
  {
    var h := Current(s);
    var n := s.blocks;
    var last := |s.entryOf|;
    match s.producer
    case Ready => h.count == n && Cleared(s, n, last)
    case Grow => h.count == n == last
    case StoreKey(slot) =>
      h.count == n && slot == Ring(h.tail + 1, |h.index|) && Cleared(s, n, last)
      && h.index[slot] < |s.entries| && Free(s.entries[h.index[slot]])
    case StoreTail(slot) =>
      h.count == n && slot == Ring(h.tail + 1, |h.index|) && n < last && Cleared(s, n + 1, last)
    case ClearValue(slot) =>
      h.count == n && slot == Ring(h.tail + 1, |h.index|) && n < last && Cleared(s, n + 1, last)
    case UndoClear(j, end) =>
      n <= j < end <= last && h.count == n + end - j
      && Cleared(s, n, j) && Filled(s, j, end) && Cleared(s, end, last)
    case UndoRewind(j, end) =>
      n <= j < end <= last && h.count == n + end - j
      && Cleared(s, n, j + 1) && Filled(s, j + 1, end) && Cleared(s, end, last)
    case ProducerAssertionFailed => false
    case _ => h.count == n + 1 && s.producer.slot == h.tail && n < last && Cleared(s, n + 1, last)
  }

  /** Every element of an installed block is completed, in flight or unclaimed; the block stays
      until the one thread that completed it removes it. */
  predicate BlockInv(s: State, j: nat)
    requires j < s.blocks == |s.done|
  {
    && s.done[j] + Total(InFlight, s.pcs, j) + Unclaimed(s.claimed, j) == BLOCK_SIZE
    && (s.done[j] < BLOCK_SIZE ==> Present(s, j))
    && Total(Nulling, s.pcs, j) == (if s.done[j] == BLOCK_SIZE && Present(s, j) then 1 else 0)
  }

  /** Slot `idx` of header h stands for block b, and the slots after it for the following blocks. */
  predicate Aligned(s: State, h: nat, idx: int, b: int, last: int) {
    && h < |s.headers| && |s.headers[h].index| > 0 && 0 <= b
    && last < |s.entryOf| && last < s.blocks && last - b < |s.headers[h].index|
    && forall x :: b <= x <= last ==> s.headers[h].index[Ring(idx + x - b, |s.headers[h].index|)] == s.entryOf[x]
  }

  predicate PcInv(s: State, p: Pc) {
    match p
    case Idle => true
    case LookupAssertionFailed => false
    case LoadHeader(i, end) => i < end <= s.claimed
    case LoadTail(i, end, h) =>
      i < end <= s.claimed && h < |s.headers| && (end - 1) / BLOCK_SIZE < s.headers[h].count
    case LoadKey(i, end, h, tail, newest) =>
      && i < end <= s.claimed && (end - 1) / BLOCK_SIZE <= newest < |s.entryOf|
      && h < |s.headers| && tail < |s.headers[h].index| && newest - i / BLOCK_SIZE < |s.headers[h].index|
      && (forall x :: i / BLOCK_SIZE <= x <= newest ==>
            s.headers[h].index[Ring(tail + x - newest, |s.headers[h].index|)] == s.entryOf[x])
    case Check(i, end, h, idx) =>
      i < end <= s.claimed && h < |s.headers| && idx < |s.headers[h].index|
      && Aligned(s, h, idx, i / BLOCK_SIZE, (end - 1) / BLOCK_SIZE)
    case LoadValue(i, end, h, idx) =>
      i < end <= s.claimed && h < |s.headers| && idx < |s.headers[h].index|
      && Aligned(s, h, idx, i / BLOCK_SIZE, (end - 1) / BLOCK_SIZE)
    case Finish(i, end, h, idx, block) =>
      i < end <= s.claimed && h < |s.headers| && idx < |s.headers[h].index|
      && Aligned(s, h, idx, i / BLOCK_SIZE, (end - 1) / BLOCK_SIZE) && block == i / BLOCK_SIZE
    case StoreNull(i, end, h, idx, block) =>
      && 0 < i <= end <= s.claimed && h < |s.headers| && idx < |s.headers[h].index|
      && block == (i - 1) / BLOCK_SIZE && 0 <= block < s.blocks == |s.done| && s.done[block] == BLOCK_SIZE
      && (i < end ==> i % BLOCK_SIZE == 0)
      && Aligned(s, h, idx, block, (end - 1) / BLOCK_SIZE)
  }

  predicate Counters(s: State) {
    s.claimed <= s.published <= BLOCK_SIZE * s.blocks && |s.done| == s.blocks <= |s.entryOf|
  }

  ghost predicate Inv(s: State) {
    && s.headers != []
    && Counters(s)
    && (forall g :: 0 <= g < |s.headers| ==> HeaderInv(s, g))
    && HeaderInv(s, |s.headers| - 1)
    && EntriesKept(s)
    && ProducerInv(s)
    && (forall j :: 0 <= j < s.blocks ==> BlockInv(s, j))
    && (forall t :: 0 <= t < |s.pcs| ==> PcInv(s, s.pcs[t]))
  }

  // ----- Facts about one state ----------------------------------------------------------------

  /** Block bases are multiples of the block size, so none is the invalid mark. */
  lemma BaseIsValid(j: int)
    ensures Base(j) != INVALID_BLOCK_BASE
  {
    WordMod(j * BLOCK_SIZE, BLOCK_SIZE);
  }

  lemma PresentIsNotFree(s: State, j: nat)
    requires EntriesKept(s) && Present(s, j)
    ensures !Free(s.entries[s.entryOf[j]])
  {
    assert Live(s, j);
    BaseIsValid(j);
  }

  /** The slot after the tail is one of the index's slots for blocks only at the far end. */
  lemma NextSlot(h: Header, m: int)
    requires |h.index| > 0 && h.count - |h.index| <= m < h.count
    ensures SlotOf(h, m) == Ring(h.tail + 1, |h.index|) <==> m == h.count - |h.index|
  {
    var c := |h.index|;
    hide Ring;
    if m == h.count - c {
      RingLap(h.tail + 1 - c, c);
    } else {
      RingDistinct(h.tail + 1, h.tail + 1 + m - h.count, c);
    }
  }

  /** While a present block has room behind it, the entry after the tail is nobody's. */
  lemma FreeSlotIsNobodys(s: State, j: nat, m: nat)
    requires s.headers != [] && Shape(s, |s.headers| - 1) && Leads(s, |s.headers| - 1) && EntriesKept(s)
    requires var h := Current(s); h.count == |s.entryOf| && Free(s.entries[h.index[Ring(h.tail + 1, |h.index|)]])
    requires Present(s, j) && j <= m < |s.entryOf|
    ensures s.entryOf[m] != Current(s).index[Ring(Current(s).tail + 1, |Current(s).index|)]
    ensures |s.entryOf| + 1 - j <= |Current(s).index|
  {
    hide Ring;
    var h := Current(s);
    var c := |h.index|;
    PresentIsNotFree(s, j);
    var g := |s.headers| - 1;
    assert Live(s, j);
    assert LeadsTo(s, g, j, j) && LeadsTo(s, g, j, m);
    NextSlot(h, j);
    NextSlot(h, m);
  }

  lemma InFlightIsPresent(s: State, t: nat)
    requires Inv(s) && t < |s.pcs| && HasRange(s.pcs[t]) && s.pcs[t].i < s.pcs[t].end <= s.claimed
    ensures var b := s.pcs[t].i / BLOCK_SIZE; b < s.blocks && Present(s, b) && s.done[b] < BLOCK_SIZE
    ensures var b := s.pcs[t].i / BLOCK_SIZE;
      s.done[b] + Min(s.pcs[t].end, EndOfBlock(s.pcs[t].i)) - s.pcs[t].i <= BLOCK_SIZE
  {
    hide HeaderInv, EntriesKept, ProducerInv, PcInv, Present;
    var b := s.pcs[t].i / BLOCK_SIZE;
    assert b < s.blocks;
    assert BlockInv(s, b);
    TotalUpdate(InFlight, s.pcs, t, Idle, b);
  }

  lemma KeyDistance(newest: int, b: int)
    requires -MAX_INDEX_SIZE < newest - b < MAX_INDEX_SIZE
    ensures Signed(Word(Base(b) - Base(newest))) == (b - newest) * BLOCK_SIZE
  {
    WordDiff(b * BLOCK_SIZE, newest * BLOCK_SIZE);
    SignedOfWord((b - newest) * BLOCK_SIZE);
  }

  /** The signed division gives the distance in blocks. */
  lemma KeyOffset(tail: nat, newest: int, b: int, capacity: nat)
    requires 0 < capacity <= MAX_INDEX_SIZE && newest - b < capacity && b - newest < capacity
    ensures SlotFromKey(tail, Base(newest), Base(b), capacity) == Ring(Word(tail + Word(b - newest)), capacity)
  {
    KeyDistance(newest, b);
    hide Word, Signed, Base, Ring;
  }

  /** The computed slot is the tail slot moved by the distance in blocks, in either direction. */
  lemma SlotFromKeyExact(tail: nat, newest: int, b: int, capacity: nat)
    requires PowerOfTwo(capacity) && 2 <= capacity <= MAX_INDEX_SIZE
    requires newest - b < capacity && b - newest < capacity
    ensures SlotFromKey(tail, Base(newest), Base(b), capacity) == Ring(tail + b - newest, capacity)
  {
    var back := b - newest;
    KeyOffset(tail, newest, b, capacity);
    hide PowerOfTwo, Word, Base, Ring, SlotFromKey;
    WordRing(tail + Word(back), capacity);
    WordRing(back, capacity);
    RingAdd(back, tail, capacity);
    RingAdd(Word(back), tail, capacity);
  }

  // ----- Steps that leave the index alone -------------------------------------------------------

  /** A header that is not written goes on leading to the blocks that are still present. */
  lemma HeaderCarries(s: State, s': State, g: nat)
    requires g < |s.headers| && g < |s'.headers| && HeaderInv(s, g)
    requires s'.headers[g] == s.headers[g] && Limit(s', g) == Limit(s, g)
    requires |s.entries| <= |s'.entries|
    requires |s.entryOf| <= |s'.entryOf| && s'.entryOf[..|s.entryOf|] == s.entryOf
    requires forall j: nat :: j < Limit(s, g) && Live(s', j) ==> Live(s, j)
    ensures HeaderInv(s', g)
  {
    hide Ring, Live;
    forall j: nat, m: nat | Live(s', j) && j <= m < Limit(s', g) ensures LeadsTo(s', g, j, m) {
      assert Live(s, j) && LeadsTo(s, g, j, m);
      assert s'.entryOf[m] == s'.entryOf[..|s.entryOf|][m];
    }
  }

  /** The part of the invariant about headers, entries and the producer depends on nothing else. */
  lemma IndexSame(s: State, s': State)
    requires Inv(s)
    requires s'.headers == s.headers && s'.entries == s.entries && s'.entryOf == s.entryOf
    requires s'.producer == s.producer && s'.blocks == s.blocks
    ensures forall j: nat :: Present(s', j) == Present(s, j)
    ensures (forall g :: 0 <= g < |s'.headers| ==> HeaderInv(s', g)) && EntriesKept(s') && ProducerInv(s')
  {
    hide Ring;
    assert forall j: nat :: Present(s', j) == Present(s, j) && Live(s', j) == Live(s, j);
    hide Present, Live;
    forall g | 0 <= g < |s'.headers| ensures HeaderInv(s', g) {
      assert HeaderInv(s, g);
      HeaderCarries(s, s', g);
    }
  }

  lemma LocalKeeps(s: State, t: nat, p: Pc)
    requires Inv(s) && t < |s.pcs| && PcInv(s, p)
    requires forall k, j :: Weight(k, p, j) == Weight(k, s.pcs[t], j)
    ensures Inv(At(s, t, p))
  {
    hide Ring, Weight, Total, Overlap, Unclaimed, Shape, Leads, EntriesKept, ProducerInv, Aligned;
    var s' := At(s, t, p);
    IndexSame(s, s');
    forall j | 0 <= j < s.blocks ensures BlockInv(s', j) {
      assert BlockInv(s, j);
      TotalUpdate(InFlight, s.pcs, t, p, j);
      TotalUpdate(Nulling, s.pcs, t, p, j);
    }
    forall u | 0 <= u < |s'.pcs| ensures PcInv(s', s'.pcs[u]) {
      if u != t { PcStable(s, s', s.pcs[u]); } else { PcStable(s, s', p); }
    }
  }

  /** What a consumer knows survives growth of the index, of the history and of the counters. */
  lemma PcStable(s: State, s': State, p: Pc)
    requires PcInv(s, p) && Counters(s) && Counters(s')
    requires |s.headers| <= |s'.headers|
    requires forall g :: 0 <= g < |s.headers| ==>
      && s'.headers[g].index == s.headers[g].index
      && (s'.headers[g].count >= s.headers[g].count || s.claimed <= BLOCK_SIZE * s'.headers[g].count)
    requires |s.entryOf| <= |s'.entryOf| && s'.entryOf[..|s.entryOf|] == s.entryOf
    requires s.claimed <= s'.claimed
    requires p.StoreNull? ==> p.block < |s'.done| && s'.done[p.block] == BLOCK_SIZE
    ensures PcInv(s', p)
  {
    hide Ring;
    assert forall x :: 0 <= x < |s.entryOf| ==> s'.entryOf[x] == s'.entryOf[..|s.entryOf|][x];
  }

  lemma ClaimKeeps(s: State, t: nat, count: nat)
    requires Inv(s) && t < |s.pcs| && s.pcs[t].Idle? && count > 0 && s.claimed + count <= s.published
    ensures Inv(At(s.(claimed := s.claimed + count), t, LoadHeader(s.claimed, s.claimed + count)))
  {
    hide Ring, Total, Shape, Leads, EntriesKept, ProducerInv, Aligned, Present;
    var p := LoadHeader(s.claimed, s.claimed + count);
    var s' := At(s.(claimed := s.claimed + count), t, p);
    IndexSame(s, s');
    forall j | 0 <= j < s.blocks ensures BlockInv(s', j) {
      assert BlockInv(s, j);
      TotalUpdate(InFlight, s.pcs, t, p, j);
      TotalUpdate(Nulling, s.pcs, t, p, j);
    }
    forall u | 0 <= u < |s'.pcs| ensures PcInv(s', s'.pcs[u]) {
      if u != t { PcStable(s, s', s.pcs[u]); }
    }
  }

  // ----- The lookup ---------------------------------------------------------------------------

  /** Loading the tail: from the claimed element's block on, the slots up to the tail are right. */
  lemma TailLoaded(s: State, t: nat)
    requires Inv(s) && t < |s.pcs| && s.pcs[t].LoadTail?
    ensures var p := s.pcs[t];
      && p.h < |s.headers| && s.headers[p.h].count > 0
      && PcInv(s, LoadKey(p.i, p.end, p.h, s.headers[p.h].tail, s.headers[p.h].count - 1))
  {
    hide Ring, EntriesKept, ProducerInv, BlockInv;
    var p := s.pcs[t];
    assert PcInv(s, p);
    InFlightIsPresent(s, t);
    var h := s.headers[p.h];
    var b := p.i / BLOCK_SIZE;
    assert Live(s, b);
    hide Present, Live;
    assert HeaderInv(s, p.h);
    forall x | b <= x <= h.count - 1
      ensures h.index[Ring(h.tail + x - (h.count - 1), |h.index|)] == s.entryOf[x]
    {
      assert LeadsTo(s, p.h, b, x);
    }
    assert LeadsTo(s, p.h, b, b);
  }

  lemma Realign(tail: int, newest: int, b: int, x: int, c: nat)
    requires c > 0
    ensures Ring(Ring(tail + b - newest, c) + x - b, c) == Ring(tail + x - newest, c)
  {
    RingAdd(tail + b - newest, x - b, c);
  }

  /** The tail slot still carries the key of the block the tail stood for. */
  lemma TailKey(s: State, t: nat)
    requires Inv(s) && t < |s.pcs| && s.pcs[t].LoadKey?
    ensures var p := s.pcs[t];
      && PcInv(s, p) && s.headers[p.h].index[p.tail] == s.entryOf[p.newest] < |s.entries|
      && s.entries[s.entryOf[p.newest]].key == Base(p.newest)
  {
    hide ProducerInv, BlockInv, Leads, Shape, Base, Total, Ring;
    var p := s.pcs[t];
    assert PcInv(s, p);
    InFlightIsPresent(s, t);
    assert Live(s, p.i / BLOCK_SIZE);
    hide Present, Live;
    RingSmall(p.tail, |s.headers[p.h].index|);
    assert p.newest >= p.i / BLOCK_SIZE;
    var index := s.headers[p.h].index;
    assert index[Ring(p.tail + p.newest - p.newest, |index|)] == s.entryOf[p.newest];
  }

  /** Reading the tail's key: the computed slot is the claimed element's. */
  lemma KeyLoaded(s: State, t: nat)
    requires Inv(s) && t < |s.pcs| && s.pcs[t].LoadKey?
    ensures var p := s.pcs[t];
      && p.tail < |Slots(s, p.h)| && Slots(s, p.h)[p.tail] < |s.entries|
      && PcInv(s, AfterKey(p.i, p.end, p.h, p.tail, s.entries[Slots(s, p.h)[p.tail]].key, |Slots(s, p.h)|))
  {
    hide ProducerInv, BlockInv, Leads, EntriesKept, Present, Base, SlotFromKey;
    TailKey(s, t);
    var p := s.pcs[t];
    BaseIsValid(p.newest);
    assert HeaderInv(s, p.h);
    hide Inv;
    SlotFromKeyExact(p.tail, p.newest, p.i / BLOCK_SIZE, |s.headers[p.h].index|);
    hide Shape, PowerOfTwo, Ring;
    KeyAligned(s, p, Ring(p.tail + p.i / BLOCK_SIZE - p.newest, |s.headers[p.h].index|));
  }

  lemma KeyAligned(s: State, p: Pc, idx: nat)
    requires p.LoadKey? && PcInv(s, p) && Counters(s)
    requires idx == Ring(p.tail + p.i / BLOCK_SIZE - p.newest, |s.headers[p.h].index|)
    ensures PcInv(s, Check(p.i, p.end, p.h, idx))
  {
    hide Ring;
    var b := p.i / BLOCK_SIZE;
    var index := s.headers[p.h].index;
    forall x | b <= x <= (p.end - 1) / BLOCK_SIZE
      ensures index[Ring(idx + x - b, |index|)] == s.entryOf[x]
    {
      Realign(p.tail, p.newest, b, x, |index|);
      assert index[Ring(p.tail + x - p.newest, |index|)] == s.entryOf[x];
    }
  }

  /** The slot found holds the claimed block's own key and the block itself. */
  lemma SlotIsRight(s: State, t: nat)
    requires Inv(s) && t < |s.pcs| && (s.pcs[t].Check? || s.pcs[t].LoadValue?)
    ensures var p := s.pcs[t];
      && p.idx < |Slots(s, p.h)| && Slots(s, p.h)[p.idx] < |s.entries|
      && s.entries[Slots(s, p.h)[p.idx]] == Entry(Base(p.i / BLOCK_SIZE), p.i / BLOCK_SIZE)
  {
    hide Ring, ProducerInv, BlockInv, Leads, Shape, Base, Total;
    var p := s.pcs[t];
    assert PcInv(s, p);
    InFlightIsPresent(s, t);
    var b := p.i / BLOCK_SIZE;
    assert Live(s, b);
    AlignedHere(s, p.h, p.idx, b, (p.end - 1) / BLOCK_SIZE);
  }

  lemma AlignedHere(s: State, h: nat, idx: nat, b: int, last: int)
    requires Aligned(s, h, idx, b, last) && b <= last && idx < |s.headers[h].index|
    ensures s.headers[h].index[idx] == s.entryOf[b]
  {
    hide Ring;
    var index := s.headers[h].index;
    RingSmall(idx, |index|);
    assert index[Ring(idx + b - b, |index|)] == s.entryOf[b];
  }

  lemma LookupKeeps(s: State, t: nat)
    requires Inv(s) && WellFormed(s) && t < |s.pcs|
    requires s.pcs[t].LoadHeader? || s.pcs[t].LoadTail? || s.pcs[t].LoadKey? || s.pcs[t].Check? || s.pcs[t].LoadValue?
    ensures Inv(ConsumerStep(s, t))
  {
    hide Ring, HeaderInv, EntriesKept, ProducerInv, BlockInv, Present, Base, SlotFromKey, WellFormed;
    var p := s.pcs[t];
    assert PcInv(s, p);
    match p {
      case LoadHeader(i, end) => HeaderLoaded(s, t);
      case LoadTail(_, _, _) => TailLoaded(s, t);
      case LoadKey(_, _, _, _, _) => KeyLoaded(s, t);
      case Check(_, _, _, _) => SlotIsRight(s, t);
      case LoadValue(_, _, _, _) => SlotIsRight(s, t);
    }
    hide Inv, PcInv;
    LocalKeeps(s, t, ConsumerStep(s, t).pcs[t]);
  }

  /** The current index already counts every block with a published element. */
  lemma HeaderLoaded(s: State, t: nat)
    requires Inv(s) && t < |s.pcs| && s.pcs[t].LoadHeader?
    ensures PcInv(s, LoadTail(s.pcs[t].i, s.pcs[t].end, |s.headers| - 1))
  {
    hide Leads, EntriesKept, BlockInv, Shape;
    assert PcInv(s, s.pcs[t]);
    assert Current(s).count >= s.blocks;
  }

  // ----- Completing elements and removing blocks ----------------------------------------------

  /** Moving on to the next block moves on to the next slot. */
  lemma AdvanceKeeps(s: State, i: nat, end: nat, h: nat, idx: nat, b: nat)
    requires Aligned(s, h, idx, b, (end - 1) / BLOCK_SIZE) && Counters(s) && i <= end <= s.claimed
    requires i < end ==> i == BLOCK_SIZE * (b + 1)
    ensures PcInv(s, Advance(s, i, end, h, idx))
  {
    hide Ring;
    if i < end {
      var index := s.headers[h].index;
      var c := |index|;
      var last := (end - 1) / BLOCK_SIZE;
      forall x | b + 1 <= x <= last ensures index[Ring(Ring(idx + 1, c) + x - (b + 1), c)] == s.entryOf[x] {
        RingAdd(idx + 1, x - (b + 1), c);
        assert index[Ring(idx + x - b, c)] == s.entryOf[x];
      }
    }
  }

  /** How many elements of each block a range gives up when it completes its first block. */
  lemma OverlapCut(i: nat, end: nat, j: nat)
    requires i < end
    ensures var next := Min(end, EndOfBlock(i));
      Overlap(i, end, j) - Overlap(next, end, j) == if j == i / BLOCK_SIZE then next - i else 0
  {
  }

  lemma FinishPcs(s: State, t: nat)
    requires Inv(s) && t < |s.pcs| && s.pcs[t].Finish?
    requires var p := s.pcs[t];
      && 0 <= p.block < |s.done| && p.idx < |Slots(s, p.h)| && p.i <= p.end
      && s.done[p.block] < BLOCK_SIZE
      && s.done[p.block] + Min(p.end, EndOfBlock(p.i)) - p.i <= BLOCK_SIZE
    ensures var s' := ConsumerFinish(s, t); forall u :: 0 <= u < |s'.pcs| ==> PcInv(s', s'.pcs[u])
  {
    hide Ring, HeaderInv, EntriesKept, ProducerInv, BlockInv, Aligned;
    var p := s.pcs[t];
    var s' := ConsumerFinish(s, t);
    var next := Min(p.end, EndOfBlock(p.i));
    assert PcInv(s, p);
    forall u | 0 <= u < |s'.pcs| ensures PcInv(s', s'.pcs[u]) {
      if u != t {
        PcStable(s, s', s.pcs[u]);
      } else {
        AdvanceKeeps(s, next, p.end, p.h, p.idx, p.block);
        PcStable(s, s', Advance(s, next, p.end, p.h, p.idx));
        AlignedSame(s, s', p.h, p.idx, p.block, (p.end - 1) / BLOCK_SIZE);
      }
    }
  }

  lemma AlignedSame(s: State, s': State, h: nat, idx: int, b: int, last: int)
    requires s'.headers == s.headers && s'.entryOf == s.entryOf && s'.blocks == s.blocks
    ensures Aligned(s', h, idx, b, last) == Aligned(s, h, idx, b, last)
  {
  }

  function ConsumerFinish(s: State, t: nat): State
    requires t < |s.pcs| && s.pcs[t].Finish?
    requires var p := s.pcs[t]; 0 <= p.block < |s.done| && p.idx < |Slots(s, p.h)| && p.i <= p.end
  {
    var p := s.pcs[t];
    FinishBlock(s, t, p.i, p.end, p.h, p.idx, p.block)
  }

  lemma FinishKeeps(s: State, t: nat)
    requires Inv(s) && t < |s.pcs| && s.pcs[t].Finish?
    ensures var p := s.pcs[t]; 0 <= p.block < |s.done| && p.idx < |Slots(s, p.h)| && p.i <= p.end
    ensures Inv(ConsumerFinish(s, t))
  {
    hide Ring, HeaderInv, EntriesKept, ProducerInv, Aligned, Present, Total;
    var p := s.pcs[t];
    assert PcInv(s, p);
    InFlightIsPresent(s, t);
    var s' := ConsumerFinish(s, t);
    FinishPcs(s, t);
    IndexSame(s, s');
    forall j | 0 <= j < s.blocks ensures BlockInv(s', j) {
      assert BlockInv(s, j);
      OverlapCut(p.i, p.end, j);
      TotalUpdate(InFlight, s.pcs, t, s'.pcs[t], j);
      TotalUpdate(Nulling, s.pcs, t, s'.pcs[t], j);
    }
  }

  /** The block a thread is about to remove is there, complete, and in the entry the thread found. */
  lemma NullingIsPresent(s: State, t: nat)
    requires Inv(s) && t < |s.pcs| && s.pcs[t].StoreNull?
    ensures var p := s.pcs[t];
      && PcInv(s, p) && 0 <= p.block < s.blocks && Present(s, p.block) && s.done[p.block] == BLOCK_SIZE
      && Slots(s, p.h)[p.idx] == s.entryOf[p.block]
  {
    hide Ring, HeaderInv, EntriesKept, ProducerInv, Present;
    var p := s.pcs[t];
    assert PcInv(s, p) && BlockInv(s, p.block);
    TotalUpdate(Nulling, s.pcs, t, Idle, p.block);
    AlignedHere(s, p.h, p.idx, p.block, (p.end - 1) / BLOCK_SIZE);
  }

  /** Removing block b takes away nothing else. */
  lemma RemoveBlock(s: State, s': State, b: nat)
    requires Inv(s) && Present(s, b)
    requires var e := s.entryOf[b]; s'.entries == s.entries[e := s.entries[e].(value := NULL)]
    requires s'.headers == s.headers && s'.entryOf == s.entryOf && s'.producer == s.producer && s'.blocks == s.blocks
    ensures forall j :: Present(s', j) == (Present(s, j) && j != b)
    ensures (forall g :: 0 <= g < |s'.headers| ==> HeaderInv(s', g)) && EntriesKept(s') && ProducerInv(s')
  {
    hide Ring, BlockInv, PcInv, HeaderInv;
    assert Live(s, b);
    forall j: nat | Live(s, j) && j != b ensures s.entryOf[j] != s.entryOf[b] {
      if j < b { assert s.entryOf[j] != s.entryOf[b]; } else { assert s.entryOf[b] != s.entryOf[j]; }
    }
    assert forall j: nat :: Present(s, j) ==> Live(s, j);
    forall j: nat ensures Present(s', j) == (Present(s, j) && j != b) {}
    assert forall j: nat :: Live(s', j) ==> Live(s, j);
    assert EntriesKept(s');
    RemovedHeaders(s, s', b);
    RemovedProducer(s, s', b);
  }

  lemma RemovedProducer(s: State, s': State, b: nat)
    requires Inv(s) && Live(s, b) && b < s.blocks
    requires var e := s.entryOf[b]; s'.entries == s.entries[e := s.entries[e].(value := NULL)]
    requires s'.headers == s.headers && s'.entryOf == s.entryOf && s'.producer == s.producer && s'.blocks == s.blocks
    ensures ProducerInv(s')
  {
    hide Ring, BlockInv, PcInv;
    assert HeaderInv(s, |s.headers| - 1);
    forall m | s.blocks <= m < |s.entryOf| ensures s'.entries[s.entryOf[m]] == s.entries[s.entryOf[m]] {
      assert s.entryOf[b] != s.entryOf[m];
    }
  }

  lemma RemovedHeaders(s: State, s': State, b: nat)
    requires Inv(s) && s'.headers == s.headers && s'.entryOf == s.entryOf && s'.blocks == s.blocks
    requires |s'.entries| == |s.entries| && s'.producer == s.producer
    requires forall j: nat :: Live(s', j) ==> Live(s, j)
    ensures forall g :: 0 <= g < |s'.headers| ==> HeaderInv(s', g)
  {
    hide Live, EntriesKept, ProducerInv, BlockInv, PcInv;
    forall g | 0 <= g < |s'.headers| ensures HeaderInv(s', g) {
      assert HeaderInv(s, g);
      HeaderCarries(s, s', g);
    }
  }

  lemma NullKeeps(s: State, t: nat)
    requires Inv(s) && WellFormed(s) && t < |s.pcs| && s.pcs[t].StoreNull?
    ensures Inv(ConsumerStep(s, t))
  {
    hide Ring, HeaderInv, EntriesKept, ProducerInv, Aligned, Present, Total, WellFormed;
    var p := s.pcs[t];
    NullingIsPresent(s, t);
    var s' := ConsumerStep(s, t);
    RemoveBlock(s, s', p.block);
    assert (p.i < p.end ==> p.i == BLOCK_SIZE * (p.block + 1));
    AdvanceKeeps(s, p.i, p.end, p.h, p.idx, p.block);
    forall u | 0 <= u < |s'.pcs| ensures PcInv(s', s'.pcs[u]) {
      if u != t { PcStable(s, s', s.pcs[u]); } else { PcStable(s, s', Advance(s, p.i, p.end, p.h, p.idx)); }
    }
    forall j | 0 <= j < s.blocks ensures BlockInv(s', j) {
      assert BlockInv(s, j);
      TotalUpdate(InFlight, s.pcs, t, s'.pcs[t], j);
      TotalUpdate(Nulling, s.pcs, t, s'.pcs[t], j);
    }
  }

  // ----- Producer steps -----------------------------------------------------------------------

  /** Producer steps that keep the counters, the blocks and the consumers keep their bookkeeping. */
  lemma BlocksSame(s: State, s': State)
    requires Inv(s)
    requires s'.done == s.done && s'.blocks == s.blocks && s'.claimed == s.claimed && s'.pcs == s.pcs
    requires forall j: nat :: j < s.blocks ==> Present(s', j) == Present(s, j)
    ensures forall j :: 0 <= j < s'.blocks ==> BlockInv(s', j)
  {
    hide HeaderInv, EntriesKept, ProducerInv, Present, Total, PcInv;
    forall j | 0 <= j < s'.blocks ensures BlockInv(s', j) { assert BlockInv(s, j); }
  }

  /** Producer steps only let the index and the history grow, as far as consumers can see. */
  lemma PcsSame(s: State, s': State)
    requires Inv(s) && Counters(s') && s'.pcs == s.pcs
    requires |s.headers| <= |s'.headers|
    requires forall g :: 0 <= g < |s.headers| ==>
      && s'.headers[g].index == s.headers[g].index
      && (s'.headers[g].count >= s.headers[g].count || s.claimed <= BLOCK_SIZE * s'.headers[g].count)
    requires |s.entryOf| <= |s'.entryOf| && s'.entryOf[..|s.entryOf|] == s.entryOf
    requires s.claimed <= s'.claimed
    requires s.done <= s'.done || s'.done <= s.done
    ensures forall u :: 0 <= u < |s'.pcs| ==> PcInv(s', s'.pcs[u])
  {
    hide HeaderInv, EntriesKept, ProducerInv, BlockInv, Aligned;
    forall u | 0 <= u < |s'.pcs| ensures PcInv(s', s'.pcs[u]) {
      assert PcInv(s, s.pcs[u]);
      if s.pcs[u].StoreNull? { assert s'.done[s.pcs[u].block] == s.done[s.pcs[u].block]; }
      PcStable(s, s', s.pcs[u]);
    }
  }

  /** Old headers only look at old blocks. */
  lemma OldHeaderSame(s: State, s': State, g: nat)
    requires Inv(s) && g < |s.headers| - 1 && g < |s'.headers| - 1 && s'.headers[g] == s.headers[g]
    requires |s.entries| <= |s'.entries|
    requires |s.entryOf| <= |s'.entryOf| && s'.entryOf[..|s.entryOf|] == s.entryOf
    requires forall j: nat :: j < |s.entryOf| && Live(s', j) ==> Live(s, j)
    ensures HeaderInv(s', g)
  {
    hide EntriesKept, ProducerInv, BlockInv, PcInv, Live;
    assert HeaderInv(s, g);
    HeaderCarries(s, s', g);
  }

  lemma StartInsertKeeps(s: State, canAlloc: bool)
    requires Inv(s) && WellFormed(s) && s.producer.Ready?
    ensures Inv(StartInsert(s, canAlloc))
  {
    hide Ring, Leads, Total, PcInv, BlockInv, WellFormed, EntriesKept;
    var s' := StartInsert(s, canAlloc);
    assert HeaderInv(s, |s.headers| - 1);
    var h := Current(s);
    assert h.index[Ring(h.tail + 1, |h.index|)] < |s.entries|;
    if s.blocks < |s.entryOf| { WaitingEntry(s); }
    ReadyInsert(s, s');
  }

  /** Only the producer's own position changes. */
  lemma ReadyInsert(s: State, s': State)
    requires Inv(s) && s' == s.(producer := s'.producer) && ProducerInv(s')
    ensures Inv(s')
  {
    hide ProducerInv, HeaderInv, EntriesKept, PowerOfTwo;
    BlocksSame(s, s');
    PcsSame(s, s');
    hide BlockInv, PcInv;
    assert forall j: nat :: Live(s', j) == Live(s, j);
    hide Live;
    forall g | 0 <= g < |s'.headers| ensures HeaderInv(s', g) {
      assert HeaderInv(s, g);
      HeaderCarries(s, s', g);
    }
    EntriesSame(s, s');
  }

  lemma EntriesSame(s: State, s': State)
    requires s'.entryOf == s.entryOf && s'.entries == s.entries && s'.blocks == s.blocks && EntriesKept(s)
    ensures EntriesKept(s')
  {
    assert forall j: nat :: Live(s', j) == Live(s, j);
  }

  lemma HeadersExceptLast(s: State, s': State)
    requires Inv(s) && |s'.headers| >= |s.headers| && s'.headers[..|s.headers| - 1] == s.headers[..|s.headers| - 1]
    requires |s.entries| <= |s'.entries|
    requires |s.entryOf| <= |s'.entryOf| && s'.entryOf[..|s.entryOf|] == s.entryOf
    requires forall j: nat :: j < |s.entryOf| && Live(s', j) ==> Live(s, j)
    ensures forall g :: 0 <= g < |s.headers| - 1 ==> HeaderInv(s', g)
  {
    hide Ring, Live, HeaderInv, EntriesKept, ProducerInv, BlockInv, PcInv;
    forall g | 0 <= g < |s.headers| - 1 ensures HeaderInv(s', g) {
      assert s'.headers[g] == s'.headers[..|s.headers| - 1][g];
      assert s.headers[g] == s.headers[..|s.headers| - 1][g];
      OldHeaderSame(s, s', g);
    }
  }

  /** Storing the key of the next block claims an entry that no live block depends on. */
  lemma StoreKeyKeeps(s: State)
    requires Inv(s) && WellFormed(s) && s.producer.StoreKey?
    ensures Inv(ProducerStep(s, false))
  {
    hide Ring, HeaderInv, EntriesKept, ProducerInv, Total, BlockInv, PcInv, WellFormed;
    var s' := ProducerStep(s, false);
    var last := |s.headers| - 1;
    assert HeaderInv(s, last);
    StoreKeyEntries(s);
    StoreKeyHeader(s);
    StoreKeyProducer(s);
    StoreKeyLive(s);
    hide Present, Live;
    assert s'.entryOf[..|s.entryOf|] == s.entryOf;
    HeadersExceptLast(s, s');
    BlocksSame(s, s');
    PcsSame(s, s');
  }

  /** An entry that waits for block n is the one after the tail. */
  lemma WaitingEntry(s: State)
    requires Inv(s) && s.blocks < |s.entryOf|
    ensures var h := Current(s); |h.index| > 0 && |s.entryOf| - s.blocks <= |h.index|
    ensures var h := Current(s); h.index[SlotOf(h, s.blocks)] == s.entryOf[s.blocks]
    ensures var h := Current(s); h.count == s.blocks ==> SlotOf(h, s.blocks) == Ring(h.tail + 1, |h.index|)
  {
    hide Ring, BlockInv, PcInv, EntriesKept, ProducerInv;
    var last := |s.headers| - 1;
    assert HeaderInv(s, last);
    assert Live(s, s.blocks);
    assert LeadsTo(s, last, s.blocks, s.blocks);
  }

  /** The entry claimed for block n differs from every entry a live block may lead to. */
  lemma KeyClaims(s: State, j: nat, m: nat)
    requires Inv(s) && s.producer.StoreKey? && Live(s, j) && j <= m < |s.entryOf| && m != s.blocks
    ensures var h := Current(s);
      s.producer.slot < |h.index| && s.entryOf[m] != h.index[s.producer.slot]
    ensures s.blocks + 1 - j <= |Current(s).index|
  {
    hide Ring, BlockInv, PcInv;
    var last := |s.headers| - 1;
    assert HeaderInv(s, last);
    if |s.entryOf| == s.blocks {
      FreeSlotIsNobodys(s, j, m);
    } else {
      WaitingEntry(s);
      hide Present;
      assert LeadsTo(s, last, j, j);
      if m < s.blocks { assert s.entryOf[m] != s.entryOf[s.blocks]; } else { assert Live(s, s.blocks); }
    }
  }

  lemma StoreKeyEntries(s: State)
    requires Inv(s) && WellFormed(s) && s.producer.StoreKey?
    ensures EntriesKept(ProducerStep(s, false))
  {
    hide Ring, BlockInv, PcInv, Base, WellFormed;
    var s' := ProducerStep(s, false);
    var n := s.blocks;
    var last := |s.headers| - 1;
    assert HeaderInv(s, last);
    var e := Current(s).index[s.producer.slot];
    if n < |s.entryOf| { WaitingEntry(s); }
    assert s'.entryOf[n] == e;
    assert forall m :: 0 <= m < |s.entryOf| ==> s'.entryOf[m] == s.entryOf[m];
    assert forall j: nat :: j < |s.entryOf| ==> Live(s', j) == Live(s, j);
    hide Live, Present, ProducerInv, HeaderInv;
    forall j: nat, m: nat | Live(s, j) && j <= m < |s.entryOf| && m != n ensures s.entryOf[m] != e {
      KeyClaims(s, j, m);
    }
    hide Inv;
    forall j: nat, m: nat | Live(s', j) && j <= m < |s'.entryOf| ensures s'.entries[s'.entryOf[m]].key == Base(m) {
      if m != n { assert Live(s, j) && s.entryOf[m] != e; }
    }
    forall j: nat, m: nat, m': nat | Live(s', j) && j <= m < m' < |s'.entryOf| ensures s'.entryOf[m] != s'.entryOf[m'] {
      assert Live(s, j);
      if m == n { assert s.entryOf[m'] != e; } else if m' == n { assert s.entryOf[m] != e; }
    }
  }

  lemma StoreKeyHeader(s: State)
    requires Inv(s) && WellFormed(s) && s.producer.StoreKey?
    ensures HeaderInv(ProducerStep(s, false), |s.headers| - 1)
  {
    hide Ring, BlockInv, PcInv, EntriesKept, WellFormed;
    var s' := ProducerStep(s, false);
    var last := |s.headers| - 1;
    var h := Current(s);
    assert HeaderInv(s, last);
    assert forall j: nat :: j < |s.entryOf| ==> Live(s', j) == Live(s, j);
    assert SlotOf(h, s.blocks) == s.producer.slot;
    hide Live;
    forall j: nat, m: nat | Live(s', j) && j <= m < Limit(s', last) ensures LeadsTo(s', last, j, m) {
      if m < |s.entryOf| {
        assert LeadsTo(s, last, j, m);
        if |s.entryOf| == s.blocks { KeyClaims(s, j, j); }
      } else if j < |s.entryOf| {
        KeyClaims(s, j, j);
      }
    }
  }

  lemma StoreKeyLive(s: State)
    requires Inv(s) && WellFormed(s) && s.producer.StoreKey?
    ensures var s' := ProducerStep(s, false);
      && (forall j: nat :: Present(s', j) == Present(s, j))
      && (forall j: nat :: j < |s.entryOf| ==> Live(s', j) == Live(s, j))
      && |s'.entries| == |s.entries|
  {
    hide HeaderInv, Leads, BlockInv, PcInv, EntriesKept, ProducerInv;
  }

  lemma StoreKeyProducer(s: State)
    requires Inv(s) && WellFormed(s) && s.producer.StoreKey?
    ensures var s' := ProducerStep(s, false); Current(s').tail < |Current(s').index| && ProducerInv(s')
  {
    hide Ring, BlockInv, PcInv, EntriesKept, Leads;
    assert HeaderInv(s, |s.headers| - 1);
  }

  /** Moving the tail by one slot together with its block count leaves every block's slot in place. */
  lemma TailMoves(h: Header, h': Header, m: int)
    requires |h.index| > 0 && h'.index == h.index
    requires (h'.count == h.count + 1 && h'.tail == Ring(h.tail + 1, |h.index|))
      || (h'.count == h.count - 1 && h'.tail == Ring(h.tail - 1, |h.index|))
    ensures SlotOf(h', m) == SlotOf(h, m)
  {
    hide Ring;
    var c := |h.index|;
    if h'.count == h.count + 1 {
      RingAdd(h.tail + 1, m - h.count, c);
    } else {
      RingAdd(h.tail - 1, m - (h.count - 2), c);
    }
  }

  predicate MovesTail(p: Producer) {
    p.StoreTail? || p.Rewind? || p.UndoRewind?
  }

  /** Publishing or taking back the tail slot of a block. */
  lemma TailKeeps(s: State)
    requires Inv(s) && WellFormed(s) && MovesTail(s.producer)
    ensures Inv(ProducerStep(s, false))
  {
    hide Ring, HeaderInv, EntriesKept, BlockInv, PcInv, WellFormed, ProducerInv;
    var s' := ProducerStep(s, false);
    var last := |s.headers| - 1;
    assert HeaderInv(s, last);
    TailProducer(s);
    assert forall j: nat :: Present(s', j) == Present(s, j);
    assert forall j: nat :: Live(s', j) == Live(s, j);
    TailHeader(s, s');
    hide Present, Live;
    assert s'.headers[..last] == s.headers[..last];
    assert s'.entryOf[..|s.entryOf|] == s.entryOf;
    HeadersExceptLast(s, s');
    EntriesSame(s, s');
    BlocksSame(s, s');
    PcsSame(s, s');
  }

  lemma TailProducer(s: State)
    requires Inv(s) && WellFormed(s) && MovesTail(s.producer)
    ensures var s' := ProducerStep(s, false);
      && Current(s').tail < |Current(s').index| && ProducerInv(s') && Current(s').count >= s.blocks
    ensures var h, h' := Current(s), Current(ProducerStep(s, false));
      && h'.index == h.index && |h.index| > 0 && h'.count <= |s.entryOf|
      && ((h'.count == h.count + 1 && h'.tail == Ring(h.tail + 1, |h.index|))
          || (h'.count == h.count - 1 && h'.tail == Ring(h.tail - 1, |h.index|)))
  {
    hide EntriesKept, BlockInv, PcInv, Leads;
    assert HeaderInv(s, |s.headers| - 1);
    var h := Current(s);
    RingAdd(h.tail - 1, 1, |h.index|);
    RingSmall(h.tail, |h.index|);
    hide Ring;
  }

  lemma TailHeader(s: State, s': State)
    requires Inv(s) && WellFormed(s) && MovesTail(s.producer) && s' == ProducerStep(s, false)
    ensures HeaderInv(s', |s.headers| - 1)
  {
    hide Ring, BlockInv, PcInv, EntriesKept;
    var last := |s.headers| - 1;
    var h := Current(s);
    var h' := Current(s');
    assert HeaderInv(s, last);
    TailProducer(s);
    hide ProducerInv;
    assert forall j: nat :: Live(s', j) == Live(s, j);
    hide Live;
    forall j: nat, m: nat | Live(s', j) && j <= m < Limit(s', last) ensures LeadsTo(s', last, j, m) {
      assert LeadsTo(s, last, j, m);
      TailMoves(h, h', m);
    }
  }

  /** Clearing the entry of a block that is not installed. */
  lemma ClearKeeps(s: State, s': State, b: nat)
    requires Inv(s) && s.blocks <= b < |s.entryOf| && s.entryOf[b] < |s.entries|
    requires s' == s.(entries := s.entries[s.entryOf[b] := s.entries[s.entryOf[b]].(value := NULL)],
                      producer := s'.producer)
    requires ProducerInv(s')
    ensures Inv(s')
  {
    hide Ring, HeaderInv, BlockInv, PcInv, ProducerInv;
    forall j: nat ensures Present(s', j) == Present(s, j) {
      if Present(s, j) {
        assert Live(s, j);
        assert s.entryOf[j] != s.entryOf[b];
      }
    }
    assert forall j: nat :: Live(s', j) == Live(s, j);
    hide Present, Live;
    assert forall m :: 0 <= m < |s.entries| ==> s'.entries[m].key == s.entries[m].key;
    assert EntriesKept(s');
    hide EntriesKept;
    forall g | 0 <= g < |s'.headers| ensures HeaderInv(s', g) {
      assert HeaderInv(s, g);
      HeaderCarries(s, s', g);
    }
    BlocksSame(s, s');
    PcsSame(s, s');
  }

  lemma ClearValueKeeps(s: State)
    requires Inv(s) && WellFormed(s) && s.producer.ClearValue?
    ensures Inv(ProducerStep(s, false))
  {
    hide Ring, HeaderInv, BlockInv, PcInv, WellFormed, Live, Present;
    assert HeaderInv(s, |s.headers| - 1);
    WaitingEntry(s);
    ClearKeeps(s, ProducerStep(s, false), s.blocks);
  }

  // ----- Giving back the blocks of a bulk enqueue ------------------------------------------------

  /** A block without a published element is there, since nobody can have completed it. */
  lemma UnusedIsPresent(s: State, j: nat)
    requires Inv(s) && FirstUnused(s) <= j < s.blocks
    ensures Present(s, j)
  {
    hide HeaderInv, EntriesKept, ProducerInv, PcInv, Present, Total;
    assert BlockInv(s, j);
  }

  lemma StartUndoKeeps(s: State)
    requires Inv(s) && WellFormed(s) && s.producer.Ready?
    ensures Inv(StartUndo(s))
  {
    hide HeaderInv, BlockInv, PcInv, WellFormed, EntriesKept, Present;
    var s' := StartUndo(s);
    if s' != s {
      var first := FirstUnused(s);
      forall j: nat | first <= j < s.blocks ensures Present(s, j) { UnusedIsPresent(s, j); }
      StartUndoProducer(s);
      StartUndoLive(s);
      hide ProducerInv, Present, Live;
      StartUndoBlocks(s);
      PcsSame(s, s');
      forall g | 0 <= g < |s'.headers| ensures HeaderInv(s', g) {
        assert HeaderInv(s, g);
        HeaderCarries(s, s', g);
      }
    }
  }

  lemma StartUndoProducer(s: State)
    requires Inv(s) && WellFormed(s) && s.producer.Ready? && FirstUnused(s) < s.blocks
    requires forall j: nat :: FirstUnused(s) <= j < s.blocks ==> Present(s, j)
    ensures ProducerInv(StartUndo(s)) && Counters(StartUndo(s))
  {
    hide HeaderInv, BlockInv, PcInv, EntriesKept;
    var s' := StartUndo(s);
    forall m: nat | FirstUnused(s) <= m < s.blocks
      ensures s.entryOf[m] < |s.entries| && s.entries[s.entryOf[m]].value == m
    {
      assert Present(s, m);
    }
  }

  lemma StartUndoLive(s: State)
    requires Inv(s) && WellFormed(s) && s.producer.Ready? && FirstUnused(s) < s.blocks
    requires forall j: nat :: FirstUnused(s) <= j < s.blocks ==> Present(s, j)
    ensures forall j: nat :: Live(StartUndo(s), j) == Live(s, j)
    ensures forall j: nat :: j < FirstUnused(s) ==> Present(StartUndo(s), j) == Present(s, j)
    ensures EntriesKept(StartUndo(s))
  {
    hide HeaderInv, BlockInv, PcInv, ProducerInv;
    var s' := StartUndo(s);
    forall j: nat ensures Live(s', j) == Live(s, j) {
      if FirstUnused(s) <= j < s.blocks { assert Present(s, j); }
    }
    hide Live;
  }

  lemma StartUndoBlocks(s: State)
    requires Inv(s) && WellFormed(s) && s.producer.Ready? && FirstUnused(s) < s.blocks
    requires forall j: nat :: j < FirstUnused(s) ==> Present(StartUndo(s), j) == Present(s, j)
    ensures var s' := StartUndo(s); |s'.done| == s'.blocks && forall j :: 0 <= j < s'.blocks ==> BlockInv(s', j)
  {
    hide HeaderInv, EntriesKept, ProducerInv, PcInv, Present, Total;
    var s' := StartUndo(s);
    forall j | 0 <= j < s'.blocks ensures BlockInv(s', j) { assert BlockInv(s, j); }
  }

  /** The producer's look-up during an undo: the tail slot still has the key of the block it stands for,
      so the computed slot is block j's, ahead of the tail or behind it, and its assertions hold. */
  lemma UndoFindsItsBlock(s: State)
    requires Inv(s) && WellFormed(s) && s.producer.UndoClear?
    ensures var found := UndoSlot(s, s.producer.j);
      && s.producer.j < |s.entryOf| && found.Some? && found.value < |Current(s).index|
      && Current(s).index[found.value] == s.entryOf[s.producer.j]
  {
    hide BlockInv, PcInv, Present, Ring, Base, SlotFromKey, WellFormed;
    var h, n, j := Current(s), s.blocks, s.producer.j;
    var newest := h.count - 1;
    var last := |s.headers| - 1;
    assert HeaderInv(s, last);
    assert Live(s, n);
    assert LeadsTo(s, last, n, newest) && LeadsTo(s, last, n, j);
    hide Live;
    RingSmall(h.tail, |h.index|);
    assert SlotOf(h, newest) == h.tail;
    assert s.entries[s.entryOf[newest]].key == Base(newest) && s.entries[s.entryOf[j]].key == Base(j);
    BaseIsValid(newest);
    hide EntriesKept, Leads, ProducerInv, PowerOfTwo;
    SlotFromKeyExact(h.tail, newest, j, |h.index|);
  }

  lemma UndoClearKeeps(s: State)
    requires Inv(s) && WellFormed(s) && s.producer.UndoClear?
    ensures Inv(ProducerStep(s, false))
  {
    hide Ring, HeaderInv, BlockInv, PcInv, WellFormed, Present, UndoSlot;
    var s', b := ProducerStep(s, false), s.producer.j;
    assert HeaderInv(s, |s.headers| - 1);
    UndoFindsItsBlock(s);
    assert Live(s, s.blocks);
    hide Live;
    forall m: nat | s.blocks <= m < |s.entryOf| && m != b
      ensures s.entryOf[m] < |s.entries| && s.entryOf[m] != s.entryOf[b]
    {
      if m < b { assert s.entryOf[m] != s.entryOf[b]; } else { assert s.entryOf[b] != s.entryOf[m]; }
    }
    hide EntriesKept;
    ClearKeeps(s, s', b);
  }

  /** Installing the block. */
  lemma StoreValueEntries(s: State)
    requires Inv(s) && WellFormed(s) && s.producer.StoreValue?
    ensures var s' := ProducerStep(s, true);
      && (forall j: nat :: Present(s', j) == (Present(s, j) || j == s.blocks))
      && (forall j: nat :: Live(s', j) == Live(s, j))
      && EntriesKept(s') && |s'.entries| == |s.entries|
  {
    hide Ring, HeaderInv, BlockInv, PcInv;
    var s' := ProducerStep(s, true);
    var n := s.blocks;
    assert HeaderInv(s, |s.headers| - 1);
    WaitingEntry(s);
    SlotIsTail(Current(s), n);
    forall j: nat ensures Present(s', j) == (Present(s, j) || j == n) {
      if Present(s, j) {
        assert Live(s, j);
        assert s.entryOf[j] != s.entryOf[n];
      }
    }
    assert forall j: nat :: Live(s', j) == Live(s, j);
    hide Live, Present;
    assert forall m :: 0 <= m < |s.entries| ==> s'.entries[m].key == s.entries[m].key;
  }

  lemma SlotIsTail(h: Header, n: nat)
    requires h.count == n + 1 && h.tail < |h.index|
    ensures SlotOf(h, n) == h.tail
  {
    RingSmall(h.tail, |h.index|);
  }

  lemma StoreValueProducer(s: State)
    requires Inv(s) && WellFormed(s) && s.producer.StoreValue?
    ensures var s' := ProducerStep(s, true); Current(s').tail < |Current(s').index| && ProducerInv(s') && Counters(s')
  {
    hide Ring, BlockInv, PcInv;
    assert HeaderInv(s, |s.headers| - 1);
    WaitingEntry(s);
    SlotIsTail(Current(s), s.blocks);
    assert Live(s, s.blocks);
    hide Live, Present;
    forall m: nat | s.blocks < m < |s.entryOf| ensures s.entryOf[m] != s.entryOf[s.blocks] {
      assert s.entryOf[s.blocks] != s.entryOf[m];
    }
  }

  lemma {:induction false} NoneAbove(pcs: seq<Pc>, n: nat)
    requires forall t :: 0 <= t < |pcs| ==> Weight(InFlight, pcs[t], n) == 0 && Weight(Nulling, pcs[t], n) == 0
    ensures Total(InFlight, pcs, n) == 0 && Total(Nulling, pcs, n) == 0
  {
    if pcs != [] { NoneAbove(pcs[..|pcs| - 1], n); }
  }

  lemma NewBlockCounts(s: State)
    requires Inv(s)
    ensures Total(InFlight, s.pcs, s.blocks) == 0 && Total(Nulling, s.pcs, s.blocks) == 0
  {
    hide HeaderInv, BlockInv, EntriesKept, ProducerInv, Aligned;
    forall t | 0 <= t < |s.pcs|
      ensures Weight(InFlight, s.pcs[t], s.blocks) == 0 && Weight(Nulling, s.pcs[t], s.blocks) == 0
    {
      assert PcInv(s, s.pcs[t]);
    }
    NoneAbove(s.pcs, s.blocks);
  }

  lemma StoreValueKeeps(s: State)
    requires Inv(s) && WellFormed(s) && s.producer.StoreValue?
    ensures Inv(ProducerStep(s, true))
  {
    hide Ring, HeaderInv, Present, Live, Total, EntriesKept, PcInv, WellFormed, ProducerInv;
    var s' := ProducerStep(s, true);
    var n := s.blocks;
    var last := |s.headers| - 1;
    assert HeaderInv(s, last);
    StoreValueEntries(s);
    StoreValueProducer(s);
    NewBlockCounts(s);
    StoreValueHeader(s);
    assert s'.entryOf[..|s.entryOf|] == s.entryOf;
    HeadersExceptLast(s, s');
    forall j | 0 <= j < s'.blocks ensures BlockInv(s', j) {
      if j < n { assert BlockInv(s, j); }
    }
    PcsSame(s, s');
  }

  lemma StoreValueHeader(s: State)
    requires Inv(s) && WellFormed(s) && s.producer.StoreValue?
    ensures HeaderInv(ProducerStep(s, true), |s.headers| - 1)
  {
    hide BlockInv, PcInv, EntriesKept, Live, Ring, ProducerInv;
    assert HeaderInv(s, |s.headers| - 1);
    StoreValueEntries(s);
    HeaderCarries(s, ProducerStep(s, true), |s.headers| - 1);
  }

  // ----- Doubling the index -----------------------------------------------------------------------

  /** In the doubled index a block's slot is where the copy put the old index's slot for it. */
  lemma DoubledSlot(h: Header, h': Header, entries: nat, m: int)
    requires h.tail < |h.index| && h.count - |h.index| <= m < h.count
    requires h' == Header(|h.index| - 1, DoubledIndex(h.index, h.tail, entries), h.count)
    ensures SlotOf(h', m) < |h.index| && h'.index[SlotOf(h', m)] == h.index[SlotOf(h, m)]
  {
    var c := |h.index|;
    var x := c + m - h.count;
    hide Ring;
    RingSmall(x, 2 * c);
    assert SlotOf(h', m) == x;
    RingLap(h.tail + 1 + x - c, c);
    assert h'.index[x] == h.index[Ring(h.tail + 1 + x, c)];
  }

  lemma DoubledShape(index: seq<nat>, tail: nat, entries: nat)
    requires |index| > 0 && tail < |index|
    requires forall x :: 0 <= x < |index| ==> index[x] < entries
    requires forall x, y :: 0 <= x < y < |index| ==> index[x] != index[y]
    ensures var index' := DoubledIndex(index, tail, entries);
      && (forall x :: 0 <= x < |index'| ==> index'[x] < entries + |index|)
      && (forall x, y :: 0 <= x < y < |index'| ==> index'[x] != index'[y])
  {
    hide Ring;
    var index' := DoubledIndex(index, tail, entries);
    var c := |index|;
    forall x, y | 0 <= x < y < |index'| ensures index'[x] != index'[y] {
      if y < c { RingDistinct(tail + 1 + x, tail + 1 + y, c); }
    }
  }

  lemma GrowHeader(s: State)
    requires Inv(s) && WellFormed(s) && s.producer.Grow? && 2 * |Current(s).index| <= MAX_INDEX_SIZE
    ensures HeaderInv(ProducerStep(s, false), |s.headers|)
  {
    hide Ring, BlockInv, PcInv, EntriesKept;
    var s' := ProducerStep(s, false);
    var h := Current(s);
    var h' := Current(s');
    var last := |s.headers| - 1;
    assert HeaderInv(s, last);
    assert s'.headers[|s.headers|] == h' == Header(|h.index| - 1, DoubledIndex(h.index, h.tail, |s.entries|), h.count);
    DoubledShape(h.index, h.tail, |s.entries|);
    assert PowerOfTwo(2 * |h.index|);
    assert forall j: nat :: Live(s', j) == Live(s, j);
    hide Live, PowerOfTwo;
    var g := |s.headers|;
    forall j: nat, m: nat | Live(s', j) && j <= m < Limit(s', g) ensures LeadsTo(s', g, j, m) {
      assert LeadsTo(s, last, j, m);
      DoubledSlot(h, h', |s.entries|, m);
    }
  }

  lemma GrowProducer(s: State)
    requires Inv(s) && WellFormed(s) && s.producer.Grow? && 2 * |Current(s).index| <= MAX_INDEX_SIZE
    ensures var s' := ProducerStep(s, false); Current(s').tail < |Current(s').index| && ProducerInv(s')
  {
    hide Ring, EntriesKept, BlockInv, PcInv, Leads, PowerOfTwo;
    assert HeaderInv(s, |s.headers| - 1);
    var s' := ProducerStep(s, false);
    var c := |Current(s).index|;
    RingSmall(c, 2 * c);
    assert Current(s').index[c] == |s.entries|;
    assert s'.entries[|s.entries|] == Entry(INVALID_BLOCK_BASE, UNSET);
  }

  lemma GrowKeeps(s: State)
    requires Inv(s) && WellFormed(s) && s.producer.Grow? && 2 * |Current(s).index| <= MAX_INDEX_SIZE
    ensures Inv(ProducerStep(s, false))
  {
    hide Ring, HeaderInv, BlockInv, PcInv, WellFormed, ProducerInv, PowerOfTwo;
    var s' := ProducerStep(s, false);
    var last := |s.headers| - 1;
    assert HeaderInv(s, last);
    assert s'.entries[..|s.entries|] == s.entries;
    assert forall e :: 0 <= e < |s.entries| ==> s'.entries[e] == s.entries[e];
    assert forall j: nat :: Present(s', j) == Present(s, j) && Live(s', j) == Live(s, j);
    hide Present, Live;
    GrowHeader(s);
    GrowProducer(s);
    assert s'.headers[..last] == s.headers[..last];
    HeadersExceptLast(s, s');
    GrowOldCurrent(s, s');
    BlocksSame(s, s');
    PcsSame(s, s');
  }

  /** The index that was current keeps leading to the blocks it counts. */
  lemma GrowOldCurrent(s: State, s': State)
    requires Inv(s) && s.producer.Grow? && s'.blocks == s.blocks && s'.entryOf == s.entryOf
    requires |s'.headers| == |s.headers| + 1 && s'.headers[|s.headers| - 1] == Current(s)
    requires |s.entries| <= |s'.entries| && forall j: nat :: Live(s', j) == Live(s, j)
    ensures HeaderInv(s', |s.headers| - 1)
  {
    hide BlockInv, PcInv, EntriesKept, Live, PowerOfTwo;
    var last := |s.headers| - 1;
    assert HeaderInv(s, last);
    HeaderCarries(s, s', last);
  }

  // ----- Every step ------------------------------------------------------------------------------

  lemma PublishKeeps(s: State, count: nat)
    requires Inv(s) && s.published + count <= BLOCK_SIZE * s.blocks
    ensures Inv(s.(published := s.published + count))
  {
    hide HeaderInv, EntriesKept, ProducerInv, PowerOfTwo;
    var s' := s.(published := s.published + count);
    IndexSame(s, s');
    BlocksSame(s, s');
    PcsSame(s, s');
  }

  predicate GrowAllowed(s: State) {
    s.producer.Grow? ==> s.headers != [] && 2 * |Current(s).index| <= MAX_INDEX_SIZE
  }

  lemma ProducerKeeps(s: State, gotBlock: bool)
    requires Inv(s) && GrowAllowed(s) && WellFormed(s)
    ensures Inv(ProducerStep(s, gotBlock))
  {
    hide HeaderInv, EntriesKept, BlockInv, PcInv, WellFormed;
    match s.producer {
      case Grow => GrowKeeps(s);
      case StoreKey(_) => StoreKeyKeeps(s);
      case StoreTail(_) => TailKeeps(s);
      case Rewind(_) => TailKeeps(s);
      case UndoRewind(_, _) => TailKeeps(s);
      case UndoClear(_, _) => UndoClearKeeps(s);
      case ClearValue(_) => ClearValueKeeps(s);
      case StoreValue(_) => StoreValueKeeps(s);
      case GetBlock(_) => assert HeaderInv(s, |s.headers| - 1); ReadyInsert(s, ProducerStep(s, gotBlock));
      case _ =>
    }
  }

  lemma ConsumerKeeps(s: State, t: nat)
    requires Inv(s) && WellFormed(s) && t < |s.pcs|
    ensures Inv(ConsumerStep(s, t))
  {
    hide HeaderInv, EntriesKept, BlockInv, ProducerInv, WellFormed, PcInv;
    match s.pcs[t] {
      case Idle =>
      case LookupAssertionFailed =>
      case Finish(_, _, _, _, _) => FinishKeeps(s, t);
      case StoreNull(_, _, _, _, _) => NullKeeps(s, t);
      case _ => LookupKeeps(s, t);
    }
  }

  lemma StepInv(s: State, c: Choice)
    requires Inv(s) && GrowAllowed(s)
    ensures Inv(Step(s, c)) && GrowAllowed(Step(s, c))
  {
    hide HeaderInv, EntriesKept, BlockInv, ProducerInv, PcInv, WellFormed;
    if WellFormed(s) {
      match c {
        case InsertBlock(canAlloc) => if s.producer.Ready? { StartInsertKeeps(s, canAlloc); }
        case ProducerGo(gotBlock) => ProducerKeeps(s, gotBlock);
        case Undo => if s.producer.Ready? { StartUndoKeeps(s); }
        case Publish(count) =>
          if s.producer.Ready? && s.published + count <= BLOCK_SIZE * s.blocks { PublishKeeps(s, count); }
        case Claim(t, count) =>
          if t < |s.pcs| && s.pcs[t].Idle? && count > 0 && s.claimed + count <= s.published { ClaimKeeps(s, t, count); }
        case Go(t) => if t < |s.pcs| { ConsumerKeeps(s, t); }
      }
      StepGrowAllowed(s, c);
    }
  }

  lemma StepGrowAllowed(s: State, c: Choice)
    requires GrowAllowed(s) && s.headers != []
    ensures GrowAllowed(Step(s, c))
  {
  }

  lemma InitInv(threads: nat)
    ensures Inv(Init(threads)) && GrowAllowed(Init(threads))
  {
    var s := Init(threads);
    assert forall j: nat :: !Present(s, j);
    assert PowerOfTwo(2) && PowerOfTwo(4) && PowerOfTwo(8) && PowerOfTwo(16) && PowerOfTwo(32);
    hide PowerOfTwo, Present;
    assert Shape(s, 0);
    assert HeaderInv(s, 0);
  }

  // ----- Main results over every schedule -----------------------------------------------------------

  lemma {:induction false} RunInv(threads: nat, schedule: seq<Choice>)
    ensures Inv(Run(Init(threads), schedule)) && GrowAllowed(Run(Init(threads), schedule))
    decreases |schedule|
  {
    if schedule == [] {
      InitInv(threads);
    } else {
      hide Inv, GrowAllowed, Step;
      RunInv(threads, schedule[..|schedule| - 1]);
      StepInv(Run(Init(threads), schedule[..|schedule| - 1]), schedule[|schedule| - 1]);
    }
  }

  /** How many elements were published, read off the schedule: those for which there were blocks. */
  function PublishedBy(s: State, schedule: seq<Choice>): nat
    decreases |schedule|
  {
    if schedule == [] then 0
    else
      var before, last := schedule[..|schedule| - 1], schedule[|schedule| - 1];
      var now, sum := Run(s, before), PublishedBy(s, before);
      if last.Publish? && now.producer.Ready? && sum + last.count <= 32 * now.blocks then sum + last.count else sum
  }

  /** How many elements were claimed: by idle threads, of those published. */
  function ClaimedBy(s: State, schedule: seq<Choice>): nat
    decreases |schedule|
  {
    if schedule == [] then 0
    else
      var before, last := schedule[..|schedule| - 1], schedule[|schedule| - 1];
      var now, sum := Run(s, before), ClaimedBy(s, before);
      if last.Claim? && last.t < |now.pcs| && now.pcs[last.t].Idle? && last.count > 0
         && sum + last.count <= PublishedBy(s, before)
      then sum + last.count else sum
  }

  /** Every publication and claim that can be made is made: the theorems are about all of them. */
  lemma {:induction false} CountsAreTheCallers(threads: nat, schedule: seq<Choice>)
    ensures var s := Run(Init(threads), schedule);
      s.published == PublishedBy(Init(threads), schedule) && s.claimed == ClaimedBy(Init(threads), schedule)
    decreases |schedule|
  {
    if schedule != [] {
      var before, last := schedule[..|schedule| - 1], schedule[|schedule| - 1];
      CountsAreTheCallers(threads, before);
      RunInv(threads, before);
      InvIsWellFormed(Run(Init(threads), before));
      hide Init, Run, Inv, GrowAllowed;
      StepCounts(Run(Init(threads), before), last);
    }
  }

  lemma StepCounts(s: State, c: Choice)
    requires WellFormed(s)
    ensures Step(s, c).published == s.published +
      if c.Publish? && s.producer.Ready? && s.published + c.count <= 32 * s.blocks then c.count else 0
    ensures var enters := c.Claim? && c.t < |s.pcs| && s.pcs[c.t].Idle? && c.count > 0
                          && s.claimed + c.count <= s.published;
      && Step(s, c).claimed == s.claimed + (if enters then c.count else 0)
      && (enters ==> Step(s, c).pcs == s.pcs[c.t := LoadHeader(s.claimed, s.claimed + c.count)])
  {
    hide WellFormed, DoubledIndex, FreshEntries, UndoSlot, Ring;
  }

  /** For every interleaving of one producer and any consumers, across slot reuse, wrap-around and
      doubling and blocks given back: no assertion of the lookup or of the producer ever fails, and the
      lookup of a claimed, uncompleted element ends at the entry that carries its own block's base and that block. */
  lemma LookupsFindTheirBlock(threads: nat, schedule: seq<Choice>, t: nat)
    ensures var s := Run(Init(threads), schedule);
      && !s.producer.ProducerAssertionFailed?
      && (t < |s.pcs| ==>
            && !s.pcs[t].LookupAssertionFailed?
            && (s.pcs[t].Finish? ==> s.pcs[t].block == s.pcs[t].i / BLOCK_SIZE)
            && (s.pcs[t].Check? || s.pcs[t].LoadValue? ==>
                  && s.pcs[t].idx < |Slots(s, s.pcs[t].h)| && Slots(s, s.pcs[t].h)[s.pcs[t].idx] < |s.entries|
                  && s.entries[Slots(s, s.pcs[t].h)[s.pcs[t].idx]]
                     == Entry(Base(s.pcs[t].i / BLOCK_SIZE), s.pcs[t].i / BLOCK_SIZE)))
  {
    RunInv(threads, schedule);
    var s := Run(Init(threads), schedule);
    ProducerNeverFails(s);
    if t < |s.pcs| {
      PcFacts(s, s.pcs[t], t);
      if s.pcs[t].Check? || s.pcs[t].LoadValue? { SlotIsRight(s, t); }
    }
  }

  /** A bound on the steps a consumer still needs: a few per element at most. */
  function StepsLeft(p: Pc): int {
    match p
    case LoadHeader(i, end) => 4 * (end - i) + 8
    case LoadTail(i, end, _) => 4 * (end - i) + 7
    case LoadKey(i, end, _, _, _) => 4 * (end - i) + 6
    case Check(i, end, _, _) => 4 * (end - i) + 5
    case LoadValue(i, end, _, _) => 4 * (end - i) + 4
    case Finish(i, end, _, _, _) => 4 * (end - i) + 3
    case StoreNull(i, end, _, _, _) => 4 * (end - i) + 5
    case _ => 0
  }

  /** Consumers never wait: every step of a consumer brings it nearer to having completed its claim,
      whatever the producer and the other consumers do. */
  lemma EveryStepAdvances(threads: nat, schedule: seq<Choice>, t: nat)
    requires t < |Run(Init(threads), schedule).pcs| && !Run(Init(threads), schedule).pcs[t].Idle?
    ensures var s, s' := Run(Init(threads), schedule), Step(Run(Init(threads), schedule), Go(t));
      && |s'.pcs| == |s.pcs| && !s'.pcs[t].LookupAssertionFailed?
      && 0 <= StepsLeft(s'.pcs[t]) < StepsLeft(s.pcs[t])
      && forall u :: 0 <= u < |s.pcs| && u != t ==> s'.pcs[u] == s.pcs[u]
  {
    RunInv(threads, schedule);
    var s := Run(Init(threads), schedule);
    hide Run, Init;
    InvIsWellFormed(s);
    StepInv(s, Go(t));
    OwnStep(s, t);
    hide Inv;
    StepAdvances(s, t);
  }

  lemma OwnStep(s: State, t: nat)
    requires Inv(s) && Inv(Step(s, Go(t))) && WellFormed(s) && t < |s.pcs|
    ensures PcInv(s, s.pcs[t]) && Counters(s)
    ensures |Step(s, Go(t)).pcs| == |s.pcs| && PcInv(Step(s, Go(t)), Step(s, Go(t)).pcs[t])
  {
    hide HeaderInv, EntriesKept, ProducerInv, BlockInv, PcInv, WellFormed, Counters;
    assert |Step(s, Go(t)).pcs| == |s.pcs|;
    hide Step;
    assert PcInv(s, s.pcs[t]);
    var s' := Step(s, Go(t));
    assert PcInv(s', s'.pcs[t]);
  }

  lemma StepAdvances(s: State, t: nat)
    requires WellFormed(s) && t < |s.pcs| && !s.pcs[t].Idle? && PcInv(s, s.pcs[t]) && Counters(s)
    requires |Step(s, Go(t)).pcs| == |s.pcs| && PcInv(Step(s, Go(t)), Step(s, Go(t)).pcs[t])
    ensures var s' := Step(s, Go(t));
      && !s'.pcs[t].LookupAssertionFailed? && 0 <= StepsLeft(s'.pcs[t]) < StepsLeft(s.pcs[t])
      && forall u :: 0 <= u < |s.pcs| && u != t ==> s'.pcs[u] == s.pcs[u]
  {
    hide Aligned, SlotFromKey, Ring, Base;
    if s.pcs[t].Finish? {
      FinishAdvances(s, t);
    } else {
      hide WellFormed, FinishBlock;
    }
  }

  lemma FinishAdvances(s: State, t: nat)
    requires WellFormed(s) && t < |s.pcs| && s.pcs[t].Finish? && PcInv(s, s.pcs[t]) && Counters(s)
    requires |Step(s, Go(t)).pcs| == |s.pcs| && PcInv(Step(s, Go(t)), Step(s, Go(t)).pcs[t])
    ensures var s' := Step(s, Go(t));
      && !s'.pcs[t].LookupAssertionFailed? && 0 <= StepsLeft(s'.pcs[t]) < StepsLeft(s.pcs[t])
      && forall u :: 0 <= u < |s.pcs| && u != t ==> s'.pcs[u] == s.pcs[u]
  {
    hide Aligned, SlotFromKey, Ring, Base;
    assert s.pcs[t].block < |s.done|;
    hide WellFormed;
  }

  lemma ProducerNeverFails(s: State)
    requires Inv(s)
    ensures !s.producer.ProducerAssertionFailed?
  {
    hide HeaderInv, EntriesKept, BlockInv, PcInv;
  }

  lemma PcFacts(s: State, p: Pc, t: nat)
    requires Inv(s) && t < |s.pcs| && s.pcs[t] == p
    ensures !p.LookupAssertionFailed? && (p.Finish? ==> p.block == p.i / BLOCK_SIZE)
  {
    hide HeaderInv, EntriesKept, BlockInv, ProducerInv;
    assert PcInv(s, p);
  }

  /** A block stays in the index until every one of its elements has been claimed and completed:
      the block of an unclaimed or uncompleted published element is always present. */
  lemma BlocksOutliveTheirElements(threads: nat, schedule: seq<Choice>, j: nat)
    ensures var s := Run(Init(threads), schedule);
      j < s.blocks ==>
        && |s.done| == s.blocks
        && s.done[j] + Total(InFlight, s.pcs, j) + Unclaimed(s.claimed, j) == BLOCK_SIZE
        && (s.done[j] < BLOCK_SIZE ==> Present(s, j))
  {
    RunInv(threads, schedule);
    var s := Run(Init(threads), schedule);
    hide HeaderInv, EntriesKept, ProducerInv, PcInv;
    if j < s.blocks { assert BlockInv(s, j); }
  }

  lemma InvIsWellFormed(s: State)
    requires Inv(s)
    ensures WellFormed(s)
  {
    hide EntriesKept, BlockInv, PcInv, Leads, Ring, PowerOfTwo;
    var last := |s.headers| - 1;
    assert HeaderInv(s, last);
    forall g, x | 0 <= g < |s.headers| && 0 <= x < |s.headers[g].index|
      ensures s.headers[g].index[x] < |s.entries|
    {
      assert HeaderInv(s, g);
    }
    forall g | 0 <= g < |s.headers| ensures s.headers[g].tail < |s.headers[g].index| { assert HeaderInv(s, g); }
  }

  /** One producer step that finds a block when it asks for one. */
  function Next(s: State): State {
    Step(s, ProducerGo(true))
  }

  lemma NextKeeps(s: State)
    requires Inv(s) && GrowAllowed(s)
    ensures WellFormed(s) && Next(s) == ProducerStep(s, true)
    ensures Inv(Next(s)) && GrowAllowed(Next(s))
  {
    hide Inv, GrowAllowed, WellFormed;
    InvIsWellFormed(s);
    StepInv(s, ProducerGo(true));
  }

  /** An insertion that has found or made its slot, left alone and given a block, installs it. */
  lemma InsertInstallsTheBlock(s: State)
    requires Inv(s) && GrowAllowed(s) && s.producer.StoreKey?
    ensures var s' := Next(Next(Next(Next(s))));
      && s'.producer.Ready? && s'.blocks == s.blocks + 1 && Present(s', s.blocks) && s'.published == s.published
  {
    hide Inv, GrowAllowed, WellFormed, Present, Ring;
    NextKeeps(s);
    var s1 := Next(s);
    NextKeeps(s1);
    var s2 := Next(s1);
    NextKeeps(s2);
    var s3 := Next(s2);
    NextKeeps(s3);
    InvIsWellFormed(s);
    InvIsWellFormed(s1);
    InvIsWellFormed(s2);
    InvIsWellFormed(s3);
    hide Next, Step;
    assert s1.producer.StoreTail? && s2.producer.GetBlock? && s3.producer.StoreValue?;
    StoreValueEntries(s3);
  }

  /** A call that finds the next slot taken grows the index, and then the slot is free. */
  lemma GrowingFreesASlot(s: State)
    requires Inv(s) && GrowAllowed(s) && s.producer.Grow?
    ensures Next(s).producer.StoreKey? && |Current(Next(s)).index| == 2 * |Current(s).index|
  {
    hide Ring, PowerOfTwo;
    NextKeeps(s);
    InvIsWellFormed(s);
    GrowProducer(s);
    hide Inv;
  }

  function Steps(s: State, n: nat): State
    decreases n
  {
    if n == 0 then s else Steps(Next(s), n - 1)
  }

  /** The first half of giving back a block, in what it leaves to the second. */
  lemma ClearOne(s: State)
    requires Inv(s) && GrowAllowed(s) && s.producer.UndoClear?
    ensures Inv(Next(s)) && GrowAllowed(Next(s)) && WellFormed(Next(s)) && s.producer.j < s.producer.end
    ensures Next(s) == s.(entries := Next(s).entries, producer := UndoRewind(s.producer.j, s.producer.end))
  {
    assert s.producer.j < s.producer.end;
    hide Inv, GrowAllowed, WellFormed, Ring, UndoSlot;
    NextKeeps(s);
    UndoFindsItsBlock(s);
    InvIsWellFormed(s);
    InvIsWellFormed(Next(s));
  }

  /** One block given back: its entry cleared, then the tail moved back. */
  lemma GiveBackOne(s: State)
    requires Inv(s) && GrowAllowed(s) && s.producer.UndoClear?
    ensures var s', j, end := Next(Next(s)), s.producer.j, s.producer.end;
      && Inv(s') && GrowAllowed(s') && j < end
      && s'.producer == (if j + 1 < end then UndoClear(j + 1, end) else Ready)
      && s'.blocks == s.blocks && s'.pcs == s.pcs && s'.published == s.published && s'.claimed == s.claimed
      && s'.entryOf == s.entryOf && s.headers != [] && s'.headers != [] && Current(s').index == Current(s).index
      && |Current(s).index| > 0 && Current(s').tail == Ring(Current(s).tail - 1, |Current(s).index|)
  {
    hide Inv, GrowAllowed, Ring, Next, UndoSlot, WellFormed;
    ClearOne(s);
    var s1 := Next(s);
    NextKeeps(s1);
    InvIsWellFormed(s);
    RewindOne(s1);
    assert Current(s1) == Current(s);
  }

  /** The second half. */
  lemma RewindOne(s: State)
    requires WellFormed(s) && s.producer.UndoRewind?
    ensures s.headers != [] && |Current(s).index| > 0
    ensures var s', j, end := ProducerStep(s, true), s.producer.j, s.producer.end;
      && s'.producer == (if j + 1 < end then UndoClear(j + 1, end) else Ready)
      && s'.blocks == s.blocks && s'.pcs == s.pcs && s'.published == s.published && s'.claimed == s.claimed
      && s'.entryOf == s.entryOf && s'.headers != [] && Current(s').index == Current(s).index
      && Current(s').tail == Ring(Current(s).tail - 1, |Current(s).index|)
  {
    hide Ring;
  }

  lemma {:induction false} GiveBackRest(s: State, n: nat)
    requires Inv(s) && GrowAllowed(s) && s.producer.UndoClear? && n == s.producer.end - s.producer.j
    ensures var s' := Steps(s, 2 * n);
      && Inv(s') && GrowAllowed(s') && s'.producer.Ready?
      && s'.blocks == s.blocks && s'.pcs == s.pcs && s'.published == s.published && s'.claimed == s.claimed
      && s'.entryOf == s.entryOf && s.headers != [] && s'.headers != [] && Current(s').index == Current(s).index
      && |Current(s).index| > 0 && Current(s').tail == Ring(Current(s).tail - n, |Current(s).index|)
    decreases n
  {
    hide Inv, GrowAllowed, Next, Ring;
    GiveBackOne(s);
    var s' := Next(Next(s));
    assert n >= 1 && Steps(s, 2 * n) == Steps(Next(s), 2 * n - 1) == Steps(s', 2 * (n - 1));
    if n > 1 {
      GiveBackRest(s', n - 1);
      RingAdd(Current(s).tail - 1, 1 - n, |Current(s).index|);
      assert Current(s).tail - 1 + (1 - n) == Current(s).tail - n;
    }
  }

  /** An undo that is left alone gives back every block without a published element: the index and the
      consumers are as before, the blocks' entries are empty, the tail has moved back by as many slots, and
      the next insertion finds its slot without growing the index. */
  lemma UndoGivesBack(s: State, canAlloc: bool)
    requires Inv(s) && GrowAllowed(s) && s.producer.Ready? && FirstUnused(s) < s.blocks
    ensures var s' := Steps(Step(s, Undo), 2 * (s.blocks - FirstUnused(s)));
      && Inv(s') && s'.producer.Ready? && s'.blocks == FirstUnused(s) && s.headers != [] && s'.headers != []
      && Current(s').index == Current(s).index && |Current(s).index| > 0
      && Current(s').tail == Ring(Current(s).tail - (s.blocks - FirstUnused(s)), |Current(s).index|)
      && (forall m :: FirstUnused(s) <= m < s.blocks ==>
            && m < |s'.entryOf| && s'.entryOf[m] == s.entryOf[m] < |s'.entries|
            && s'.entries[s.entryOf[m]].value == NULL)
      && s'.pcs == s.pcs && s'.published == s.published && s'.claimed == s.claimed
      && 32 * (s'.blocks - 1) < s.published <= 32 * s'.blocks
      && Step(s', InsertBlock(canAlloc)).producer.StoreKey?
  {
    hide Inv, GrowAllowed, Step, Steps, WellFormed;
    UndoneIsReady(s);
    var s1 := Step(s, Undo);
    var s' := Steps(s1, 2 * (s.blocks - FirstUnused(s)));
    GiveBackRest(s1, s.blocks - FirstUnused(s));
    ReadyAgain(s', FirstUnused(s), s.blocks, canAlloc);
  }

  lemma UndoneIsReady(s: State)
    requires Inv(s) && GrowAllowed(s) && s.producer.Ready? && FirstUnused(s) < s.blocks
    ensures var s1 := Step(s, Undo);
      && Inv(s1) && GrowAllowed(s1) && s1.producer == UndoClear(FirstUnused(s), s.blocks)
      && s1.blocks == FirstUnused(s) && s1.headers == s.headers && s1.entryOf == s.entryOf
      && s1.pcs == s.pcs && s1.published == s.published && s1.claimed == s.claimed
    ensures s.headers != [] && s.blocks <= |s.entryOf|
  {
    hide HeaderInv, EntriesKept, ProducerInv, BlockInv, PcInv, WellFormed;
    InvIsWellFormed(s);
    StepInv(s, Undo);
  }

  lemma ReadyAgain(s: State, first: nat, end: nat, canAlloc: bool)
    requires Inv(s) && s.producer.Ready? && s.blocks == first < end <= |s.entryOf|
    ensures forall m :: first <= m < end ==> s.entryOf[m] < |s.entries| && s.entries[s.entryOf[m]].value == NULL
    ensures Step(s, InsertBlock(canAlloc)).producer.StoreKey?
  {
    hide BlockInv, PcInv, HeaderInv, EntriesKept;
    InvIsWellFormed(s);
    WaitingEntry(s);
  }

  // ----- Look-ups that run alone, of any index -----------------------------------------------------

  function Alone(s: State, t: nat, k: nat): State {
    if k == 0 then s else Step(Alone(s, t, k - 1), Go(t))
  }

  lemma {:induction false} AloneInv(s: State, t: nat, k: nat)
    requires Inv(s) && GrowAllowed(s)
    ensures Inv(Alone(s, t, k)) && GrowAllowed(Alone(s, t, k))
  {
    hide Inv, GrowAllowed, Step;
    if k > 0 {
      AloneInv(s, t, k - 1);
      StepInv(Alone(s, t, k - 1), Go(t));
    }
  }

  /** What a look-up of a present block reads: the tail slot has the key of the block it stands for, and
      the slot computed from it has the block's own entry. */
  lemma LookupReads(s: State, b: nat)
    requires Inv(s) && Present(s, b)
    ensures b < |s.entryOf| && s.headers != [] && Current(s).count > b && Current(s).tail < |Current(s).index|
    ensures var h := Current(s);
      var idx := Ring(h.tail + b - (h.count - 1), |h.index|);
      && h.index[h.tail] < |s.entries| && s.entries[h.index[h.tail]].key == Base(h.count - 1)
      && PowerOfTwo(|h.index|) && 2 <= |h.index| <= MAX_INDEX_SIZE && h.count - 1 - b < |h.index|
      && h.index[idx] == s.entryOf[b] < |s.entries| && s.entries[s.entryOf[b]] == Entry(Base(b), b)
  {
    hide BlockInv, PcInv, Ring, Base, PowerOfTwo;
    var h, last := Current(s), |s.headers| - 1;
    assert HeaderInv(s, last);
    assert Live(s, b) && b < s.blocks <= h.count <= |s.entryOf|;
    hide Live;
    assert LeadsTo(s, last, b, h.count - 1) && LeadsTo(s, last, b, b);
    RingSmall(h.tail, |h.index|);
    assert SlotOf(h, h.count - 1) == h.tail;
    assert h.tail + b - (h.count - 1) == h.tail + (b - (h.count - 1));
  }

  /** Where a look-up that has come to a block of index i goes on. */
  predicate AtItsBlock(s: State, p: Pc, i: nat, end: nat) {
    && p.Finish? && p == Finish(i, end, p.h, p.idx, i / BLOCK_SIZE) && i / BLOCK_SIZE < |s.entryOf|
    && p.idx < |Slots(s, p.h)| && Slots(s, p.h)[p.idx] == s.entryOf[i / BLOCK_SIZE]
  }

  /** Where a thread goes from p, as long as the memory is that of s. */
  function AfterRead(s: State, p: Pc): Pc
    requires WellFormed(s)
  {
    match p
    case LoadHeader(i, end) => LoadTail(i, end, |s.headers| - 1)
    case LoadTail(i, end, h) =>
      if h < |s.headers| && s.headers[h].count > 0 then LoadKey(i, end, h, s.headers[h].tail, s.headers[h].count - 1)
      else p
    case LoadKey(i, end, h, tail, newest) =>
      if tail < |Slots(s, h)| then AfterKey(i, end, h, tail, s.entries[Slots(s, h)[tail]].key, |Slots(s, h)|) else p
    case Check(i, end, h, idx) =>
      if idx < |Slots(s, h)| then
        var e := s.entries[Slots(s, h)[idx]];
        if e.key == Base(i / BLOCK_SIZE) && e.value != NULL then LoadValue(i, end, h, idx) else LookupAssertionFailed
      else p
    case LoadValue(i, end, h, idx) =>
      if idx < |Slots(s, h)| then Finish(i, end, h, idx, s.entries[Slots(s, h)[idx]].value) else p
    case _ => p
  }

  predicate Reading(p: Pc) {
    p.LoadHeader? || p.LoadTail? || p.LoadKey? || p.Check? || p.LoadValue?
  }

  function Reads(s: State, p: Pc, k: nat): Pc
    requires WellFormed(s)
  {
    if k == 0 then p else AfterRead(s, Reads(s, p, k - 1))
  }

  lemma ReadStep(s: State, t: nat, p: Pc)
    requires WellFormed(s) && t < |s.pcs| && Reading(p)
    ensures Step(At(s, t, p), Go(t)) == At(s, t, AfterRead(s, p))
  {
    var p' := AfterRead(s, p);
    assert s.pcs[t := p][t := p'] == s.pcs[t := p'];
    assert WellFormed(At(s, t, p));
    hide AfterKey, Base, WellFormed;
  }

  /** A look-up that runs alone reads an unchanging memory. */
  lemma {:induction false} AloneReads(s: State, t: nat, p: Pc, k: nat)
    requires WellFormed(s) && t < |s.pcs| && forall j: nat :: j < k ==> Reading(Reads(s, p, j))
    ensures Alone(At(s, t, p), t, k) == At(s, t, Reads(s, p, k))
  {
    hide WellFormed, AfterRead, Step, Reading;
    if k > 0 {
      AloneReads(s, t, p, k - 1);
      ReadStep(s, t, Reads(s, p, k - 1));
    }
  }

  lemma AdvanceBeside(s: State, t: nat, p: Pc)
    requires t < |s.pcs|
    ensures forall i: nat, end: nat, h: nat, idx: nat :: h < |s.headers| && |s.headers[h].index| > 0 ==>
              Advance(At(s, t, p), i, end, h, idx) == Advance(s, i, end, h, idx)
  {
    hide Ring;
  }

  lemma FinishBeside(s: State, t: nat, p: Pc, u: nat)
    requires t < |s.pcs| && u < |s.pcs| && u != t
    ensures s.pcs[u].Finish? ==>
      var q := s.pcs[u];
      0 <= q.block < |s.done| && q.idx < |Slots(s, q.h)| && q.i <= q.end ==>
        && |FinishBlock(s, u, q.i, q.end, q.h, q.idx, q.block).pcs| == |s.pcs|
        && FinishBlock(s, u, q.i, q.end, q.h, q.idx, q.block).pcs
           == s.pcs[u := FinishBlock(s, u, q.i, q.end, q.h, q.idx, q.block).pcs[u]]
        && FinishBlock(At(s, t, p), u, q.i, q.end, q.h, q.idx, q.block)
           == At(FinishBlock(s, u, q.i, q.end, q.h, q.idx, q.block), t, p)
  {
    AdvanceBeside(s, t, p);
    hide Advance, Ring, Min, EndOfBlock;
    var q := s.pcs[u];
    if q.Finish? && 0 <= q.block < |s.done| && q.idx < |Slots(s, q.h)| && q.i <= q.end {
      var q' := FinishBlock(s, u, q.i, q.end, q.h, q.idx, q.block).pcs[u];
      assert s.pcs[t := p][u := q'] == s.pcs[u := q'][t := p];
    }
  }

  lemma ReadsBeside(s: State, t: nat, p: Pc, u: nat)
    requires WellFormed(s) && t < |s.pcs| && u < |s.pcs| && u != t && Reading(s.pcs[u])
    ensures Step(At(s, t, p), Go(u)) == At(Step(s, Go(u)), t, p)
    ensures |Step(s, Go(u)).pcs| == |s.pcs|
  {
    var q := s.pcs[u];
    assert s.pcs[u := q] == s.pcs && s.pcs[t := p][u := q] == s.pcs[t := p];
    assert WellFormed(At(s, t, p)) && AfterRead(At(s, t, p), q) == AfterRead(s, q);
    hide Step, AfterRead, WellFormed, Reading;
    ReadStep(s, u, q);
    ReadStep(At(s, t, p), u, q);
    var q' := AfterRead(s, q);
    assert s.pcs[t := p][u := q'] == s.pcs[u := q'][t := p];
  }

  lemma NullBeside(s: State, t: nat, p: Pc, u: nat)
    requires WellFormed(s) && t < |s.pcs| && u < |s.pcs| && u != t && s.pcs[u].StoreNull?
    ensures Step(At(s, t, p), Go(u)) == At(Step(s, Go(u)), t, p)
    ensures |Step(s, Go(u)).pcs| == |s.pcs|
  {
    assert WellFormed(At(s, t, p));
    AdvanceBeside(s, t, p);
    hide WellFormed, Advance;
    var q' := Step(s, Go(u)).pcs[u];
    assert s.pcs[t := p][u := q'] == s.pcs[u := q'][t := p];
  }

  /** The steps of thread u do not depend on where thread t is, nor change it. */
  lemma OtherStays(s: State, t: nat, p: Pc, u: nat)
    requires t < |s.pcs| && u != t
    ensures |Step(s, Go(u)).pcs| == |s.pcs|
    ensures Step(At(s, t, p), Go(u)) == At(Step(s, Go(u)), t, p)
  {
    assert WellFormed(At(s, t, p)) == WellFormed(s);
    hide WellFormed, AfterKey, Base, FinishBlock, Advance;
    if u < |s.pcs| && WellFormed(s) {
      if Reading(s.pcs[u]) {
        ReadsBeside(s, t, p, u);
      } else if s.pcs[u].StoreNull? {
        NullBeside(s, t, p, u);
      } else {
        FinishBeside(s, t, p, u);
      }
    }
  }

  lemma {:induction false} OthersStay(s: State, t: nat, p: Pc, u: nat, k: nat)
    requires t < |s.pcs| && u != t
    ensures |Alone(s, u, k).pcs| == |s.pcs|
    ensures Alone(At(s, t, p), u, k) == At(Alone(s, u, k), t, p)
  {
    hide Step;
    if k > 0 {
      OthersStay(s, t, p, u, k - 1);
      OtherStays(Alone(s, u, k - 1), t, p, u);
    }
  }

  lemma FiveReads(s: State, p: Pc)
    requires WellFormed(s)
    ensures Reads(s, p, 0) == p && Reads(s, p, 1) == AfterRead(s, p) && Reads(s, p, 2) == AfterRead(s, Reads(s, p, 1))
    ensures Reads(s, p, 3) == AfterRead(s, Reads(s, p, 2)) && Reads(s, p, 4) == AfterRead(s, Reads(s, p, 3))
    ensures Reads(s, p, 5) == AfterRead(s, Reads(s, p, 4))
  {
  }

  lemma FirstReads(s: State, i: nat, end: nat)
    requires WellFormed(s) && s.headers != [] && Current(s).count > 0
    ensures var h, g := Current(s), |s.headers| - 1;
      && AfterRead(s, LoadHeader(i, end)) == LoadTail(i, end, g)
      && AfterRead(s, LoadTail(i, end, g)) == LoadKey(i, end, g, h.tail, h.count - 1)
  {
    hide WellFormed;
  }

  /** The third read computes the slot from the tail's key. */
  lemma KeyReads(s: State, i: nat, end: nat, newest: nat, b: int)
    requires WellFormed(s) && s.headers != [] && b == i / BLOCK_SIZE
    requires var h := Current(s);
      && h.tail < |h.index| && h.index[h.tail] < |s.entries| && s.entries[h.index[h.tail]].key == Base(newest)
      && PowerOfTwo(|h.index|) && 2 <= |h.index| <= MAX_INDEX_SIZE
      && newest - b < |h.index| && b - newest < |h.index|
    ensures var h, g := Current(s), |s.headers| - 1;
      AfterRead(s, LoadKey(i, end, g, h.tail, newest)) == Check(i, end, g, Ring(h.tail + b - newest, |h.index|))
  {
    hide SlotFromKey, Ring, Base, PowerOfTwo, WellFormed;
    var h := Current(s);
    SlotFromKeyExact(h.tail, newest, b, |h.index|);
    BaseIsValid(newest);
  }

  lemma ReadsFind(s: State, i: nat, end: nat)
    requires Inv(s) && WellFormed(s) && Present(s, i / BLOCK_SIZE)
    ensures var p := LoadHeader(i, end);
      AtItsBlock(s, Reads(s, p, 5), i, end) && forall j: nat :: j < 5 ==> Reading(Reads(s, p, j))
  {
    hide Inv, Present, WellFormed, SlotFromKey, Ring, Base, PowerOfTwo;
    var b := i / BLOCK_SIZE;
    LookupReads(s, b);
    var h, p := Current(s), LoadHeader(i, end);
    KeyReads(s, i, end, h.count - 1, b);
    FirstReads(s, i, end);
    FiveReads(s, p);
    hide Reads, AfterKey;
  }

  /** The slot after the tail is free: the next insertion will not grow the index. */
  predicate NextSlotIsFree(s: State) {
    WellFormed(s) && Free(s.entries[Current(s).index[Ring(Current(s).tail + 1, |Current(s).index|)]])
  }

  lemma ReadsFail(s: State, end: nat)
    requires Inv(s) && WellFormed(s) && s.producer.Ready? && s.blocks > 0 && Present(s, s.blocks - 1)
    requires NextSlotIsFree(s)
    ensures var p := LoadHeader(BLOCK_SIZE * s.blocks, end);
      Reads(s, p, 4) == LookupAssertionFailed && forall j: nat :: j < 4 ==> Reading(Reads(s, p, j))
  {
    var n := s.blocks;
    var h, p := Current(s), LoadHeader(BLOCK_SIZE * n, end);
    assert h.count == n && BLOCK_SIZE * n / BLOCK_SIZE == n && h.tail + n - (n - 1) == h.tail + 1;
    hide Inv, Present, WellFormed, SlotFromKey, Ring, Base, PowerOfTwo;
    LookupReads(s, n - 1);
    KeyReads(s, BLOCK_SIZE * n, end, n - 1, n);
    CheckFails(s, BLOCK_SIZE * n, end);
    FirstReads(s, BLOCK_SIZE * n, end);
    FiveReads(s, p);
    hide Reads, AfterRead, NextSlotIsFree;
    assert Reads(s, p, 3) == Check(BLOCK_SIZE * n, end, |s.headers| - 1, Ring(h.tail + 1, |h.index|));
  }

  /** A free entry has no block, or none of the keys. */
  lemma CheckFails(s: State, i: nat, end: nat)
    requires NextSlotIsFree(s)
    ensures WellFormed(s) && |Current(s).index| > 0
    ensures var h := Current(s);
      AfterRead(s, Check(i, end, |s.headers| - 1, Ring(h.tail + 1, |h.index|))) == LookupAssertionFailed
  {
    BaseIsValid(i / BLOCK_SIZE);
    hide Base, Ring;
  }

  /** A look-up of any index, left alone, finds the index's block if it is present, whatever was claimed. */
  lemma LoneLookupFinds(s: State, t: nat, i: nat, end: nat)
    requires Inv(s) && t < |s.pcs| && Present(s, i / BLOCK_SIZE)
    ensures var s0 := At(s, t, LoadHeader(i, end));
      var s5 := Alone(s0, t, 5);
      && |s5.pcs| == |s.pcs| && s5 == At(s, t, s5.pcs[t]) && AtItsBlock(s, s5.pcs[t], i, end)
  {
    InvIsWellFormed(s);
    ReadsFind(s, i, end);
    hide Inv, WellFormed, Present, Reads, Alone;
    AloneReads(s, t, LoadHeader(i, end), 5);
  }

  /** A look-up of the first index that no installed block has fails its assertion. */
  lemma LoneLookupPastTheBlocksFails(s: State, t: nat, end: nat)
    requires Inv(s) && t < |s.pcs| && s.producer.Ready? && s.blocks > 0 && Present(s, s.blocks - 1)
    requires NextSlotIsFree(s)
    ensures var s0 := At(s, t, LoadHeader(BLOCK_SIZE * s.blocks, end));
      |Alone(s0, t, 4).pcs| == |s.pcs| && Alone(s0, t, 4).pcs[t].LookupAssertionFailed?
  {
    InvIsWellFormed(s);
    ReadsFail(s, end);
    var p := LoadHeader(BLOCK_SIZE * s.blocks, end);
    hide Inv, WellFormed, Present, Reads, Alone;
    AloneReads(s, t, p, 4);
  }

  /** A whole insertion that gets a block when it asks for one, left alone: it installs the block exactly
      when the slot after the tail is free or the index may and can be doubled, and else changes nothing. */
  lemma LoneInsertInstallsIff(s: State, canAlloc: bool)
    requires Inv(s) && GrowAllowed(s) && s.producer.Ready?
    ensures s.headers != [] && WellFormed(s)
    ensures var s' := Steps(Step(s, InsertBlock(canAlloc)), 5);
      if NextSlotIsFree(s) || (canAlloc && 2 * |Current(s).index| <= 0x400_0000_0000_0000) then
        s'.producer.Ready? && s'.blocks == s.blocks + 1 && Present(s', s.blocks) && s'.published == s.published
      else s' == s
  {
    InvIsWellFormed(s);
    StepInv(s, InsertBlock(canAlloc));
    InsertStarts(s, canAlloc);
    var s1 := Step(s, InsertBlock(canAlloc));
    hide *;
    FiveSteps(s1);
    if s1.producer.StoreKey? {
      InsertInstallsTheBlock(s1);
      ReadyStays(Next(Next(Next(Next(s1)))));
    } else if s1.producer.Grow? {
      GrowingFreesASlot(s1);
      NextKeeps(s1);
      GrowKeepsCounts(s1);
      InsertInstallsTheBlock(Next(s1));
    } else {
      ReadyStays(s);
    }
  }

  /** An insertion that gets no block and is left alone gives its slot back: the tail is where it was, the
      slot after it is free again, and nothing else has changed. */
  lemma FailedInsertGivesBack(s: State)
    requires Inv(s) && GrowAllowed(s) && s.producer.GetBlock?
    ensures s.headers != [] && |Current(s).index| > 0
    ensures var s' := Next(Next(Step(s, ProducerGo(false))));
      && Inv(s') && s'.producer.Ready? && NextSlotIsFree(s')
      && s'.blocks == s.blocks && s'.done == s.done && s'.pcs == s.pcs
      && s'.published == s.published && s'.claimed == s.claimed
      && Current(s').index == Current(s).index && Current(s').tail == Ring(Current(s).tail - 1, |Current(s).index|)
  {
    hide *;
    InvIsWellFormed(s);
    HeldSlotIsTail(s);
    NoBlock(s);
    StepInv(s, ProducerGo(false));
    var s1 := Step(s, ProducerGo(false));
    NextKeeps(s1);
    NextKeeps(Next(s1));
    InvIsWellFormed(Next(Next(s1)));
    RewoundIsFree(s1, Next(Next(s1)));
  }

  lemma NoBlock(s: State)
    requires WellFormed(s) && s.producer.GetBlock?
    ensures Step(s, ProducerGo(false)) == s.(producer := Rewind(s.producer.slot))
    ensures Current(Step(s, ProducerGo(false))) == Current(s)
  {
  }

  lemma HeldSlotIsTail(s: State)
    requires Inv(s) && s.producer.GetBlock?
    ensures s.headers != [] && s.producer.slot == Current(s).tail < |Current(s).index|
  {
  }

  lemma RewoundIsFree(s1: State, s3: State)
    requires WellFormed(s1) && s1.producer.Rewind? && s1.producer.slot == Current(s1).tail && WellFormed(s3)
    requires WellFormed(ProducerStep(s1, true)) && s3 == ProducerStep(ProducerStep(s1, true), true)
    ensures s3.producer.Ready? && NextSlotIsFree(s3)
    ensures s3.blocks == s1.blocks && s3.done == s1.done && s3.pcs == s1.pcs
    ensures s3.published == s1.published && s3.claimed == s1.claimed
    ensures Current(s3).index == Current(s1).index
    ensures Current(s3).tail == Ring(Current(s1).tail - 1, |Current(s1).index|)
  {
    var h := Current(s1);
    RingAdd(h.tail - 1, 1, |h.index|);
    RingSmall(h.tail, |h.index|);
  }

  lemma InsertStarts(s: State, canAlloc: bool)
    requires WellFormed(s) && s.producer.Ready?
    ensures var s1 := Step(s, InsertBlock(canAlloc));
      && s1.blocks == s.blocks && s1.published == s.published
      && (s1.producer.StoreKey? <==> NextSlotIsFree(s))
      && (s1.producer.Grow? <==> !NextSlotIsFree(s) && canAlloc && 2 * |Current(s).index| <= MAX_INDEX_SIZE)
      && (!s1.producer.StoreKey? && !s1.producer.Grow? ==> s1 == s)
  {
    hide Ring;
  }

  lemma FiveSteps(s: State)
    ensures Steps(s, 5) == Next(Next(Next(Next(Next(s)))))
  {
    hide Next;
    assert Steps(s, 5) == Steps(Next(s), 4);
    FourSteps(Next(s));
  }

  lemma ReadyStays(s: State)
    requires s.producer.Ready?
    ensures Next(s) == s && Next(Next(Next(Next(Next(s))))) == s
  {
  }

  lemma GrowKeepsCounts(s: State)
    requires WellFormed(s) && s.producer.Grow?
    ensures Next(s).blocks == s.blocks && Next(s).published == s.published
  {
  }

  /** What the first insertion leaves alone. */
  predicate FirstKept(s: State, threads: nat) {
    && |s.headers| == 1 && |s.headers[0].index| == 32 == |s.entries| && s.headers[0].index[1] == 1
    && s.entries[1].key == INVALID_BLOCK_BASE && s.published == s.claimed == 0 && s.pcs == seq(threads, i => Idle)
  }

  lemma FirstNext(s: State, threads: nat)
    requires Inv(s) && GrowAllowed(s) && FirstKept(s, threads) && s.headers[0].index[0] == 0
    requires s.producer in {StoreKey(0), StoreTail(0), GetBlock(0), StoreValue(0)}
    ensures var s' := Next(s);
      && Inv(s') && GrowAllowed(s') && FirstKept(s', threads) && s'.headers[0].index[0] == 0
      && (s.producer.StoreKey? ==> s'.producer == StoreTail(0) && s'.blocks == s.blocks)
      && (s.producer.StoreTail? ==> s'.producer == GetBlock(0) && s'.blocks == s.blocks && s'.headers[0].tail == 0)
      && (s.producer.GetBlock? ==> s'.producer == StoreValue(0) && s'.blocks == s.blocks && s'.headers == s.headers)
      && (s.producer.StoreValue? ==> s'.producer == Ready && s'.blocks == s.blocks + 1 && s'.headers == s.headers)
  {
    hide Inv, GrowAllowed, WellFormed, Base, Ring, Next;
    NextKeeps(s);
  }

  /** The first insertion, step by step. */
  lemma FirstBlock(threads: nat)
    ensures var s := Steps(Step(Init(threads), InsertBlock(true)), 4);
      && s.producer.Ready? && s.blocks == 1 && s.published == s.claimed == 0 && s.pcs == Init(threads).pcs
      && NextSlotIsFree(s)
  {
    FirstSlot(threads);
    var s1 := Init(threads).(producer := StoreKey(0));
    assert s1.blocks == 0;
    hide *;
    FourSteps(s1);
    FirstNext(s1, threads);
    var s2 := Next(s1);
    FirstNext(s2, threads);
    var s3 := Next(s2);
    FirstNext(s3, threads);
    var s4 := Next(s3);
    FirstNext(s4, threads);
    var s5 := Next(s4);
    InvIsWellFormed(s5);
    FirstIsInstalled(s5, threads);
  }

  lemma FirstIsInstalled(s: State, threads: nat)
    requires WellFormed(s) && FirstKept(s, threads) && s.headers[0].tail == 0
    ensures NextSlotIsFree(s) && s.published == s.claimed == 0 && s.pcs == Init(threads).pcs
  {
    RingSmall(1, 32);
  }

  lemma FourSteps(s: State)
    ensures Steps(s, 4) == Next(Next(Next(Next(s))))
  {
    hide Next;
    assert Steps(s, 4) == Steps(Next(s), 3) == Steps(Next(Next(s)), 2) == Steps(Next(Next(Next(s))), 1);
  }

  lemma FirstSlot(threads: nat)
    ensures var s1 := Step(Init(threads), InsertBlock(true));
      && s1 == Init(threads).(producer := StoreKey(0)) && Inv(s1) && GrowAllowed(s1)
      && FirstKept(s1, threads) && s1.headers[0].index[0] == 0
  {
    var s0 := Init(threads);
    InitInv(threads);
    InvIsWellFormed(s0);
    hide Inv, GrowAllowed, WellFormed;
    StepInv(s0, InsertBlock(true));
    RingSmall(0, 32);
    RingLap(0, 32);
  }

  // ----- The copy loop ---------------------------------------------------------------------------------

  /** Where the copy stands after i entries, and that it is back at the tail only after a full lap. */
  lemma CopyPosition(tail: nat, i: nat, c: nat)
    requires tail < c && i < c
    ensures Ring(Ring(tail + i, c) + 1, c) == Ring(tail + i + 1, c)
    ensures Ring(tail + i + 1, c) == tail <==> i + 1 == c
  {
    hide Ring;
    RingAdd(tail + i, 1, c);
    RingSmall(tail, c);
    if i + 1 == c {
      RingLap(tail, c);
    } else {
      RingDistinct(tail + i + 1, tail, c);
    }
  }

  /** The loop of `new_block_index` that lays out the successor index. */
  method CopyIndex(prev: array<nat>, prevTail: nat, firstNew: nat) returns (index: array<nat>)
    requires prevTail < prev.Length
    ensures fresh(index) && index[..] == DoubledIndex(prev[..], prevTail, firstNew)
  {
    var capacity := prev.Length;
    ghost var want := DoubledIndex(prev[..], prevTail, firstNew);
    index := new nat[2 * capacity];
    var prevPos := prevTail;
    var i := 0;
    var more := true;
    RingSmall(prevTail, capacity);
    while more
      invariant 0 <= i <= capacity && prevPos == Ring(prevTail + i, capacity)
      invariant more <==> i < capacity
      invariant forall x :: 0 <= x < i ==> index[x] == want[x]
      decreases capacity - i
    {
      CopyPosition(prevTail, i, capacity);
      prevPos := Ring(prevPos + 1, capacity);
      index[i] := prev[prevPos];
      i := i + 1;
      more := prevPos != prevTail;
    }
    var n := capacity;
    while n < 2 * capacity
      invariant capacity <= n <= 2 * capacity
      invariant forall x :: 0 <= x < n ==> index[x] == want[x]
    {
      index[n] := firstNew + (n - capacity);
      n := n + 1;
    }
  }
}
