/** CustomMPMCLockFreeQueue: a ring of cells with per-cell sequence numbers, shared by any
    number of producers and consumers, as a system of atomic steps.

    Positions are unbounded; `pos & mask_` is `pos % capacity` for the power-of-two
    capacities the constructor accepts. */
module MpmcQueue {
  import opened Words

  type Elem = int

  datatype Cell = Cell(seqno: int, data: Elem)

  /** The next atomic access of a thread, with the locals it needs. */
  datatype Pc =
    | Idle
    | EnqLoadSeq(v: Elem, pos: nat)
    | EnqReload(v: Elem)
    | EnqCas(v: Elem, pos: nat)
    | EnqWrite(v: Elem, pos: nat)
    | EnqPublish(pos: nat)
    | DeqLoadSeq(pos: nat)
    | DeqReload
    | DeqCas(pos: nat)
    | DeqRead(pos: nat)
    | DeqPublish(pos: nat, v: Elem)
    | Enqueued(ok: bool)
    | DequeuedNull
    | Dequeued(pos: nat, v: Elem)

  /** `cells`, `head` and `tail` are the shared memory. `items[p]` records the value whose enqueue
      claimed position p and `returned` the value a finished dequeue of p gave back; no step reads them. */
  datatype State = State(cells: seq<Cell>, head: nat, tail: nat, pcs: seq<Pc>,
                         items: seq<Elem>, returned: map<nat, Elem>)

  /** `spurious` lets a weak compare-exchange fail although the values agree. */
  datatype Choice = CallEnqueue(t: nat, v: Elem) | CallDequeue(t: nat) | Go(t: nat, spurious: bool)

  function Init(capacity: nat, threads: nat): State {
    State(seq(capacity, i => Cell(i, 0)), 0, 0, seq(threads, i => Idle), [], map[])
  }

  predicate Finished(p: Pc) {
    p.Idle? || p.Enqueued? || p.DequeuedNull? || p.Dequeued?
  }

  function At(s: State, t: nat, p: Pc): State
    requires t < |s.pcs|
  {
    s.(pcs := s.pcs[t := p])
  }

  function CellAt(s: State, pos: nat): Cell
    requires |s.cells| > 0
  {
    s.cells[pos % |s.cells|]
  }

  function Store(s: State, pos: nat, c: Cell): State
    requires |s.cells| > 0
  {
    s.(cells := s.cells[pos % |s.cells| := c])
  }

  function Step(s: State, c: Choice): State {
    if c.t >= |s.pcs| || |s.cells| == 0 then s else
    match c
    case CallEnqueue(t, v) => if Finished(s.pcs[t]) then At(s, t, EnqLoadSeq(v, s.tail)) else s
    case CallDequeue(t) => if Finished(s.pcs[t]) then At(s, t, DeqLoadSeq(s.head)) else s
    case Go(t, spurious) => ThreadStep(s, t, spurious)
  }

  function ThreadStep(s: State, t: nat, spurious: bool): State
    requires t < |s.pcs| && |s.cells| > 0
  {
    match s.pcs[t]
    case EnqLoadSeq(v, pos) =>
      var diff := CellAt(s, pos).seqno - pos;
      At(s, t, if diff == 0 then EnqCas(v, pos) else if diff < 0 then Enqueued(false) else EnqReload(v))
    case EnqReload(v) => At(s, t, EnqLoadSeq(v, s.tail))
    case EnqCas(v, pos) =>
      if !spurious && s.tail == pos then
        At(s.(tail := pos + 1, items := s.items + [v]), t, EnqWrite(v, pos))
      else At(s, t, EnqLoadSeq(v, s.tail))
    case EnqWrite(v, pos) => At(Store(s, pos, CellAt(s, pos).(data := v)), t, EnqPublish(pos))
    case EnqPublish(pos) => At(Store(s, pos, CellAt(s, pos).(seqno := pos + 1)), t, Enqueued(true))
    case DeqLoadSeq(pos) =>
      var diff := CellAt(s, pos).seqno - (pos + 1);
      At(s, t, if diff == 0 then DeqCas(pos) else if diff < 0 then DequeuedNull else DeqReload)
    case DeqReload => At(s, t, DeqLoadSeq(s.head))
    case DeqCas(pos) =>
      if !spurious && s.head == pos then At(s.(head := pos + 1), t, DeqRead(pos))
      else At(s, t, DeqLoadSeq(s.head))
    case DeqRead(pos) => At(s, t, DeqPublish(pos, CellAt(s, pos).data))
    case DeqPublish(pos, v) =>
      At(Store(s, pos, CellAt(s, pos).(seqno := pos + |s.cells|)).(returned := s.returned[pos := v]),
         t, Dequeued(pos, v))
    case _ => s
  }

  function Run(s: State, schedule: seq<Choice>): State
    decreases |schedule|
  {
    if schedule == [] then s else Step(Run(s, schedule[..|schedule| - 1]), schedule[|schedule| - 1])
  }

  // ----- Positions in the hands of a thread ---------------------------------------------

  /** `Filling`: claimed for enqueue, cell not yet published. `Draining`: claimed for dequeue,
      cell not yet released. */
  datatype Kind = Filling | Draining

  function Weight(k: Kind, p: Pc, pos: int): nat {
    match k
    case Filling => if (p.EnqWrite? || p.EnqPublish?) && p.pos == pos then 1 else 0
    case Draining => if (p.DeqRead? || p.DeqPublish?) && p.pos == pos then 1 else 0
  }

  function Total(k: Kind, pcs: seq<Pc>, pos: int): nat {
    if pcs == [] then 0 else Weight(k, pcs[|pcs| - 1], pos) + Total(k, pcs[..|pcs| - 1], pos)
  }

  lemma {:induction false} TotalUpdate(k: Kind, pcs: seq<Pc>, t: nat, p: Pc, pos: int)
    requires t < |pcs|
    ensures Total(k, pcs[t := p], pos) == Total(k, pcs, pos) - Weight(k, pcs[t], pos) + Weight(k, p, pos)
  {
    var m := |pcs| - 1;
    if t == m {
      assert pcs[t := p][..m] == pcs[..m];
    } else {
      assert pcs[t := p][..m] == pcs[..m][t := p];
      TotalUpdate(k, pcs[..m], t, p, pos);
    }
  }

  lemma {:induction false} TotalAtLeast(k: Kind, pcs: seq<Pc>, t: nat, pos: int)
    requires t < |pcs|
    ensures Weight(k, pcs[t], pos) <= Total(k, pcs, pos)
  {
    if t < |pcs| - 1 { TotalAtLeast(k, pcs[..|pcs| - 1], t, pos); }
  }

  predicate AllFinished(pcs: seq<Pc>) {
    forall t :: 0 <= t < |pcs| ==> Finished(pcs[t])
  }

  lemma {:induction false} TotalFinished(k: Kind, pcs: seq<Pc>, pos: int)
    requires AllFinished(pcs)
    ensures Total(k, pcs, pos) == 0
  {
    if pcs != [] { TotalFinished(k, pcs[..|pcs| - 1], pos); }
  }

  lemma {:induction false} TotalAtLeastTwo(k: Kind, pcs: seq<Pc>, t: nat, u: nat, pos: int)
    requires t < u < |pcs|
    ensures Weight(k, pcs[t], pos) + Weight(k, pcs[u], pos) <= Total(k, pcs, pos)
  {
    if u < |pcs| - 1 { TotalAtLeastTwo(k, pcs[..|pcs| - 1], t, u, pos); }
    else { TotalAtLeast(k, pcs[..|pcs| - 1], t, pos); }
  }

  lemma {:induction false} TotalZero(k: Kind, pcs: seq<Pc>, pos: int)
    requires forall t :: 0 <= t < |pcs| ==> Weight(k, pcs[t], pos) == 0
    ensures Total(k, pcs, pos) == 0
  {
    if pcs != [] { TotalZero(k, pcs[..|pcs| - 1], pos); }
  }

  // ----- The invariant ---------------------------------------------------------------------

  /** A position claimed for enqueue and not for dequeue: being filled, or full with its value. */
  predicate FullSlot(s: State, p: nat)
    requires |s.cells| > 0 && p < |s.items|
  {
    && (if Total(Filling, s.pcs, p) == 1 then CellAt(s, p).seqno == p
        else Total(Filling, s.pcs, p) == 0 && CellAt(s, p) == Cell(p + 1, s.items[p]))
  }

  /** A position the ring has room for: its cell is being drained of the previous lap, or free. */
  predicate FreeSlot(s: State, p: nat)
    requires |s.cells| > 0
  {
    var previous := p - |s.cells|;
    && (if Total(Draining, s.pcs, previous) == 1 then previous >= 0 && CellAt(s, p).seqno == previous + 1
        else Total(Draining, s.pcs, previous) == 0 && CellAt(s, p).seqno == p)
  }

  predicate PcInv(s: State, p: Pc)
    requires |s.cells| > 0
  {
    match p
    case EnqCas(v, pos) => CellAt(s, pos).seqno >= pos
    case EnqWrite(v, pos) => s.head <= pos < s.tail == |s.items| && s.items[pos] == v
    case EnqPublish(pos) => s.head <= pos < s.tail == |s.items| && CellAt(s, pos).data == s.items[pos]
    case DeqCas(pos) => CellAt(s, pos).seqno >= pos + 1
    case DeqRead(pos) =>
      s.tail - |s.cells| <= pos < s.head <= s.tail == |s.items| && CellAt(s, pos) == Cell(pos + 1, s.items[pos])
    case DeqPublish(pos, v) =>
      s.tail - |s.cells| <= pos < s.head <= s.tail == |s.items| && CellAt(s, pos) == Cell(pos + 1, v)
      && v == s.items[pos]
    case Dequeued(pos, v) => pos < s.head <= |s.items| && v == s.items[pos]
    case _ => true
  }

  ghost predicate Inv(s: State) {
    && |s.cells| >= 2
    && s.head <= s.tail <= s.head + |s.cells|
    && s.tail == |s.items|
    && (forall p: nat :: s.head <= p < s.tail ==> FullSlot(s, p))
    && (forall p: nat :: s.tail <= p < s.head + |s.cells| ==> FreeSlot(s, p))
    && (forall t :: 0 <= t < |s.pcs| ==> PcInv(s, s.pcs[t]))
    && (forall p: nat :: p in s.returned ==> p < s.head && s.returned[p] == s.items[p])
    && (forall p: nat :: p < s.head ==> Total(Draining, s.pcs, p) == if p in s.returned then 0 else 1)
  }

  lemma InitInv(capacity: nat, threads: nat)
    requires capacity >= 2
    ensures Inv(Init(capacity, threads))
  {
    var s := Init(capacity, threads);
    assert AllFinished(s.pcs);
    forall p: nat | p < capacity ensures FreeSlot(s, p) {
      TotalFinished(Draining, s.pcs, p - capacity);
      DivModUnique(p, capacity, 0, p);
    }
    hide FreeSlot, FullSlot, Total;
  }

  // ----- Preservation -----------------------------------------------------------------------

  /** Both totals at a position after thread `t` moves to `p`. */
  lemma Totals(s: State, t: nat, p: Pc, pos: int)
    requires t < |s.pcs|
    ensures forall k ::
      Total(k, s.pcs[t := p], pos) == Total(k, s.pcs, pos) - Weight(k, s.pcs[t], pos) + Weight(k, p, pos)
    ensures forall k :: Weight(k, s.pcs[t], pos) <= Total(k, s.pcs, pos)
  {
    forall k
      ensures Total(k, s.pcs[t := p], pos) == Total(k, s.pcs, pos) - Weight(k, s.pcs[t], pos) + Weight(k, p, pos)
      ensures Weight(k, s.pcs[t], pos) <= Total(k, s.pcs, pos)
    {
      TotalUpdate(k, s.pcs, t, p, pos);
      TotalAtLeast(k, s.pcs, t, pos);
    }
  }

  /** Threads only hold positions between head and tail (filling) or before head (draining). */
  lemma Outside(s: State, p: int)
    requires Inv(s)
    ensures (p < s.head || p >= s.tail) ==> Total(Filling, s.pcs, p) == 0
    ensures (p < s.tail - |s.cells| || p >= s.head) ==> Total(Draining, s.pcs, p) == 0
  {
    hide FullSlot, FreeSlot;
    forall t | 0 <= t < |s.pcs|
      ensures (p < s.head || p >= s.tail) ==> Weight(Filling, s.pcs[t], p) == 0
      ensures (p < s.tail - |s.cells| || p >= s.head) ==> Weight(Draining, s.pcs[t], p) == 0
    {
      assert PcInv(s, s.pcs[t]);
    }
    if p < s.head || p >= s.tail { TotalZero(Filling, s.pcs, p); }
    if p < s.tail - |s.cells| || p >= s.head { TotalZero(Draining, s.pcs, p); }
  }

  /** Positions less than a lap apart use different cells. */
  lemma OtherCell(s: State, p: nat, q: nat)
    requires |s.cells| > 0 && p != q && p - q < |s.cells| && q - p < |s.cells|
    ensures p % |s.cells| != q % |s.cells|
  {
    ModDistinct(p, q, |s.cells|);
  }

  /** Steps that change no shared memory and hold the same positions. */
  lemma LocalKeeps(s: State, t: nat, p: Pc)
    requires Inv(s) && t < |s.pcs| && PcInv(s, p)
    requires forall k, pos :: Weight(k, p, pos) == Weight(k, s.pcs[t], pos)
    ensures Inv(At(s, t, p))
  {
    hide Total, Weight;
    var s' := At(s, t, p);
    forall k, pos ensures Total(k, s'.pcs, pos) == Total(k, s.pcs, pos) { TotalUpdate(k, s.pcs, t, p, pos); }
    forall u | 0 <= u < |s'.pcs| ensures PcInv(s', s'.pcs[u]) { assert PcInv(s, s.pcs[u]); }
    forall p: nat | s.head <= p < s.tail ensures FullSlot(s', p) { assert FullSlot(s, p); }
    forall p: nat | s.tail <= p < s.head + |s.cells| ensures FreeSlot(s', p) { assert FreeSlot(s, p); }
  }

  /** A producer whose compare-exchange succeeds finds the cell free: the sequence number it saw
      earlier can only have grown, and a full ring or a cell being drained would show a smaller one. */
  lemma RoomAtTail(s: State)
    requires Inv(s) && CellAt(s, s.tail).seqno >= s.tail
    ensures s.tail < s.head + |s.cells| && CellAt(s, s.tail).seqno == s.tail
    ensures Total(Draining, s.pcs, s.tail - |s.cells|) == 0
  {
    if s.tail == s.head + |s.cells| {
      assert FullSlot(s, s.head);
      ModAdd(s.head, |s.cells|, |s.cells|);
      WrapCell(s, s.head);
    } else {
      assert FreeSlot(s, s.tail);
    }
  }

  /** One lap later the cell is the same. */
  lemma WrapCell(s: State, p: nat)
    requires |s.cells| > 0
    ensures CellAt(s, p + |s.cells|) == CellAt(s, p)
  {
    var c := |s.cells|;
    DivModUnique(p + c, c, p / c + 1, p % c);
  }

  lemma ItemAtHead(s: State)
    requires Inv(s) && CellAt(s, s.head).seqno >= s.head + 1
    ensures s.head < s.tail && Total(Filling, s.pcs, s.head) == 0
    ensures CellAt(s, s.head) == Cell(s.head + 1, s.items[s.head])
  {
    assert s.head < s.tail ==> FullSlot(s, s.head);
    assert s.head == s.tail ==> FreeSlot(s, s.head);
  }

  lemma EnqCasKeeps(s: State, t: nat)
    requires Inv(s) && t < |s.pcs| && s.pcs[t].EnqCas? && s.pcs[t].pos == s.tail
    ensures Inv(ThreadStep(s, t, false))
  {
    hide Total;
    var s' := ThreadStep(s, t, false);
    var n := s.tail;
    assert PcInv(s, s.pcs[t]);
    RoomAtTail(s);
    forall p: nat | s.head <= p < s'.tail ensures FullSlot(s', p) {
      Totals(s, t, s'.pcs[t], p);
      Outside(s, p);
      if p < n { assert FullSlot(s, p); }
    }
    forall p: nat | s'.tail <= p < s.head + |s.cells| ensures FreeSlot(s', p) {
      Totals(s, t, s'.pcs[t], p);
      Totals(s, t, s'.pcs[t], p - |s.cells|);
      assert FreeSlot(s, p);
    }
    forall u | 0 <= u < |s'.pcs| ensures PcInv(s', s'.pcs[u]) {
      assert PcInv(s, s.pcs[u]);
      TotalAtLeast(Draining, s.pcs, u, n - |s.cells|);
    }
    forall p: nat | p < s'.head ensures Total(Draining, s'.pcs, p) == if p in s'.returned then 0 else 1 {
      Totals(s, t, s'.pcs[t], p);
    }
  }

  lemma EnqWriteKeeps(s: State, t: nat)
    requires Inv(s) && t < |s.pcs| && s.pcs[t].EnqWrite?
    ensures Inv(ThreadStep(s, t, false))
  {
    hide Total;
    var s' := ThreadStep(s, t, false);
    var n := s.pcs[t].pos;
    assert PcInv(s, s.pcs[t]);
    TotalAtLeast(Filling, s.pcs, t, n);
    assert FullSlot(s, n);
    forall k, pos ensures Total(k, s'.pcs, pos) == Total(k, s.pcs, pos) { TotalUpdate(k, s.pcs, t, s'.pcs[t], pos); }
    forall p: nat | s.head <= p < s.tail ensures FullSlot(s', p) {
      assert FullSlot(s, p);
      if p != n { OtherCell(s, p, n); }
    }
    forall p: nat | s.tail <= p < s.head + |s.cells| ensures FreeSlot(s', p) {
      assert FreeSlot(s, p);
      OtherCell(s, p, n);
    }
    forall u | 0 <= u < |s'.pcs| ensures PcInv(s', s'.pcs[u]) {
      assert PcInv(s, s.pcs[u]);
      if u != t && (s.pcs[u].EnqPublish? || s.pcs[u].DeqRead? || s.pcs[u].DeqPublish?) && s.pcs[u].pos != n {
        OtherCell(s, s.pcs[u].pos, n);
      }
    }
  }

  lemma EnqPublishKeeps(s: State, t: nat)
    requires Inv(s) && t < |s.pcs| && s.pcs[t].EnqPublish?
    ensures Inv(ThreadStep(s, t, false))
  {
    hide Total;
    var s' := ThreadStep(s, t, false);
    var n := s.pcs[t].pos;
    assert PcInv(s, s.pcs[t]);
    TotalAtLeast(Filling, s.pcs, t, n);
    assert FullSlot(s, n);
    forall p: nat | s.head <= p < s.tail ensures FullSlot(s', p) {
      assert FullSlot(s, p);
      Totals(s, t, s'.pcs[t], p);
      if p != n { OtherCell(s, p, n); }
    }
    forall p: nat | s.tail <= p < s.head + |s.cells| ensures FreeSlot(s', p) {
      assert FreeSlot(s, p);
      Totals(s, t, s'.pcs[t], p - |s.cells|);
      OtherCell(s, p, n);
    }
    forall u | 0 <= u < |s'.pcs| ensures PcInv(s', s'.pcs[u]) {
      assert PcInv(s, s.pcs[u]);
      if u != t && (s.pcs[u].DeqRead? || s.pcs[u].DeqPublish?) { OtherCell(s, s.pcs[u].pos, n); }
    }
    forall p: nat | p < s'.head ensures Total(Draining, s'.pcs, p) == if p in s'.returned then 0 else 1 {
      Totals(s, t, s'.pcs[t], p);
    }
  }

  lemma DeqCasKeeps(s: State, t: nat)
    requires Inv(s) && t < |s.pcs| && s.pcs[t].DeqCas? && s.pcs[t].pos == s.head
    ensures Inv(ThreadStep(s, t, false))
  {
    hide Total;
    var s' := ThreadStep(s, t, false);
    var n := s.head;
    assert PcInv(s, s.pcs[t]);
    ItemAtHead(s);
    forall p: nat | s'.head <= p < s.tail ensures FullSlot(s', p) {
      assert FullSlot(s, p);
      Totals(s, t, s'.pcs[t], p);
    }
    forall p: nat | s.tail <= p < s'.head + |s.cells| ensures FreeSlot(s', p) {
      Totals(s, t, s'.pcs[t], p - |s.cells|);
      if p == n + |s.cells| {
        WrapCell(s, n);
        Outside(s, n);
      } else {
        assert FreeSlot(s, p);
      }
    }
    forall u | 0 <= u < |s'.pcs| ensures PcInv(s', s'.pcs[u]) {
      assert PcInv(s, s.pcs[u]);
      TotalAtLeast(Filling, s.pcs, u, n);
    }
    forall p: nat | p < s'.head ensures Total(Draining, s'.pcs, p) == if p in s'.returned then 0 else 1 {
      Totals(s, t, s'.pcs[t], p);
      Outside(s, p);
    }
  }

  lemma DeqPublishKeeps(s: State, t: nat)
    requires Inv(s) && t < |s.pcs| && s.pcs[t].DeqPublish?
    ensures s.pcs[t].pos !in s.returned
    ensures Inv(ThreadStep(s, t, false))
  {
    hide Total;
    var s' := ThreadStep(s, t, false);
    var n := s.pcs[t].pos;
    assert PcInv(s, s.pcs[t]);
    TotalAtLeast(Draining, s.pcs, t, n);
    forall p: nat | s.head <= p < s.tail ensures FullSlot(s', p) {
      assert FullSlot(s, p);
      Totals(s, t, s'.pcs[t], p);
      OtherCell(s, p, n);
    }
    forall p: nat | s.tail <= p < s.head + |s.cells| ensures FreeSlot(s', p) {
      assert FreeSlot(s, p);
      Totals(s, t, s'.pcs[t], p - |s.cells|);
      if p == n + |s.cells| {
        WrapCell(s', n);
      } else {
        WrapCell(s, n);
        OtherCell(s, p, n + |s.cells|);
        SameCell(s, n);
      }
    }
    forall u | 0 <= u < |s'.pcs| ensures PcInv(s', s'.pcs[u]) {
      assert PcInv(s, s.pcs[u]);
      if u != t && (s.pcs[u].DeqRead? || s.pcs[u].DeqPublish?) {
        if u < t { TotalAtLeastTwo(Draining, s.pcs, u, t, n); } else { TotalAtLeastTwo(Draining, s.pcs, t, u, n); }
        OtherCell(s, s.pcs[u].pos, n);
      }
      if u != t && s.pcs[u].EnqPublish? { OtherCell(s, s.pcs[u].pos, n); }
    }
    forall p: nat | p < s'.head ensures Total(Draining, s'.pcs, p) == if p in s'.returned then 0 else 1 {
      Totals(s, t, s'.pcs[t], p);
    }
  }

  lemma SameCell(s: State, p: nat)
    requires |s.cells| > 0
    ensures (p + |s.cells|) % |s.cells| == p % |s.cells|
  {
    var c := |s.cells|;
    DivModUnique(p + c, c, p / c + 1, p % c);
  }

  lemma StepInv(s: State, c: Choice)
    requires Inv(s)
    ensures Inv(Step(s, c))
  {
    hide FullSlot, FreeSlot, Total;
    if c.t < |s.pcs| {
      assert PcInv(s, s.pcs[c.t]);
      match c
      case CallEnqueue(t, v) => if Finished(s.pcs[t]) { LocalKeeps(s, t, EnqLoadSeq(v, s.tail)); }
      case CallDequeue(t) => if Finished(s.pcs[t]) { LocalKeeps(s, t, DeqLoadSeq(s.head)); }
      case Go(t, spurious) =>
        var p := ThreadStep(s, t, spurious).pcs[t];
        match s.pcs[t] {
          case EnqCas(v, pos) => if !spurious && s.tail == pos { EnqCasKeeps(s, t); } else { LocalKeeps(s, t, p); }
          case EnqWrite(_, _) => EnqWriteKeeps(s, t);
          case EnqPublish(_) => EnqPublishKeeps(s, t);
          case DeqCas(pos) => if !spurious && s.head == pos { DeqCasKeeps(s, t); } else { LocalKeeps(s, t, p); }
          case DeqPublish(_, _) => DeqPublishKeeps(s, t);
          case _ => LocalKeeps(s, t, p);
        }
    }
  }

  // ----- Main results over every schedule ------------------------------------------------------

  lemma {:induction false} RunInv(capacity: nat, threads: nat, schedule: seq<Choice>)
    requires capacity >= 2
    ensures var s := Run(Init(capacity, threads), schedule); Inv(s) && |s.cells| == capacity && |s.pcs| == threads
    decreases |schedule|
  {
    if schedule == [] {
      InitInv(capacity, threads);
    } else {
      var s := Run(Init(capacity, threads), schedule[..|schedule| - 1]);
      RunInv(capacity, threads, schedule[..|schedule| - 1]);
      StepInv(s, schedule[|schedule| - 1]);
      StepSizes(s, schedule[|schedule| - 1]);
    }
  }

  lemma StepSizes(s: State, c: Choice)
    ensures |Step(s, c).cells| == |s.cells| && |Step(s, c).pcs| == |s.pcs|
  {
  }

  /** Inside `enqueue`, inside `dequeue`. */
  predicate InEnqueue(p: Pc) {
    p.EnqLoadSeq? || p.EnqReload? || p.EnqCas? || p.EnqWrite? || p.EnqPublish?
  }

  predicate InDequeue(p: Pc) {
    p.DeqLoadSeq? || p.DeqReload? || p.DeqCas? || p.DeqRead? || p.DeqPublish?
  }

  /** The value thread t passed to its latest call of `enqueue`, read off the schedule. */
  function LatestValue(s: State, schedule: seq<Choice>, t: nat): Elem
    decreases |schedule|
  {
    if schedule == [] then 0
    else
      var before, last := schedule[..|schedule| - 1], schedule[|schedule| - 1];
      if last.CallEnqueue? && last.t == t && t < |Run(s, before).pcs| && Finished(Run(s, before).pcs[t]) then last.v
      else LatestValue(s, before, t)
  }

  /** The values enqueued, in the order of the exchanges that won their positions: each is the one its
      thread was called with. */
  function ValuesEnqueued(s: State, schedule: seq<Choice>): seq<Elem>
    decreases |schedule|
  {
    if schedule == [] then []
    else
      var before, last := schedule[..|schedule| - 1], schedule[|schedule| - 1];
      var now := Run(s, before);
      ValuesEnqueued(s, before) +
      if last.Go? && !last.spurious && last.t < |now.pcs| && now.pcs[last.t].EnqCas? && now.pcs[last.t].pos == now.tail
      then [LatestValue(s, before, last.t)] else []
  }

  /** A thread carries the value it was called with until it has written it, through any number of retries. */
  predicate Carries(p: Pc, v: Elem) {
    && (p.EnqLoadSeq? ==> p.v == v) && (p.EnqReload? ==> p.v == v)
    && (p.EnqCas? ==> p.v == v) && (p.EnqWrite? ==> p.v == v)
  }

  lemma {:induction false} CarriesItsValue(capacity: nat, threads: nat, schedule: seq<Choice>, t: nat)
    ensures var s := Run(Init(capacity, threads), schedule);
      t < |s.pcs| ==> Carries(s.pcs[t], LatestValue(Init(capacity, threads), schedule, t))
    decreases |schedule|
  {
    if schedule != [] {
      CarriesItsValue(capacity, threads, schedule[..|schedule| - 1], t);
      hide Init, Run;
      StepCarries(Run(Init(capacity, threads), schedule[..|schedule| - 1]), schedule[|schedule| - 1], t,
                  LatestValue(Init(capacity, threads), schedule[..|schedule| - 1], t));
    }
  }

  lemma StepCarries(s: State, c: Choice, t: nat, v: Elem)
    requires t < |s.pcs| ==> Carries(s.pcs[t], v)
    ensures |Step(s, c).pcs| == |s.pcs|
    ensures t < |s.pcs| ==>
      Carries(Step(s, c).pcs[t], if c.CallEnqueue? && c.t == t && Finished(s.pcs[t]) then c.v else v)
  {
  }

  /** What is in the queue is what the callers put in, position by position. */
  lemma {:induction false} ItemsAreTheCallers(capacity: nat, threads: nat, schedule: seq<Choice>)
    requires capacity > 0
    ensures var s := Run(Init(capacity, threads), schedule);
      |s.cells| == capacity && s.items == ValuesEnqueued(Init(capacity, threads), schedule)
    decreases |schedule|
  {
    if schedule != [] {
      var before, last := schedule[..|schedule| - 1], schedule[|schedule| - 1];
      ItemsAreTheCallers(capacity, threads, before);
      CarriesItsValue(capacity, threads, before, last.t);
      StepSizes(Run(Init(capacity, threads), before), last);
      hide Init, Run, LatestValue;
      StepItems(Run(Init(capacity, threads), before), last);
    }
  }

  lemma StepItems(s: State, c: Choice)
    requires |s.cells| > 0
    ensures Step(s, c).items == s.items +
      if c.Go? && !c.spurious && c.t < |s.pcs| && s.pcs[c.t].EnqCas? && s.pcs[c.t].pos == s.tail then [s.pcs[c.t].v]
      else []
  {
  }

  /** Bounded, first-in first-out by position, exactly once: the ring never holds more than its
      capacity; every finished dequeue of a position gave back the value with which `enqueue` was called by
      the thread that won that position; and every position below head was given back and is in no
      thread's hands any more, or is being given back by exactly one thread. */
  lemma BoundedFifoByPosition(capacity: nat, threads: nat, schedule: seq<Choice>)
    requires capacity >= 2
    ensures var s, values := Run(Init(capacity, threads), schedule), ValuesEnqueued(Init(capacity, threads), schedule);
      && s.head <= s.tail <= s.head + capacity && s.tail == |values|
      && (forall p: nat :: p in s.returned ==> p < s.head && s.returned[p] == values[p])
      && (forall p: nat :: p < s.head ==> Total(Draining, s.pcs, p) == if p in s.returned then 0 else 1)
      && (forall t :: 0 <= t < |s.pcs| && (s.pcs[t].DeqRead? || s.pcs[t].DeqPublish?) ==> s.pcs[t].pos !in s.returned)
      && (forall t :: 0 <= t < |s.pcs| && s.pcs[t].Dequeued? ==>
            s.pcs[t].pos < s.head && s.pcs[t].v == values[s.pcs[t].pos])
  {
    RunInv(capacity, threads, schedule);
    ItemsAreTheCallers(capacity, threads, schedule);
    var s := Run(Init(capacity, threads), schedule);
    hide Run, Init, ValuesEnqueued, FullSlot, FreeSlot;
    forall t | 0 <= t < |s.pcs| && s.pcs[t].Dequeued?
      ensures s.pcs[t].pos < s.head && s.pcs[t].v == s.items[s.pcs[t].pos]
    {
      assert PcInv(s, s.pcs[t]);
    }
    forall t | 0 <= t < |s.pcs| && (s.pcs[t].DeqRead? || s.pcs[t].DeqPublish?) ensures s.pcs[t].pos !in s.returned {
      assert PcInv(s, s.pcs[t]);
      TotalAtLeast(Draining, s.pcs, t, s.pcs[t].pos);
    }
  }

  /** What was given back for a position is never given back again or changed. */
  lemma ReturnedOnce(capacity: nat, threads: nat, schedule: seq<Choice>, c: Choice)
    requires capacity >= 2
    ensures var s := Run(Init(capacity, threads), schedule);
      forall p: nat :: p in s.returned ==> p in Step(s, c).returned && Step(s, c).returned[p] == s.returned[p]
  {
    RunInv(capacity, threads, schedule);
    var s := Run(Init(capacity, threads), schedule);
    if c.Go? && c.t < |s.pcs| && s.pcs[c.t].DeqPublish? {
      DeqPublishKeeps(s, c.t);
    }
  }

  /** A published value stays in its cell until its own dequeue has read it. */
  lemma UnreadCellsKeepTheirValue(capacity: nat, threads: nat, schedule: seq<Choice>, p: nat)
    requires capacity >= 2
    ensures var s := Run(Init(capacity, threads), schedule);
      && |s.cells| == capacity && s.tail == |s.items|
      && (s.head <= p < s.tail && Total(Filling, s.pcs, p) == 0 ==> CellAt(s, p).data == s.items[p])
      && (forall t :: 0 <= t < |s.pcs| && s.pcs[t] == DeqRead(p) ==> p < |s.items| && CellAt(s, p).data == s.items[p])
  {
    RunInv(capacity, threads, schedule);
    var s := Run(Init(capacity, threads), schedule);
    if s.head <= p < s.tail { assert FullSlot(s, p); }
    forall t | 0 <= t < |s.pcs| && s.pcs[t] == DeqRead(p)
      ensures p < |s.items| && CellAt(s, p).data == s.items[p]
    {
      assert PcInv(s, s.pcs[t]);
    }
  }

  // ----- When a call is told that the queue is full or empty --------------------------------------

  /** Locals are positions the counters had before. */
  predicate Past(s: State) {
    forall t :: 0 <= t < |s.pcs| ==>
      && (s.pcs[t].EnqLoadSeq? || s.pcs[t].EnqCas? ==> s.pcs[t].pos <= s.tail)
      && (s.pcs[t].DeqLoadSeq? || s.pcs[t].DeqCas? ==> s.pcs[t].pos <= s.head)
  }

  lemma StepKeepsPast(s: State, c: Choice)
    requires Past(s)
    ensures Past(Step(s, c)) && s.tail <= Step(s, c).tail && s.head <= Step(s, c).head
  {
  }

  lemma {:induction false} RunIsPast(capacity: nat, threads: nat, schedule: seq<Choice>)
    ensures Past(Run(Init(capacity, threads), schedule))
    decreases |schedule|
  {
    if schedule != [] {
      RunIsPast(capacity, threads, schedule[..|schedule| - 1]);
      StepKeepsPast(Run(Init(capacity, threads), schedule[..|schedule| - 1]), schedule[|schedule| - 1]);
    }
  }

  /** The position in the current lap that uses the cell of a position loaded earlier. */
  lemma Occupant(s: State, pos: nat) returns (p: nat)
    requires |s.cells| > 0
    ensures s.head <= p < s.head + |s.cells| && CellAt(s, p) == CellAt(s, pos)
    ensures s.head <= pos < s.head + |s.cells| ==> p == pos
    ensures pos < s.head ==> pos + |s.cells| <= p
  {
    var c := |s.cells|;
    var r, q := (pos - s.head) % c, (pos - s.head) / c;
    p := s.head + r;
    assert pos - s.head == c * q + r;
    ModAdd(pos - s.head, s.head, c);
    MulBounds(c, q);
    if 0 <= pos - s.head < c { DivModUnique(pos - s.head, c, 0, pos - s.head); }
  }

  /** Over every schedule: an enqueue is told that the queue is full exactly when its position is still the
      tail and the value one lap before has not been given back. */
  lemma EnqueueFailsIff(capacity: nat, threads: nat, schedule: seq<Choice>, t: nat, spurious: bool)
    requires capacity >= 2 && t < |Run(Init(capacity, threads), schedule).pcs|
    requires Run(Init(capacity, threads), schedule).pcs[t].EnqLoadSeq?
    ensures var s := Run(Init(capacity, threads), schedule);
      var pos := s.pcs[t].pos;
      && |Step(s, Go(t, spurious)).pcs| == |s.pcs|
      && (Step(s, Go(t, spurious)).pcs[t] == Enqueued(false) <==>
            pos == s.tail && pos >= capacity && pos - capacity !in s.returned)
  {
    hide *;
    RunInv(capacity, threads, schedule);
    RunIsPast(capacity, threads, schedule);
    EnqueueFailsIffFull(Run(Init(capacity, threads), schedule), t, spurious);
  }

  lemma EnqueueFailsIffFull(s: State, t: nat, spurious: bool)
    requires Inv(s) && Past(s) && t < |s.pcs| && s.pcs[t].EnqLoadSeq?
    ensures var s', pos := Step(s, Go(t, spurious)), s.pcs[t].pos;
      && |s'.pcs| == |s.pcs|
      && (s'.pcs[t] == Enqueued(false) <==> pos == s.tail && pos >= |s.cells| && pos - |s.cells| !in s.returned)
  {
    assert |s.cells| > 0 && s.pcs[t].pos <= s.tail;
    hide Inv, Past;
    FullIff(s, s.pcs[t].pos);
  }

  lemma FullIff(s: State, pos: nat)
    requires Inv(s) && pos <= s.tail
    ensures CellAt(s, pos).seqno < pos <==>
      pos == s.tail && pos >= |s.cells| && pos - |s.cells| !in s.returned
  {
    var c := |s.cells|;
    var p := Occupant(s, pos);
    Outside(s, pos - c);
    hide Total;
    if pos == s.head + c {
      WrapCell(s, s.head);
      assert FullSlot(s, s.head);
    } else if p < s.tail {
      assert FullSlot(s, p);
    } else {
      assert FreeSlot(s, p);
    }
  }

  /** A dequeue is told that the queue is empty exactly when its position is still the head and no value
      has been published there. */
  lemma DequeueFindsNothingIff(capacity: nat, threads: nat, schedule: seq<Choice>, t: nat, spurious: bool)
    requires capacity >= 2 && t < |Run(Init(capacity, threads), schedule).pcs|
    requires Run(Init(capacity, threads), schedule).pcs[t].DeqLoadSeq?
    ensures var s := Run(Init(capacity, threads), schedule);
      var pos := s.pcs[t].pos;
      && |Step(s, Go(t, spurious)).pcs| == |s.pcs|
      && (Step(s, Go(t, spurious)).pcs[t] == DequeuedNull <==>
            pos == s.head && !(pos < s.tail && Total(Filling, s.pcs, pos) == 0))
  {
    hide *;
    RunInv(capacity, threads, schedule);
    RunIsPast(capacity, threads, schedule);
    DequeueFindsNothingIffEmpty(Run(Init(capacity, threads), schedule), t, spurious);
  }

  lemma DequeueFindsNothingIffEmpty(s: State, t: nat, spurious: bool)
    requires Inv(s) && Past(s) && t < |s.pcs| && s.pcs[t].DeqLoadSeq?
    ensures var s', pos := Step(s, Go(t, spurious)), s.pcs[t].pos;
      && |s'.pcs| == |s.pcs|
      && (s'.pcs[t] == DequeuedNull <==> pos == s.head && !(pos < s.tail && Total(Filling, s.pcs, pos) == 0))
  {
    assert |s.cells| > 0 && s.pcs[t].pos <= s.head;
    hide Inv, Past, Total;
    EmptyIff(s, s.pcs[t].pos);
  }

  lemma EmptyIff(s: State, pos: nat)
    requires Inv(s) && pos <= s.head
    ensures CellAt(s, pos).seqno < pos + 1 <==> pos == s.head && !(pos < s.tail && Total(Filling, s.pcs, pos) == 0)
  {
    var p := Occupant(s, pos);
    hide Total;
    if p < s.tail { assert FullSlot(s, p); } else { assert FreeSlot(s, p); }
  }

  /** How a call of `enqueue` can end, over every schedule: with false only if the queue is full at that
      step, and else only with true after its value was published; nothing else takes a thread out of it. */
  lemma EnqueueEndsOnly(capacity: nat, threads: nat, schedule: seq<Choice>, t: nat, c: Choice)
    requires capacity >= 2 && t < |Run(Init(capacity, threads), schedule).pcs|
    requires InEnqueue(Run(Init(capacity, threads), schedule).pcs[t])
    ensures var s := Run(Init(capacity, threads), schedule);
      var p, p' := s.pcs[t], if t < |Step(s, c).pcs| then Step(s, c).pcs[t] else Idle;
      && (InEnqueue(p') || p' == Enqueued(true) || p' == Enqueued(false))
      && (p' == Enqueued(false) <==>
            c.Go? && c.t == t && p.EnqLoadSeq?
            && p.pos == s.tail && p.pos >= capacity && p.pos - capacity !in s.returned)
      && (p' == Enqueued(true) <==> c.Go? && c.t == t && p.EnqPublish?)
      && (p.EnqPublish? ==> |s.cells| > 0 && p.pos < |s.items| && CellAt(s, p.pos).data == s.items[p.pos])
  {
    RunInv(capacity, threads, schedule);
    var s := Run(Init(capacity, threads), schedule);
    assert PcInv(s, s.pcs[t]);
    if s.pcs[t].EnqLoadSeq? { EnqueueFailsIff(capacity, threads, schedule, t, c.Go? && c.spurious); }
    hide Run, Init, Inv;
    StepEnds(s, t, c);
  }

  lemma StepEnds(s: State, t: nat, c: Choice)
    requires |s.cells| > 0 && t < |s.pcs| && (InEnqueue(s.pcs[t]) || InDequeue(s.pcs[t]))
    ensures |Step(s, c).pcs| == |s.pcs|
    ensures var p, p' := s.pcs[t], Step(s, c).pcs[t];
      if !c.Go? || c.t != t then p' == p
      else if p.EnqPublish? then p' == Enqueued(true)
      else if p.DeqPublish? then p' == Dequeued(p.pos, p.v)
      else if InEnqueue(p) then InEnqueue(p') || (p.EnqLoadSeq? && p' == Enqueued(false))
      else InDequeue(p') || (p.DeqLoadSeq? && p' == DequeuedNull)
  {
  }

  /** How a call of `dequeue` can end: with null only if nothing is published at the head at that step, and
      else only with the value of its position. */
  lemma DequeueEndsOnly(capacity: nat, threads: nat, schedule: seq<Choice>, t: nat, c: Choice)
    requires capacity >= 2 && t < |Run(Init(capacity, threads), schedule).pcs|
    requires InDequeue(Run(Init(capacity, threads), schedule).pcs[t])
    ensures var s := Run(Init(capacity, threads), schedule);
      var p, p' := s.pcs[t], if t < |Step(s, c).pcs| then Step(s, c).pcs[t] else Idle;
      && (InDequeue(p') || p' == DequeuedNull || p'.Dequeued?)
      && (p' == DequeuedNull <==>
            c.Go? && c.t == t && p.DeqLoadSeq?
            && p.pos == s.head && !(p.pos < s.tail && Total(Filling, s.pcs, p.pos) == 0))
      && (p'.Dequeued? <==> c.Go? && c.t == t && p.DeqPublish?)
      && (p'.Dequeued? ==> p'.pos == p.pos < |s.items| && p'.v == s.items[p.pos])
  {
    RunInv(capacity, threads, schedule);
    var s := Run(Init(capacity, threads), schedule);
    assert PcInv(s, s.pcs[t]);
    if s.pcs[t].DeqLoadSeq? { DequeueFindsNothingIff(capacity, threads, schedule, t, c.Go? && c.spurious); }
    hide Run, Init, Inv, Total;
    StepEnds(s, t, c);
  }

  // ----- What a call does when no other call is in progress ---------------------------------------

  function Alone(s: State, t: nat, k: nat): State {
    if k == 0 then s else Step(Alone(s, t, k - 1), Go(t, false))
  }

  /** A bound on the steps a thread still needs if the others stand still. */
  function StepsLeft(s: State, p: Pc): nat {
    match p
    case EnqLoadSeq(_, pos) => if pos == s.tail then 4 else 6
    case EnqReload(_) => 5
    case EnqCas(_, pos) => if pos == s.tail then 3 else 5
    case EnqWrite(_, _) => 2
    case EnqPublish(_) => 1
    case DeqLoadSeq(pos) => if pos == s.head then 4 else 6
    case DeqReload => 5
    case DeqCas(pos) => if pos == s.head then 3 else 5
    case DeqRead(_) => 2
    case DeqPublish(_, _) => 1
    case _ => 0
  }

  /** At the tail and at the head the sequence number is never ahead, so a thread alone reloads once. */
  lemma StepsDecrease(s: State, t: nat)
    requires Inv(s) && t < |s.pcs| && !Finished(s.pcs[t])
    ensures var s' := Step(s, Go(t, false));
      |s'.pcs| == |s.pcs| && StepsLeft(s', s'.pcs[t]) < StepsLeft(s, s.pcs[t])
  {
    assert |s.cells| > 0;
    NotAhead(s);
    hide Inv;
  }

  lemma NotAhead(s: State)
    requires Inv(s)
    ensures CellAt(s, s.tail).seqno <= s.tail && CellAt(s, s.head).seqno <= s.head + 1
  {
    hide Total;
    if s.tail < s.head + |s.cells| {
      assert FreeSlot(s, s.tail);
    } else {
      assert FullSlot(s, s.head);
      WrapCell(s, s.head);
    }
    if s.head < s.tail { assert FullSlot(s, s.head); }
  }

  /** Thread `t` ends within `k` steps of its own. */
  ghost predicate Within(s: State, t: nat, k: nat) {
    Inv(s) && t < |s.pcs| && StepsLeft(s, s.pcs[t]) <= k
  }

  /** From any reachable state every call ends after at most six steps if it is left alone. */
  lemma AloneEnds(capacity: nat, threads: nat, schedule: seq<Choice>, t: nat)
    requires capacity >= 2 && t < threads
    ensures var s := Alone(Run(Init(capacity, threads), schedule), t, 6); t < |s.pcs| && Finished(s.pcs[t])
  {
    RunInv(capacity, threads, schedule);
    var s := Run(Init(capacity, threads), schedule);
    assert StepsLeft(s, s.pcs[t]) <= 6;
    hide Run, Init, Step, Inv;
    assert Within(s, t, 6);
    StaysWithin(s, t, 6, 6);
    hide Alone;
  }

  lemma {:induction false} StaysWithin(s: State, t: nat, left: nat, k: nat)
    requires Within(s, t, left) && k <= left
    ensures Within(Alone(s, t, k), t, left - k)
  {
    hide Within, Step;
    if k > 0 {
      StaysWithin(s, t, left, k - 1);
      OneStepLess(Alone(s, t, k - 1), t, left - k);
    }
  }

  lemma OneStepLess(s: State, t: nat, left: nat)
    requires Within(s, t, left + 1)
    ensures Within(Step(s, Go(t, false)), t, left)
  {
    hide Inv, Step;
    if Finished(s.pcs[t]) { FinishedStays(s, t); } else { StepsDecrease(s, t); }
    StepInv(s, Go(t, false));
  }

  lemma FinishedStays(s: State, t: nat)
    requires t < |s.pcs| && Finished(s.pcs[t])
    ensures Step(s, Go(t, false)) == s
  {
  }

  ghost predicate Quiet(s: State) {
    Inv(s) && AllFinished(s.pcs)
  }

  lemma QuietTail(s: State)
    requires Quiet(s)
    ensures CellAt(s, s.tail).seqno == if s.tail < s.head + |s.cells| then s.tail else s.head + 1
  {
    hide Total;
    TotalFinished(Filling, s.pcs, s.head);
    TotalFinished(Draining, s.pcs, s.tail - |s.cells|);
    if s.tail < s.head + |s.cells| {
      assert FreeSlot(s, s.tail);
    } else {
      assert FullSlot(s, s.head);
      WrapCell(s, s.head);
    }
  }

  lemma QuietHead(s: State)
    requires Quiet(s)
    ensures s.head < s.tail ==> CellAt(s, s.head) == Cell(s.head + 1, s.items[s.head])
    ensures s.head == s.tail ==> CellAt(s, s.head).seqno == s.head
  {
    hide Total;
    TotalFinished(Filling, s.pcs, s.head);
    TotalFinished(Draining, s.pcs, s.head - |s.cells|);
    assert s.head < s.tail ==> FullSlot(s, s.head);
    assert s.head == s.tail ==> FreeSlot(s, s.head);
  }

  /** From a quiescent state enqueue fails exactly when the ring is full; otherwise it appends. */
  lemma LoneEnqueueFailsIffFull(s: State, t: nat, v: Elem)
    requires Quiet(s) && t < |s.pcs|
    ensures var s0 := Step(s, CallEnqueue(t, v));
      if s.tail == s.head + |s.cells| then Alone(s0, t, 1) == At(s, t, Enqueued(false))
      else
        var s4 := Alone(s0, t, 4);
        s4.pcs == s.pcs[t := Enqueued(true)] && s4.items == s.items + [v] && s4.tail == s.tail + 1
        && s4.head == s.head && s4.returned == s.returned
  {
    QuietTail(s);
    assert Finished(s.pcs[t]);
    assert |s.cells| >= 2 && s.tail <= s.head + |s.cells|;
    hide Quiet, Inv;
    var s0 := Step(s, CallEnqueue(t, v));
    var s1 := Step(s0, Go(t, false));
    assert Alone(s0, t, 1) == s1;
    if s.tail == s.head + |s.cells| {
      assert s1.pcs == s.pcs[t := Enqueued(false)];
    } else {
      assert s1.pcs == s.pcs[t := EnqCas(v, s.tail)];
      var s2 := Step(s1, Go(t, false));
      assert s2.pcs == s.pcs[t := EnqWrite(v, s.tail)];
      assert Alone(s0, t, 2) == s2;
      var s3 := Step(s2, Go(t, false));
      assert s3.pcs == s.pcs[t := EnqPublish(s.tail)];
      assert Alone(s0, t, 3) == s3;
      var s4 := Step(s3, Go(t, false));
      assert s4.pcs == s.pcs[t := Enqueued(true)];
      assert Alone(s0, t, 4) == s4;
    }
  }

  /** From a quiescent state dequeue returns null exactly when the ring is empty; otherwise it
      gives back the oldest value. */
  lemma LoneDequeueNullIffEmpty(s: State, t: nat)
    requires Quiet(s) && t < |s.pcs|
    ensures var s0 := Step(s, CallDequeue(t));
      if s.tail == s.head then Alone(s0, t, 1) == At(s, t, DequeuedNull)
      else
        var s4 := Alone(s0, t, 4);
        s4.pcs == s.pcs[t := Dequeued(s.head, s.items[s.head])] && s4.items == s.items
        && s4.tail == s.tail && s4.head == s.head + 1
        && s4.returned == s.returned[s.head := s.items[s.head]]
  {
    QuietHead(s);
    assert Finished(s.pcs[t]);
    assert |s.cells| >= 2 && s.head <= s.tail == |s.items|;
    hide Quiet, Inv;
    var s0 := Step(s, CallDequeue(t));
    var s1 := Step(s0, Go(t, false));
    assert Alone(s0, t, 1) == s1;
    if s.tail == s.head {
      assert s1.pcs == s.pcs[t := DequeuedNull];
    } else {
      assert s1.pcs == s.pcs[t := DeqCas(s.head)];
      var s2 := Step(s1, Go(t, false));
      assert s2.pcs == s.pcs[t := DeqRead(s.head)];
      assert Alone(s0, t, 2) == s2;
      var s3 := Step(s2, Go(t, false));
      assert s3.pcs == s.pcs[t := DeqPublish(s.head, s.items[s.head])];
      assert Alone(s0, t, 3) == s3;
      var s4 := Step(s3, Go(t, false));
      assert s4.pcs == s.pcs[t := Dequeued(s.head, s.items[s.head])];
      assert Alone(s0, t, 4) == s4;
    }
  }

  /** The constructor also accepts capacity 1, where a published cell looks free for the next
      enqueue: a second value is stored over the first, unread one. */
  lemma CapacityOneOverwrites(v: Elem, w: Elem)
    ensures var full := Alone(Step(Init(1, 1), CallEnqueue(0, v)), 0, 4);
      full.cells == [Cell(1, v)] && full.pcs == [Enqueued(true)] && full.head == 0 && full.tail == 1
      && var s := Alone(Step(full, CallEnqueue(0, w)), 0, 4);
      s.cells == [Cell(2, w)] && s.pcs == [Enqueued(true)] && s.head == 0 && s.tail == 2
  {
    OneCellEnqueue(Init(1, 1), v);
    OneCellEnqueue(Alone(Step(Init(1, 1), CallEnqueue(0, v)), 0, 4), w);
  }

  lemma OneCellEnqueue(s: State, v: Elem)
    requires |s.cells| == |s.pcs| == 1 && Finished(s.pcs[0]) && s.cells[0].seqno == s.tail
    ensures var s4 := Alone(Step(s, CallEnqueue(0, v)), 0, 4);
      s4.cells == [Cell(s.tail + 1, v)] && s4.pcs == [Enqueued(true)] && s4.head == s.head && s4.tail == s.tail + 1
  {
    var s0 := Step(s, CallEnqueue(0, v));
    var s1 := Step(s0, Go(0, false));
    assert s1.pcs == [EnqCas(v, s.tail)] && Alone(s0, 0, 1) == s1;
    var s2 := Step(s1, Go(0, false));
    assert s2.pcs == [EnqWrite(v, s.tail)] && Alone(s0, 0, 2) == s2;
    var s3 := Step(s2, Go(0, false));
    assert s3.cells == [Cell(s.tail, v)] && Alone(s0, 0, 3) == s3;
    assert Alone(s0, 0, 4) == Step(s3, Go(0, false));
  }
}
