/** CustomMPMCLockFreeQueue on 64-bit words: what the machine stores are the word images of the
    positions and sequence numbers of `MpmcQueue`, compared after wrapping subtraction. */
module MpmcWords {
  import opened Words
  import Q = MpmcQueue

  /** The memory and the threads' locals, all positions and sequence numbers as words. */
  datatype Machine = Machine(cells: seq<Q.Cell>, head: nat, tail: nat, pcs: seq<Q.Pc>)

  function W(x: int): (w: nat)
    ensures w == Word(x) < WORD
  {
    Word(x)
  }

  function At(m: Machine, t: nat, p: Q.Pc): Machine
    requires t < |m.pcs|
  {
    m.(pcs := m.pcs[t := p])
  }

  function CellAt(m: Machine, pos: nat): Q.Cell
    requires |m.cells| > 0
  {
    m.cells[Ring(pos, |m.cells|)]
  }

  function Store(m: Machine, pos: nat, c: Q.Cell): Machine
    requires |m.cells| > 0
  {
    m.(cells := m.cells[Ring(pos, |m.cells|) := c])
  }

  /** The difference of two words as a signed number, in two's complement. */
  function Difference(a: int, b: int): int {
    Signed(Word(a - b))
  }

  function Step(m: Machine, c: Q.Choice): Machine {
    if c.t >= |m.pcs| || |m.cells| == 0 then m else
    match c
    case CallEnqueue(t, v) => if Q.Finished(m.pcs[t]) then At(m, t, Q.EnqLoadSeq(v, m.tail)) else m
    case CallDequeue(t) => if Q.Finished(m.pcs[t]) then At(m, t, Q.DeqLoadSeq(m.head)) else m
    case Go(t, spurious) => ThreadStep(m, t, spurious)
  }

  function ThreadStep(m: Machine, t: nat, spurious: bool): Machine
    requires t < |m.pcs| && |m.cells| > 0
  {
    match m.pcs[t]
    case EnqLoadSeq(v, pos) =>
      var diff := Difference(CellAt(m, pos).seqno, pos);
      At(m, t, if diff == 0 then Q.EnqCas(v, pos) else if diff < 0 then Q.Enqueued(false) else Q.EnqReload(v))
    case EnqReload(v) => At(m, t, Q.EnqLoadSeq(v, m.tail))
    case EnqCas(v, pos) =>
      if !spurious && m.tail == pos then At(m.(tail := W(pos + 1)), t, Q.EnqWrite(v, pos))
      else At(m, t, Q.EnqLoadSeq(v, m.tail))
    case EnqWrite(v, pos) => At(Store(m, pos, CellAt(m, pos).(data := v)), t, Q.EnqPublish(pos))
    case EnqPublish(pos) => At(Store(m, pos, CellAt(m, pos).(seqno := W(pos + 1))), t, Q.Enqueued(true))
    case DeqLoadSeq(pos) =>
      var diff := Difference(CellAt(m, pos).seqno, W(pos + 1));
      At(m, t, if diff == 0 then Q.DeqCas(pos) else if diff < 0 then Q.DequeuedNull else Q.DeqReload)
    case DeqReload => At(m, t, Q.DeqLoadSeq(m.head))
    case DeqCas(pos) =>
      if !spurious && m.head == pos then At(m.(head := W(pos + 1)), t, Q.DeqRead(pos))
      else At(m, t, Q.DeqLoadSeq(m.head))
    case DeqRead(pos) => At(m, t, Q.DeqPublish(pos, CellAt(m, pos).data))
    case DeqPublish(pos, v) =>
      At(Store(m, pos, CellAt(m, pos).(seqno := W(pos + |m.cells|))), t, Q.Dequeued(pos, v))
    case _ => m
  }

  function Run(m: Machine, schedule: seq<Q.Choice>): Machine
    decreases |schedule|
  {
    if schedule == [] then m else Step(Run(m, schedule[..|schedule| - 1]), schedule[|schedule| - 1])
  }

  // ----- The machine's words are images of the unbounded positions --------------------------------

  function ImagePc(p: Q.Pc): Q.Pc {
    match p
    case EnqLoadSeq(v, pos) => Q.EnqLoadSeq(v, W(pos))
    case EnqCas(v, pos) => Q.EnqCas(v, W(pos))
    case EnqWrite(v, pos) => Q.EnqWrite(v, W(pos))
    case EnqPublish(pos) => Q.EnqPublish(W(pos))
    case DeqLoadSeq(pos) => Q.DeqLoadSeq(W(pos))
    case DeqCas(pos) => Q.DeqCas(W(pos))
    case DeqRead(pos) => Q.DeqRead(W(pos))
    case DeqPublish(pos, v) => Q.DeqPublish(W(pos), v)
    case Dequeued(pos, v) => Q.Dequeued(W(pos), v)
    case _ => p
  }

  function ImageCell(c: Q.Cell): Q.Cell {
    Q.Cell(W(c.seqno), c.data)
  }

  function ImageCells(cells: seq<Q.Cell>): (images: seq<Q.Cell>)
    ensures |images| == |cells| && forall i :: 0 <= i < |cells| ==> images[i] == ImageCell(cells[i])
  {
    seq(|cells|, i requires 0 <= i < |cells| => ImageCell(cells[i]))
  }

  function ImagePcs(pcs: seq<Q.Pc>): (images: seq<Q.Pc>)
    ensures |images| == |pcs| && forall t :: 0 <= t < |pcs| ==> images[t] == ImagePc(pcs[t])
  {
    seq(|pcs|, t requires 0 <= t < |pcs| => ImagePc(pcs[t]))
  }

  function Image(s: Q.State): Machine {
    Machine(ImageCells(s.cells), W(s.head), W(s.tail), ImagePcs(s.pcs))
  }

  /** The operands of a thread's next comparison are close enough for words to tell them apart. */
  predicate PcClose(s: Q.State, p: Q.Pc)
    requires |s.cells| > 0
  {
    match p
    case EnqLoadSeq(_, pos) => -HALF <= Q.CellAt(s, pos).seqno - pos < HALF
    case DeqLoadSeq(pos) => -HALF <= Q.CellAt(s, pos).seqno - (pos + 1) < HALF
    case EnqCas(_, pos) => -WORD < s.tail - pos < WORD
    case DeqCas(pos) => -WORD < s.head - pos < WORD
    case _ => true
  }

  predicate Close(s: Q.State)
    requires |s.cells| > 0
  {
    forall t :: 0 <= t < |s.pcs| ==> PcClose(s, s.pcs[t])
  }

  lemma DifferenceIs(a: int, b: int)
    requires -HALF <= a - b < HALF
    ensures Difference(Word(a), Word(b)) == a - b
  {
    WordDiff(a, b);
    if a - b < 0 { WordShift(a - b, 1); }
  }

  lemma SameWord(a: int, b: int)
    requires -WORD < a - b < WORD
    ensures Word(a) == Word(b) <==> a == b
  {
    if a != b { ModDistinct(a, b, WORD); }
  }

  lemma SameCell(s: Q.State, pos: nat)
    requires PowerOfTwo(|s.cells|) && |s.cells| <= HALF
    ensures Ring(W(pos), |s.cells|) == Ring(pos, |s.cells|)
    ensures CellAt(Image(s), W(pos)) == ImageCell(Q.CellAt(s, pos))
    ensures forall c :: Image(Q.Store(s, pos, c)) == Store(Image(s), W(pos), ImageCell(c))
  {
    WordRing(pos, |s.cells|);
    hide PowerOfTwo, Word;
    forall c ensures Image(Q.Store(s, pos, c)) == Store(Image(s), W(pos), ImageCell(c)) {
      assert ImageCells(s.cells[Ring(pos, |s.cells|) := c]) ==
        ImageCells(s.cells)[Ring(pos, |s.cells|) := ImageCell(c)];
    }
  }

  lemma MovedImage(s: Q.State, t: nat, p: Q.Pc)
    requires t < |s.pcs|
    ensures Image(Q.At(s, t, p)) == At(Image(s), t, ImagePc(p))
  {
    hide ImagePc;
    assert ImagePcs(s.pcs[t := p]) == ImagePcs(s.pcs)[t := ImagePc(p)];
  }

  /** One step on words is the image of one step on positions. */
  lemma StepSimulates(s: Q.State, c: Q.Choice)
    requires PowerOfTwo(|s.cells|) && 0 < |s.cells| <= HALF && Close(s)
    ensures Image(Q.Step(s, c)) == Step(Image(s), c)
  {
    hide PowerOfTwo;
    if c.t < |s.pcs| {
      assert PcClose(s, s.pcs[c.t]);
      match c
      case CallEnqueue(t, v) => MovedImage(s, t, Q.EnqLoadSeq(v, s.tail));
      case CallDequeue(t) => MovedImage(s, t, Q.DeqLoadSeq(s.head));
      case Go(t, spurious) => ThreadSimulates(s, t, spurious);
    }
  }

  lemma ThreadSimulates(s: Q.State, t: nat, spurious: bool)
    requires PowerOfTwo(|s.cells|) && 0 < |s.cells| <= HALF && t < |s.pcs| && PcClose(s, s.pcs[t])
    ensures Image(Q.ThreadStep(s, t, spurious)) == ThreadStep(Image(s), t, spurious)
  {
    hide PowerOfTwo, Image, ThreadStep, PcClose;
    match s.pcs[t] {
      case EnqLoadSeq(_, pos) => LoadSimulates(s, t, spurious);
      case DeqLoadSeq(pos) => LoadSimulates(s, t, spurious);
      case EnqCas(_, pos) => ExchangeSimulates(s, t, spurious);
      case DeqCas(pos) => ExchangeSimulates(s, t, spurious);
      case EnqWrite(v, pos) => WriteSimulates(s, t, spurious);
      case EnqPublish(pos) => PublishSimulates(s, t, spurious);
      case DeqPublish(pos, v) => ReleaseSimulates(s, t, spurious);
      case _ => OtherSimulates(s, t, spurious);
    }
  }

  lemma LoadSimulates(s: Q.State, t: nat, spurious: bool)
    requires PowerOfTwo(|s.cells|) && 0 < |s.cells| <= HALF && t < |s.pcs| && PcClose(s, s.pcs[t])
    requires s.pcs[t].EnqLoadSeq? || s.pcs[t].DeqLoadSeq?
    ensures Image(Q.ThreadStep(s, t, spurious)) == ThreadStep(Image(s), t, spurious)
  {
    hide PowerOfTwo, Word, Signed, Difference, Ring;
    var pos := s.pcs[t].pos;
    SameCell(s, pos);
    WordAdd(pos, 1);
    DifferenceIs(Q.CellAt(s, pos).seqno, if s.pcs[t].EnqLoadSeq? then pos else pos + 1);
    MovedImage(s, t, Q.ThreadStep(s, t, spurious).pcs[t]);
    hide Q.CellAt, CellAt, Store, Q.Store;
    assert Q.ThreadStep(s, t, spurious) == Q.At(s, t, Q.ThreadStep(s, t, spurious).pcs[t]);
  }

  lemma ExchangeSimulates(s: Q.State, t: nat, spurious: bool)
    requires PowerOfTwo(|s.cells|) && 0 < |s.cells| <= HALF && t < |s.pcs| && PcClose(s, s.pcs[t])
    requires s.pcs[t].EnqCas? || s.pcs[t].DeqCas?
    ensures Image(Q.ThreadStep(s, t, spurious)) == ThreadStep(Image(s), t, spurious)
  {
    hide PowerOfTwo, Word, Ring;
    var after := Q.ThreadStep(s, t, spurious);
    var pos := s.pcs[t].pos;
    SameWord(if s.pcs[t].EnqCas? then s.tail else s.head, pos);
    WordAdd(pos, 1);
    MovedImage(s.(head := after.head, tail := after.tail, items := after.items), t, after.pcs[t]);
    MovedImage(s, t, after.pcs[t]);
  }

  lemma StoredAndMoved(s: Q.State, pos: nat, cell: Q.Cell, returned: map<nat, Q.Elem>, t: nat, p: Q.Pc)
    requires PowerOfTwo(|s.cells|) && 0 < |s.cells| <= HALF && t < |s.pcs|
    ensures Image(Q.At(Q.Store(s, pos, cell).(returned := returned), t, p))
         == At(Store(Image(s), W(pos), ImageCell(cell)), t, ImagePc(p))
  {
    hide PowerOfTwo, Word, Ring;
    SameCell(s, pos);
    var stored := Q.Store(s, pos, cell);
    MovedImage(stored.(returned := returned), t, p);
    assert Image(stored.(returned := returned)) == Image(stored);
  }

  lemma WriteSimulates(s: Q.State, t: nat, spurious: bool)
    requires PowerOfTwo(|s.cells|) && 0 < |s.cells| <= HALF && t < |s.pcs| && s.pcs[t].EnqWrite?
    ensures Image(Q.ThreadStep(s, t, spurious)) == ThreadStep(Image(s), t, spurious)
  {
    var pos := s.pcs[t].pos;
    SameCell(s, pos);
    var before := Q.CellAt(s, pos);
    SameReturned(s, pos, before);
    hide PowerOfTwo, Word, Ring, Q.CellAt, CellAt, Store, Q.Store, Q.At, At;
    StoredAndMoved(s, pos, before.(data := s.pcs[t].v), s.returned, t, Q.EnqPublish(pos));
  }

  lemma PublishSimulates(s: Q.State, t: nat, spurious: bool)
    requires PowerOfTwo(|s.cells|) && 0 < |s.cells| <= HALF && t < |s.pcs| && s.pcs[t].EnqPublish?
    ensures Image(Q.ThreadStep(s, t, spurious)) == ThreadStep(Image(s), t, spurious)
  {
    var pos := s.pcs[t].pos;
    SameCell(s, pos);
    WordAdd(pos, 1);
    var before := Q.CellAt(s, pos);
    SameReturned(s, pos, before);
    hide PowerOfTwo, Word, Ring, Q.CellAt, CellAt, Store, Q.Store, Q.At, At;
    StoredAndMoved(s, pos, before.(seqno := pos + 1), s.returned, t, Q.Enqueued(true));
  }

  /** The last step of a dequeue, on positions and on words. */
  lemma ReleaseStep(s: Q.State, t: nat, spurious: bool)
    requires |s.cells| > 0 && t < |s.pcs| && s.pcs[t].DeqPublish?
    ensures var pos, v := s.pcs[t].pos, s.pcs[t].v;
      var released := Q.CellAt(s, pos).(seqno := pos + |s.cells|);
      Q.ThreadStep(s, t, spurious)
      == Q.At(Q.Store(s, pos, released).(returned := s.returned[pos := v]), t, Q.Dequeued(pos, v))
  {
  }

  lemma WordReleaseStep(m: Machine, t: nat, spurious: bool)
    requires |m.cells| > 0 && t < |m.pcs| && m.pcs[t].DeqPublish?
    ensures var pos, v := m.pcs[t].pos, m.pcs[t].v;
      var released := CellAt(m, pos).(seqno := W(pos + |m.cells|));
      ThreadStep(m, t, spurious) == At(Store(m, pos, released), t, Q.Dequeued(pos, v))
  {
  }

  lemma ReleaseSimulates(s: Q.State, t: nat, spurious: bool)
    requires PowerOfTwo(|s.cells|) && 0 < |s.cells| <= HALF && t < |s.pcs| && s.pcs[t].DeqPublish?
    ensures Image(Q.ThreadStep(s, t, spurious)) == ThreadStep(Image(s), t, spurious)
  {
    var pos := s.pcs[t].pos;
    var before := Q.CellAt(s, pos);
    var m := Image(s);
    assert m.pcs[t] == Q.DeqPublish(W(pos), s.pcs[t].v) && |m.cells| == |s.cells| && |m.pcs| == |s.pcs|;
    SameCell(s, pos);
    WordAdd(pos, |s.cells|);
    assert ImageCell(before.(seqno := pos + |s.cells|)) == ImageCell(before).(seqno := W(W(pos) + |s.cells|));
    assert ImagePc(Q.Dequeued(pos, s.pcs[t].v)) == Q.Dequeued(W(pos), s.pcs[t].v);
    hide *;
    ReleaseStep(s, t, spurious);
    WordReleaseStep(m, t, spurious);
    StoredAndMoved(s, pos, before.(seqno := pos + |s.cells|), s.returned[pos := s.pcs[t].v],
                   t, Q.Dequeued(pos, s.pcs[t].v));
  }

  lemma SameReturned(s: Q.State, pos: nat, before: Q.Cell)
    requires |s.cells| > 0
    ensures forall cell :: Q.Store(s, pos, cell).(returned := s.returned) == Q.Store(s, pos, cell)
  {
  }

  lemma OtherSimulates(s: Q.State, t: nat, spurious: bool)
    requires PowerOfTwo(|s.cells|) && 0 < |s.cells| <= HALF && t < |s.pcs|
    requires var p := s.pcs[t]; p.EnqReload? || p.DeqReload? || p.DeqRead? || Q.Finished(p)
    ensures Image(Q.ThreadStep(s, t, spurious)) == ThreadStep(Image(s), t, spurious)
  {
    hide PowerOfTwo, Word, Ring;
    if s.pcs[t].DeqRead? { SameCell(s, s.pcs[t].pos); }
    MovedImage(s, t, Q.ThreadStep(s, t, spurious).pcs[t]);
  }

  // ----- Whole runs -------------------------------------------------------------------------------

  ghost predicate StaysClose(s: Q.State, schedule: seq<Q.Choice>)
    decreases |schedule|
  {
    schedule == []
    || (StaysClose(s, schedule[..|schedule| - 1]) && var before := Q.Run(s, schedule[..|schedule| - 1]);
        |before.cells| > 0 && Close(before))
  }

  /** A run on words shows the image of the run on positions, across any wrap of the words, as long as
      each comparison's operands are close. */
  lemma {:induction false} RunSimulates(capacity: nat, threads: nat, schedule: seq<Q.Choice>)
    requires PowerOfTwo(capacity) && 2 <= capacity <= HALF && StaysClose(Q.Init(capacity, threads), schedule)
    ensures Image(Q.Run(Q.Init(capacity, threads), schedule)) == Run(Image(Q.Init(capacity, threads)), schedule)
    decreases |schedule|
  {
    hide PowerOfTwo, Image;
    if schedule != [] {
      var n := |schedule| - 1;
      RunSimulates(capacity, threads, schedule[..n]);
      Q.RunInv(capacity, threads, schedule[..n]);
      StepSimulates(Q.Run(Q.Init(capacity, threads), schedule[..n]), schedule[n]);
    }
  }

  /** Sequence numbers stay between 0 and one lap past the tail. */
  lemma SeqnoBounds(s: Q.State, pos: nat)
    requires Q.Inv(s) && pos <= s.tail
    ensures 0 <= Q.CellAt(s, pos).seqno <= s.tail + |s.cells|
  {
    var c := |s.cells|;
    var p := s.head + Ring(pos - s.head, c);
    RingAdd(pos - s.head, s.head, c);
    assert Ring(p, c) == Ring(pos, c);
    assert Q.CellAt(s, p) == Q.CellAt(s, pos);
    if p < s.tail { assert Q.FullSlot(s, p); } else { assert Q.FreeSlot(s, p); }
  }

  /** While fewer than 2^63 minus two laps of elements were ever enqueued, everything is close. */
  lemma SmallIsClose(s: Q.State)
    requires Q.Inv(s) && Q.Past(s) && s.tail + 2 * |s.cells| < HALF
    ensures Close(s)
  {
    forall t | 0 <= t < |s.pcs| ensures PcClose(s, s.pcs[t]) {
      if s.pcs[t].EnqLoadSeq? || s.pcs[t].DeqLoadSeq? { SeqnoBounds(s, s.pcs[t].pos); }
    }
  }

  lemma {:induction false} SmallRunsStayClose(capacity: nat, threads: nat, schedule: seq<Q.Choice>)
    requires capacity >= 2 && Q.Run(Q.Init(capacity, threads), schedule).tail + 2 * capacity < HALF
    ensures StaysClose(Q.Init(capacity, threads), schedule)
    decreases |schedule|
  {
    if schedule != [] {
      var n := |schedule| - 1;
      var before := Q.Run(Q.Init(capacity, threads), schedule[..n]);
      Q.RunIsPast(capacity, threads, schedule[..n]);
      Q.StepKeepsPast(before, schedule[n]);
      SmallRunsStayClose(capacity, threads, schedule[..n]);
      Q.RunInv(capacity, threads, schedule[..n]);
      SmallIsClose(before);
    }
  }

  /** The word machine is the queue of `MpmcQueue` on every run with fewer than 2^63 minus two laps of enqueues. */
  lemma SmallRunsSimulate(capacity: nat, threads: nat, schedule: seq<Q.Choice>)
    requires PowerOfTwo(capacity) && 2 <= capacity <= HALF
    requires Q.Run(Q.Init(capacity, threads), schedule).tail + 2 * capacity < HALF
    ensures Image(Q.Run(Q.Init(capacity, threads), schedule)) == Run(Image(Q.Init(capacity, threads)), schedule)
  {
    SmallRunsStayClose(capacity, threads, schedule);
    RunSimulates(capacity, threads, schedule);
  }
}
