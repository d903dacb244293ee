/** The implicit producer's queue of concurrentqueue.h as a whole: the dequeue counters of
    `TicketDequeue` decide how many elements a consumer claims, and the consumer then looks the claimed
    elements up in the block index of `BlockIndex` and takes them out of their blocks. */
module ImplicitQueue {
  import opened Words
  import T = TicketDequeue
  import B = BlockIndex

  type Elem = T.Elem

  /** Consumer t is in `ticket.pcs[t]` up to its claim and in `index.pcs[t]` from then on; the head and
      tail indices are in both parts. `taken` (history) holds what was moved out of the queue, by index. */
  datatype State = State(ticket: T.State, index: B.State, taken: map<nat, Elem>)

  datatype Choice =
    | InsertBlock(canAlloc: bool)
    | ProducerGo(gotBlock: bool)
    | Undo
    | Enqueue(elems: seq<Elem>)
    | Call(t: nat, op: T.Op)
    | Go(t: nat)

  function Init(threads: nat): State {
    State(T.Init(threads), B.Init(threads), map[])
  }

  /** The producer publishes elements only into blocks it has installed. */
  predicate HasRoom(index: B.State, count: nat) {
    index.producer.Ready? && index.published + count <= B.BLOCK_SIZE * index.blocks
  }

  function Step(s: State, c: Choice): State {
    match c
    case InsertBlock(canAlloc) => s.(index := B.Step(s.index, B.InsertBlock(canAlloc)))
    case ProducerGo(gotBlock) => s.(index := B.Step(s.index, B.ProducerGo(gotBlock)))
    case Undo => s.(index := B.Step(s.index, B.Undo))
    case Enqueue(elems) =>
      if HasRoom(s.index, |elems|) then
        s.(ticket := T.Step(s.ticket, T.Publish(elems)), index := B.Step(s.index, B.Publish(|elems|)))
      else s
    case Call(t, op) =>
      if t < |s.index.pcs| && s.index.pcs[t].Idle? then s.(ticket := T.Step(s.ticket, T.Call(t, op))) else s
    case Go(t) => if t < |s.index.pcs| && t < |s.ticket.pcs| then ConsumerStep(s, t) else s
  }

  /** The claim is a plain fetch-add on the head index, even of nothing: nothing here compares it with the
      tail, and the index it gives is looked up in any case. */
  function Claimed(index: B.State, t: nat, take: nat): B.State
    requires t < |index.pcs|
  {
    B.At(index.(claimed := index.claimed + take), t, B.LoadHeader(index.claimed, index.claimed + take))
  }

  function ConsumerStep(s: State, t: nat): State
    requires t < |s.index.pcs| && t < |s.ticket.pcs|
  {
    if !s.index.pcs[t].Idle? then
      s.(index := B.Step(s.index, B.Go(t)), taken := s.taken + Moved(s.ticket.items, s.index.pcs[t]))
    else if s.ticket.pcs[t].Claim? then
      s.(ticket := T.Step(s.ticket, T.Go(t)), index := Claimed(s.index, t, s.ticket.pcs[t].take))
    else s.(ticket := T.Step(s.ticket, T.Go(t)))
  }

  /** Where the part of the claim that lies in the current block ends. */
  function PartEnd(i: nat, end: nat): int {
    B.Min(end, B.EndOfBlock(i))
  }

  /** What the step that finishes with a block has moved out of it: index x is read at its offset in
      the block that the look-up found, whichever block that is. */
  function Moved(items: seq<Elem>, p: B.Pc): map<nat, Elem> {
    if p.Finish? && p.block >= 0 then
      map x: nat | p.i <= x < PartEnd(p.i, p.end) && Position(p.block, x) < |items| :: items[Position(p.block, x)]
    else map[]
  }

  function Position(block: nat, x: nat): nat {
    B.BLOCK_SIZE * block + x % B.BLOCK_SIZE
  }

  function Run(s: State, schedule: seq<Choice>): State
    decreases |schedule|
  {
    if schedule == [] then s else Step(Run(s, schedule[..|schedule| - 1]), schedule[|schedule| - 1])
  }

  // ----- Who holds an element ---------------------------------------------------------------

  function One(b: bool): nat {
    if b then 1 else 0
  }

  /** Claimed by this consumer and not yet taken. */
  predicate Holds(p: B.Pc, x: nat) {
    B.HasRange(p) && p.i <= x < p.end
  }

  function Holders(pcs: seq<B.Pc>, x: nat): nat {
    if pcs == [] then 0 else One(Holds(pcs[|pcs| - 1], x)) + Holders(pcs[..|pcs| - 1], x)
  }

  lemma {:induction false} HoldersUpdate(pcs: seq<B.Pc>, t: nat, p: B.Pc, x: nat)
    requires t < |pcs|
    ensures Holders(pcs[t := p], x) == Holders(pcs, x) - One(Holds(pcs[t], x)) + One(Holds(p, x))
    ensures One(Holds(pcs[t], x)) <= Holders(pcs, x)
  {
    hide Holds;
    var m := |pcs| - 1;
    if t == m {
      assert pcs[t := p][..m] == pcs[..m];
    } else {
      assert pcs[t := p][..m] == pcs[..m][t := p];
      HoldersUpdate(pcs[..m], t, p, x);
    }
  }

  lemma {:induction false} NobodyHolds(pcs: seq<B.Pc>, x: nat)
    requires forall t :: 0 <= t < |pcs| ==> !Holds(pcs[t], x)
    ensures Holders(pcs, x) == 0
  {
    if pcs != [] { NobodyHolds(pcs[..|pcs| - 1], x); }
  }

  // ----- The invariant ----------------------------------------------------------------------

  /** Index x has one place: taken, held by one consumer, or not yet claimed. */
  predicate Placed(s: State, x: nat) {
    One(x in s.taken) + Holders(s.index.pcs, x) + One(s.index.claimed <= x) == 1
  }

  ghost predicate AllPlaced(s: State) {
    forall x: nat :: Placed(s, x)
  }

  /** What was taken is what was published under that index. */
  predicate TakenRight(s: State) {
    forall x :: x in s.taken ==> x < |s.ticket.items| && s.taken[x] == s.ticket.items[x]
  }

  /** The two parts agree on the head and the tail index. */
  predicate Coupled(s: State) {
    && |s.ticket.pcs| == |s.index.pcs|
    && s.ticket.head == s.index.claimed
    && |s.ticket.items| == s.index.published
  }

  /** Every bulk call asks for at least so many elements. */
  predicate AsksAtLeast(schedule: seq<Choice>, least: nat) {
    forall i :: 0 <= i < |schedule| ==> (schedule[i].Call? ==> Asks(schedule[i].op, least))
  }

  predicate Asks(op: T.Op, least: nat) {
    op.Bulk? ==> op.max >= least
  }

  /** A call that asks for something draws and wins no empty ticket. */
  predicate Wants(p: T.Pc) {
    match p
    case LoadOvercommit(op, tail) => Asks(op, 1)
    case LoadOptimistic(op, tail, over) => Asks(op, 1)
    case TakeTicket(op, over, want) => want > 0
    case ReloadTail(op, over, want, my) => want > 0
    case ReturnSurplus(give, take) => take > 0
    case Claim(take) => take > 0
    case _ => true
  }

  predicate AllWant(pcs: seq<T.Pc>) {
    forall t :: 0 <= t < |pcs| ==> Wants(pcs[t])
  }

  ghost predicate Inv(s: State) {
    && T.Inv(s.ticket) && AllWant(s.ticket.pcs)
    && B.Inv(s.index) && B.GrowAllowed(s.index)
    && Coupled(s)
    && AllPlaced(s)
    && TakenRight(s)
  }

  lemma InitInv(threads: nat)
    ensures Inv(Init(threads))
  {
    var s := Init(threads);
    T.InitInv(threads);
    B.InitInv(threads);
    hide T.Inv, B.Inv;
    forall x: nat ensures Placed(s, x) { NobodyHolds(s.index.pcs, x); }
  }

  // ----- Preservation -----------------------------------------------------------------------

  /** What the ticket protocol promises is what the index needs: the claimed elements are published. */
  lemma ClaimIsCovered(s: T.State, t: nat)
    requires T.Inv(s) && t < |s.pcs| && s.pcs[t].Claim?
    ensures s.head + s.pcs[t].take <= |s.items|
    ensures T.Step(s, T.Go(t)).head == s.head + s.pcs[t].take && T.Step(s, T.Go(t)).items == s.items
    ensures |T.Step(s, T.Go(t)).pcs| == |s.pcs|
  {
    hide T.Total, T.Balance, T.TicketsDisjoint, T.PcInv;
    T.TotalAtLeast(T.Granted, s.pcs, t);
  }

  lemma WantsStep(s: T.State, c: T.Choice)
    requires AllWant(s.pcs) && (c.Call? ==> Asks(c.op, 1))
    ensures AllWant(T.Step(s, c).pcs)
  {
  }

  /** An unguarded claim of some published elements is the guarded one of the index. */
  lemma ClaimedIsGuarded(index: B.State, t: nat, take: nat)
    requires B.Inv(index) && B.GrowAllowed(index) && t < |index.pcs| && index.pcs[t].Idle?
    requires take > 0 && index.claimed + take <= index.published
    ensures var index' := Claimed(index, t, take);
      index' == B.Step(index, B.Claim(t, take)) && B.Inv(index') && B.GrowAllowed(index')
  {
    B.InvIsWellFormed(index);
    B.StepInv(index, B.Claim(t, take));
    hide B.Inv, B.WellFormed, B.GrowAllowed;
  }

  lemma ClaimKeeps(s: State, t: nat)
    requires Inv(s) && T.InWindow(s.ticket) && t < |s.index.pcs| && s.index.pcs[t].Idle? && s.ticket.pcs[t].Claim?
    ensures Inv(Step(s, Go(t)))
  {
    hide T.Inv, T.InWindow, B.Inv, B.GrowAllowed;
    var s' := Step(s, Go(t));
    ClaimIsCovered(s.ticket, t);
    T.StepInv(s.ticket, T.Go(t));
    WantsStep(s.ticket, T.Go(t));
    assert Wants(s.ticket.pcs[t]);
    ClaimedIsGuarded(s.index, t, s.ticket.pcs[t].take);
    hide T.Step, AllWant;
    forall x: nat ensures Placed(s', x) {
      assert Placed(s, x);
      HoldersUpdate(s.index.pcs, t, s'.index.pcs[t], x);
    }
  }

  /** A step of the look-up keeps what its consumer holds, except for the part it has just moved out. */
  lemma LookupHolds(s: B.State, t: nat, x: nat)
    requires B.Inv(s) && t < |s.pcs|
    ensures var p, s' := s.pcs[t], B.Step(s, B.Go(t));
      && |s'.pcs| == |s.pcs| && s'.pcs == s.pcs[t := s'.pcs[t]]
      && s'.claimed == s.claimed && s'.published == s.published
      && (!s'.pcs[t].LookupAssertionFailed? ==>
            (Holds(s'.pcs[t], x) <==> Holds(p, x) && !(p.Finish? && p.i <= x < PartEnd(p.i, p.end))))
  {
    B.InvIsWellFormed(s);
    hide B.HeaderInv, B.EntriesKept, B.BlockInv, B.ProducerInv, B.WellFormed;
    assert B.PcInv(s, s.pcs[t]);
  }

  lemma OwnPosition(i: nat, x: nat)
    requires i <= x < B.EndOfBlock(i)
    ensures Position(i / B.BLOCK_SIZE, x) == x
  {
  }

  lemma FinishingFacts(s: State, t: nat)
    requires Inv(s) && t < |s.index.pcs| && s.index.pcs[t].Finish?
    ensures var p := s.index.pcs[t];
      p.block == p.i / B.BLOCK_SIZE && p.i < PartEnd(p.i, p.end) <= p.end <= |s.ticket.items|
    ensures AllPlaced(s)
  {
    var p := s.index.pcs[t];
    hide T.Inv, B.HeaderInv, B.EntriesKept, B.ProducerInv, B.BlockInv, B.Aligned;
    assert B.PcInv(s.index, p);
  }

  /** A consumer that finishes with a block moves out just its own elements, which are the published ones. */
  lemma MovedIsOwn(s: State, t: nat)
    requires Inv(s) && t < |s.index.pcs| && s.index.pcs[t].Finish?
    ensures var p, moved := s.index.pcs[t], Moved(s.ticket.items, s.index.pcs[t]);
      && p.i < PartEnd(p.i, p.end) <= |s.ticket.items|
      && forall x: nat ::
           && (x in moved <==> p.i <= x < PartEnd(p.i, p.end))
           && (x in moved ==> moved[x] == s.ticket.items[x] && Holds(p, x) && x !in s.taken)
  {
    var p := s.index.pcs[t];
    FinishingFacts(s, t);
    hide Inv, Holders, Position;
    forall x: nat | p.i <= x < PartEnd(p.i, p.end)
      ensures Position(p.block, x) == x && Holds(p, x) && x !in s.taken
    {
      OwnPosition(p.i, x);
      assert Placed(s, x);
      HoldersUpdate(s.index.pcs, t, B.Idle, x);
    }
  }

  lemma LookupPlaces(s: State, t: nat, x: nat)
    requires Inv(s) && t < |s.index.pcs| && !s.index.pcs[t].Idle?
    requires B.Inv(B.Step(s.index, B.Go(t)))
    ensures Placed(Step(s, Go(t)), x)
  {
    var p, s' := s.index.pcs[t], Step(s, Go(t));
    LookupHolds(s.index, t, x);
    B.PcFacts(s'.index, s'.index.pcs[t], t);
    if p.Finish? { MovedIsOwn(s, t); }
    assert Placed(s, x);
    hide Inv, T.Inv, B.Inv, B.Step, B.HasRange, Moved, PartEnd;
    HoldersUpdate(s.index.pcs, t, s'.index.pcs[t], x);
  }

  lemma LookupKeeps(s: State, t: nat)
    requires Inv(s) && t < |s.index.pcs| && !s.index.pcs[t].Idle?
    ensures Inv(Step(s, Go(t)))
  {
    var s' := Step(s, Go(t));
    B.StepInv(s.index, B.Go(t));
    LookupHolds(s.index, t, 0);
    if s.index.pcs[t].Finish? { MovedIsOwn(s, t); }
    hide T.Inv, B.Inv, B.Step, B.GrowAllowed, Moved, PartEnd, Placed;
    forall x: nat ensures Placed(s', x) { LookupPlaces(s, t, x); }
  }

  lemma EnqueueKeeps(s: State, elems: seq<Elem>)
    requires Inv(s) && T.InWindow(s.ticket)
    ensures Inv(Step(s, Enqueue(elems)))
  {
    var s' := Step(s, Enqueue(elems));
    T.StepInv(s.ticket, T.Publish(elems));
    WantsStep(s.ticket, T.Publish(elems));
    B.StepInv(s.index, B.Publish(|elems|));
    B.InvIsWellFormed(s.index);
    hide T.Inv, B.Inv, B.WellFormed, B.GrowAllowed;
    forall x: nat ensures Placed(s', x) { assert Placed(s, x); }
  }

  /** The producer's insertions and a consumer before its claim touch neither index nor any claim. */
  lemma QuietKeeps(s: State, s': State)
    requires Inv(s) && T.Inv(s'.ticket) && B.Inv(s'.index) && B.GrowAllowed(s'.index) && s'.taken == s.taken
    requires AllWant(s'.ticket.pcs)
    requires |s'.ticket.pcs| == |s.ticket.pcs| && s'.ticket.head == s.ticket.head && s'.ticket.items == s.ticket.items
    requires s'.index.pcs == s.index.pcs && s'.index.claimed == s.index.claimed
    requires s'.index.published == s.index.published
    ensures Inv(s')
  {
    hide T.Inv, B.Inv, B.GrowAllowed;
    forall x: nat ensures Placed(s', x) { assert Placed(s, x); }
  }

  lemma ProducerQuiet(s: B.State, c: B.Choice)
    requires c.InsertBlock? || c.ProducerGo? || c.Undo?
    ensures var s' := B.Step(s, c);
      s'.pcs == s.pcs && s'.claimed == s.claimed && s'.published == s.published
  {
  }

  lemma TicketQuiet(s: T.State, c: T.Choice)
    requires T.Inv(s) && (c.Call? || (c.Go? && (c.t < |s.pcs| ==> !s.pcs[c.t].Claim?)))
    ensures var s' := T.Step(s, c); |s'.pcs| == |s.pcs| && s'.head == s.head && s'.items == s.items
  {
    hide T.Inv, T.Estimate, T.Decide;
  }

  lemma StepInv(s: State, c: Choice)
    requires Inv(s) && T.InWindow(s.ticket) && (c.Call? ==> Asks(c.op, 1))
    ensures Inv(Step(s, c))
  {
    hide T.Inv, T.Step, T.InWindow, B.Inv, B.Step, B.GrowAllowed, AllPlaced, TakenRight;
    var s' := Step(s, c);
    match c {
      case InsertBlock(canAlloc) =>
        B.StepInv(s.index, B.InsertBlock(canAlloc));
        ProducerQuiet(s.index, B.InsertBlock(canAlloc));
        QuietKeeps(s, s');
      case ProducerGo(gotBlock) =>
        B.StepInv(s.index, B.ProducerGo(gotBlock));
        ProducerQuiet(s.index, B.ProducerGo(gotBlock));
        QuietKeeps(s, s');
      case Undo =>
        B.StepInv(s.index, B.Undo);
        ProducerQuiet(s.index, B.Undo);
        QuietKeeps(s, s');
      case Enqueue(elems) => EnqueueKeeps(s, elems);
      case Call(t, op) =>
        T.StepInv(s.ticket, T.Call(t, op));
        WantsStep(s.ticket, T.Call(t, op));
        TicketQuiet(s.ticket, T.Call(t, op));
        QuietKeeps(s, s');
      case Go(t) =>
        if t < |s.index.pcs| && t < |s.ticket.pcs| {
          if !s.index.pcs[t].Idle? {
            LookupKeeps(s, t);
          } else if s.ticket.pcs[t].Claim? {
            ClaimKeeps(s, t);
          } else {
            T.StepInv(s.ticket, T.Go(t));
            WantsStep(s.ticket, T.Go(t));
            TicketQuiet(s.ticket, T.Go(t));
            QuietKeeps(s, s');
          }
        }
    }
  }

  // ----- Main results over every schedule ---------------------------------------------------

  lemma CountsGrow(s: State, c: Choice)
    requires T.Small(Step(s, c).ticket)
    ensures T.Small(s.ticket)
  {
    hide T.Step, B.Step;
    match c {
      case Enqueue(elems) => T.CountsGrow(s.ticket, T.Publish(elems));
      case Call(t, op) => T.CountsGrow(s.ticket, T.Call(t, op));
      case Go(t) => T.CountsGrow(s.ticket, T.Go(t));
      case _ =>
    }
  }

  lemma {:induction false} RunInv(threads: nat, schedule: seq<Choice>)
    requires T.Small(Run(Init(threads), schedule).ticket) && AsksAtLeast(schedule, 1)
    ensures Inv(Run(Init(threads), schedule))
    decreases |schedule|
  {
    if schedule == [] {
      InitInv(threads);
    } else {
      hide Inv, T.Small, Step;
      var before := Run(Init(threads), schedule[..|schedule| - 1]);
      CountsGrow(before, schedule[|schedule| - 1]);
      RunInv(threads, schedule[..|schedule| - 1]);
      InvParts(before);
      T.SmallCountersStayInWindow(before.ticket);
      StepInv(before, schedule[|schedule| - 1]);
    }
  }

  lemma InvParts(s: State)
    requires Inv(s)
    ensures T.Inv(s.ticket) && B.Inv(s.index) && Coupled(s) && AllPlaced(s) && TakenRight(s)
  {
  }

  /** What was put into the queue, read off the schedule: the elements of every enqueue, in order, that found
      the producer free and places left in the installed blocks of 32. */
  function EnqueuedBy(s: State, schedule: seq<Choice>): seq<Elem>
    decreases |schedule|
  {
    if schedule == [] then []
    else
      var before, last := schedule[..|schedule| - 1], schedule[|schedule| - 1];
      var index := Run(s, before).index;
      EnqueuedBy(s, before) +
      if last.Enqueue? && index.producer.Ready? && index.published + |last.elems| <= 32 * index.blocks then last.elems
      else []
  }

  /** What is in the queue is what was put in, element by element. */
  lemma {:induction false} ItemsAreEnqueued(threads: nat, schedule: seq<Choice>)
    ensures Run(Init(threads), schedule).ticket.items == EnqueuedBy(Init(threads), schedule)
    decreases |schedule|
  {
    if schedule != [] {
      var before, last := schedule[..|schedule| - 1], schedule[|schedule| - 1];
      ItemsAreEnqueued(threads, before);
      hide B.Step, T.ThreadStep, B.Init;
      if last.Go? { GoKeepsItems(Run(Init(threads), before), last.t); }
    }
  }

  lemma GoKeepsItems(s: State, t: nat)
    ensures Step(s, Go(t)).ticket.items == s.ticket.items
  {
  }

  lemma {:induction false} SomeoneHolds(pcs: seq<B.Pc>, x: nat)
    requires Holders(pcs, x) > 0
    ensures exists t :: 0 <= t < |pcs| && Holds(pcs[t], x)
  {
    var m := |pcs| - 1;
    if !Holds(pcs[m], x) {
      SomeoneHolds(pcs[..m], x);
      var t :| 0 <= t < m && Holds(pcs[..m][t], x);
      assert Holds(pcs[t], x);
    }
  }

  /** Two holders would count twice. */
  lemma OnlyHolder(pcs: seq<B.Pc>, t: nat, u: nat, x: nat)
    requires t < |pcs| && u < |pcs| && Holds(pcs[t], x) && Holds(pcs[u], x) && Holders(pcs, x) <= 1
    ensures t == u
  {
    if t != u {
      HoldersUpdate(pcs, t, B.Idle, x);
      HoldersUpdate(pcs[t := B.Idle], u, B.Idle, x);
    }
  }

  /** However one producer and any number of consumers interleave, on every run with fewer than 2^63
      elements, at most 2^63 tickets and no bulk call for nothing: every index below the head is either
      taken, with the element enqueued under it, or in the claim of exactly one consumer; none at or above
      it is touched. */
  lemma EveryElementHasOneTaker(threads: nat, schedule: seq<Choice>)
    requires T.Small(Run(Init(threads), schedule).ticket) && AsksAtLeast(schedule, 1)
    ensures var s, enqueued := Run(Init(threads), schedule), EnqueuedBy(Init(threads), schedule);
      && s.ticket.head <= |enqueued|
      && (forall x: nat :: x in s.taken ==> x < s.ticket.head && s.taken[x] == enqueued[x])
      && (forall x: nat :: x < s.ticket.head ==>
            (x !in s.taken <==> exists t :: 0 <= t < |s.index.pcs| && Holds(s.index.pcs[t], x)))
      && (forall x: nat, t, u :: 0 <= t < |s.index.pcs| && 0 <= u < |s.index.pcs| && t != u ==>
            !(Holds(s.index.pcs[t], x) && Holds(s.index.pcs[u], x)))
  {
    RunInv(threads, schedule);
    ItemsAreEnqueued(threads, schedule);
    var s := Run(Init(threads), schedule);
    InvParts(s);
    T.InvHasNoOverrun(s.ticket);
    hide Inv, T.Inv, B.Inv, T.Small, Run, Holds, Holders, EnqueuedBy;
    forall x: nat | x < s.ticket.head
      ensures x !in s.taken <==> exists t :: 0 <= t < |s.index.pcs| && Holds(s.index.pcs[t], x)
    {
      assert Placed(s, x);
      if x !in s.taken { SomeoneHolds(s.index.pcs, x); }
      if t :| 0 <= t < |s.index.pcs| && Holds(s.index.pcs[t], x) { HoldersUpdate(s.index.pcs, t, B.Idle, x); }
    }
    forall x: nat, t, u | 0 <= t < |s.index.pcs| && 0 <= u < |s.index.pcs| && t != u
      ensures !(Holds(s.index.pcs[t], x) && Holds(s.index.pcs[u], x))
    {
      assert Placed(s, x);
      if Holds(s.index.pcs[t], x) && Holds(s.index.pcs[u], x) { OnlyHolder(s.index.pcs, t, u, x); }
    }
    forall x: nat | x in s.taken ensures x < s.ticket.head { assert Placed(s, x); }
  }

  predicate InOnePart(s: State, t: nat)
    requires t < |s.index.pcs| == |s.ticket.pcs|
  {
    s.index.pcs[t].Idle? || s.ticket.pcs[t].Idle? || s.ticket.pcs[t].Overrun?
  }

  /** A consumer is in one part of a call at a time: it draws its ticket, then looks its claim up; a ticket
      part that has overrun, which small counts exclude, is at its end too. */
  lemma {:induction false} OneCallAtATime(threads: nat, schedule: seq<Choice>, t: nat)
    ensures var s := Run(Init(threads), schedule);
      && |s.ticket.pcs| == |s.index.pcs| == threads
      && (t < threads ==> InOnePart(s, t))
    decreases |schedule|
  {
    if schedule != [] {
      OneCallAtATime(threads, schedule[..|schedule| - 1], t);
      hide Run, Init;
      StepInOnePart(Run(Init(threads), schedule[..|schedule| - 1]), schedule[|schedule| - 1], t);
    }
  }

  lemma StepInOnePart(s: State, c: Choice, t: nat)
    requires |s.ticket.pcs| == |s.index.pcs|
    requires t < |s.index.pcs| ==> InOnePart(s, t)
    ensures var s' := Step(s, c);
      && |s'.ticket.pcs| == |s'.index.pcs| == |s.index.pcs|
      && (t < |s.index.pcs| ==> InOnePart(s', t))
  {
    hide T.Estimate, T.Decide, B.SlotFromKey, B.WellFormed, Ring;
  }

  predicate NobodyLooks(s: State) {
    forall t :: 0 <= t < |s.index.pcs| ==> s.index.pcs[t].Idle?
  }

  /** Once every claim has been worked off, what has left the queue is what was enqueued first. */
  lemma ClaimedIsTaken(threads: nat, schedule: seq<Choice>)
    requires T.Small(Run(Init(threads), schedule).ticket) && AsksAtLeast(schedule, 1)
    requires NobodyLooks(Run(Init(threads), schedule))
    ensures var s, enqueued := Run(Init(threads), schedule), EnqueuedBy(Init(threads), schedule);
      s.ticket.head <= |enqueued|
      && s.taken == map x: nat | x < s.ticket.head && x < |enqueued| :: enqueued[x]
  {
    EveryElementHasOneTaker(threads, schedule);
    hide Run, EnqueuedBy, T.Small, AsksAtLeast;
  }

  /** A consumer moves every element of its claim out once: what a finishing step moves is the elements
      enqueued under the indices of its own claim up to the end of the block, none of them taken before. */
  lemma NothingIsTakenTwice(threads: nat, schedule: seq<Choice>, t: nat)
    requires T.Small(Run(Init(threads), schedule).ticket) && AsksAtLeast(schedule, 1)
    requires t < |Run(Init(threads), schedule).index.pcs| && Run(Init(threads), schedule).index.pcs[t].Finish?
    ensures var s, enqueued := Run(Init(threads), schedule), EnqueuedBy(Init(threads), schedule);
      var p := s.index.pcs[t];
      && p.i < PartEnd(p.i, p.end) <= |enqueued|
      && (forall x: nat :: p.i <= x < PartEnd(p.i, p.end) ==> x !in s.taken)
      && Moved(s.ticket.items, p) == map x: nat | p.i <= x < PartEnd(p.i, p.end) && x < |enqueued| :: enqueued[x]
  {
    RunInv(threads, schedule);
    ItemsAreEnqueued(threads, schedule);
    MovedIsOwn(Run(Init(threads), schedule), t);
    hide Run, EnqueuedBy, Inv, T.Small, Moved;
  }

  /** The entry a consumer ends at is the one with its element's own block. */
  predicate LookupIsRight(s: B.State, p: B.Pc) {
    && !p.LookupAssertionFailed?
    && (p.Finish? ==> p.block == p.i / B.BLOCK_SIZE)
    && (p.Check? || p.LoadValue? ==>
          && p.idx < |B.Slots(s, p.h)| && B.Slots(s, p.h)[p.idx] < |s.entries|
          && s.entries[B.Slots(s, p.h)[p.idx]] == B.Entry(B.Base(p.i / B.BLOCK_SIZE), p.i / B.BLOCK_SIZE))
  }

  lemma InvLooksRight(s: B.State, t: nat)
    requires B.Inv(s) && t < |s.pcs|
    ensures LookupIsRight(s, s.pcs[t])
  {
    B.PcFacts(s, s.pcs[t], t);
    if s.pcs[t].Check? || s.pcs[t].LoadValue? { B.SlotIsRight(s, t); }
    hide B.Inv;
  }

  lemma TailIsNotBehind(s: T.State)
    requires T.Small(s) && s.head <= |s.items|
    ensures !CircularLess(Word(|s.items|), Word(s.head))
  {
    CircularLessExact(|s.items|, s.head);
  }

  /** No assertion of look-up, insertion or undo has failed, every look-up ends at its element's own block,
      and the producer's assertion that the tail has not fallen behind the head holds on the words it
      compares. */
  predicate NoAssertionFails(s: State) {
    && !s.index.producer.ProducerAssertionFailed?
    && !CircularLess(Word(|s.ticket.items|), Word(s.ticket.head))
    && (forall t :: 0 <= t < |s.ticket.pcs| ==> !s.ticket.pcs[t].Overrun?)
    && (forall t :: 0 <= t < |s.index.pcs| ==> LookupIsRight(s.index, s.index.pcs[t]))
  }

  /** With the claims guarded by nothing but the tickets, and every bulk call asking for something. */
  lemma AssertionsHold(threads: nat, schedule: seq<Choice>)
    requires T.Small(Run(Init(threads), schedule).ticket) && AsksAtLeast(schedule, 1)
    ensures NoAssertionFails(Run(Init(threads), schedule))
  {
    RunInv(threads, schedule);
    var s := Run(Init(threads), schedule);
    hide T.Inv, B.Inv, Run, LookupIsRight, AllPlaced, Word, CircularLess;
    InvParts(s);
    T.InvHasNoOverrun(s.ticket);
    B.ProducerNeverFails(s.index);
    TailIsNotBehind(s.ticket);
    forall t | 0 <= t < |s.index.pcs| ensures LookupIsRight(s.index, s.index.pcs[t]) { InvLooksRight(s.index, t); }
  }

  // ----- Why a bulk call must ask for something ---------------------------------------------------

  function Alone(s: State, t: nat, k: nat): State {
    if k == 0 then s else Step(Alone(s, t, k - 1), Go(t))
  }

  function Goes(t: nat, k: nat): (choices: seq<Choice>)
    ensures |choices| == k && forall i :: 0 <= i < k ==> choices[i] == Go(t)
  {
    seq(k, i => Go(t))
  }

  lemma {:induction false} RunAppend(s: State, a: seq<Choice>, b: seq<Choice>)
    ensures Run(s, a + b) == Run(Run(s, a), b)
    decreases |b|
  {
    hide Step;
    if b == [] {
      assert a + b == a;
    } else {
      RunAppend(s, a, b[..|b| - 1]);
      assert (a + b)[..|a + b| - 1] == a + b[..|b| - 1];
    }
  }

  lemma RunOne(s: State, c: Choice)
    ensures Run(s, [c]) == Step(s, c)
  {
    hide Step;
    assert [c][..0] == [];
    assert Run(s, []) == s;
  }

  lemma {:induction false} RunGoes(s: State, t: nat, k: nat)
    ensures Run(s, Goes(t, k)) == Alone(s, t, k)
  {
    hide Step;
    if k > 0 {
      RunGoes(s, t, k - 1);
      assert Goes(t, k)[..k - 1] == Goes(t, k - 1);
    }
  }

  lemma RunCall(s: State, c: Choice, t: nat, k: nat)
    ensures Run(s, [c] + Goes(t, k)) == Alone(Step(s, c), t, k)
  {
    hide Step;
    RunAppend(s, [c], Goes(t, k));
    RunOne(s, c);
    RunGoes(Step(s, c), t, k);
  }

  /** Before its claim a consumer moves in the counters only. */
  lemma {:induction false} TicketAlone(s: State, t: nat, k: nat)
    requires t < |s.index.pcs| && s.index.pcs[t].Idle?
    requires forall j: nat :: j < k ==>
      t < |T.Alone(s.ticket, t, j).pcs| && !T.Alone(s.ticket, t, j).pcs[t].Claim?
    ensures Alone(s, t, k) == s.(ticket := T.Alone(s.ticket, t, k))
  {
    hide T.Step, B.Step;
    if k > 0 { TicketAlone(s, t, k - 1); }
  }

  /** From its claim on it moves in the index only. */
  lemma {:induction false} IndexAlone(s: State, t: nat, k: nat)
    requires t < |s.ticket.pcs| && t < |s.index.pcs| && s.ticket.pcs[t].Idle?
    ensures Alone(s, t, k).index == B.Alone(s.index, t, k) && Alone(s, t, k).ticket == s.ticket
    ensures |B.Alone(s.index, t, k).pcs| == |s.index.pcs|
  {
    hide B.Step, Moved;
    if k > 0 {
      IndexAlone(s, t, k - 1);
      IndexGo(B.Alone(s.index, t, k - 1), t);
    }
  }

  lemma IndexGo(s: B.State, t: nat)
    requires t < |s.pcs|
    ensures |B.Step(s, B.Go(t)).pcs| == |s.pcs| && (s.pcs[t].Idle? ==> B.Step(s, B.Go(t)) == s)
  {
  }

  /** A call and so many steps of the same thread. */
  function CallFor(t: nat, op: T.Op, k: nat): seq<Choice> {
    [Call(t, op)] + Goes(t, k)
  }

  lemma CallOneMore(t: nat, op: T.Op, k: nat)
    ensures CallFor(t, op, k + 1) == CallFor(t, op, k) + [Go(t)]
  {
  }

  lemma CallSplit(t: nat, op: T.Op, k: nat, n: nat)
    ensures CallFor(t, op, k + n) == CallFor(t, op, k) + Goes(t, n)
  {
  }

  /** Thread t may call, and would find elements. */
  predicate Callable(s: State, t: nat) {
    && t < |s.index.pcs| && t < |s.ticket.pcs| && s.index.pcs[t].Idle? && s.ticket.pcs[t].Idle?
    && s.ticket.optimistic - s.ticket.overcommit == s.ticket.head
    && 0 < |s.ticket.items| - s.ticket.head < HALF
  }

  /** Left alone, the call is about to claim in four steps. */
  lemma CallReachesClaim(s: State, t: nat, op: T.Op)
    requires Callable(s, t)
    ensures var n, s' := T.Min(T.Asked(op), |s.ticket.items| - s.ticket.head), Run(s, CallFor(t, op, 4));
      && s'.index == s.index
      && s'.ticket == T.At(s.ticket.(optimistic := s.ticket.optimistic + n, last := s'.ticket.last), t, T.Claim(n))
  {
    hide Run, Alone, T.Step, T.Alone, B.Step, ConsumerStep, T.Min, T.Asked;
    RunCall(s, Call(t, op), t, 4);
    T.LoneReachesClaim(s.ticket, t, op);
    var s0 := Step(s, Call(t, op));
    assert s0 == s.(ticket := T.Step(s.ticket, T.Call(t, op)));
    hide Step, Callable;
    TicketAlone(s0, t, 4);
  }

  /** The claim itself. */
  lemma ClaimStep(s: State, t: nat)
    requires t < |s.index.pcs| && t < |s.ticket.pcs| && s.index.pcs[t].Idle? && s.ticket.pcs[t].Claim?
    requires s.ticket.head + s.ticket.pcs[t].take <= |s.ticket.items|
    ensures var n, s' := s.ticket.pcs[t].take, Step(s, Go(t));
      && s'.index == Claimed(s.index, t, n) && s'.ticket.items == s.ticket.items
      && s'.ticket.head == s.ticket.head + n && s'.ticket.pcs == s.ticket.pcs[t := T.Idle]
      && s'.ticket.optimistic == s.ticket.optimistic && s'.ticket.overcommit == s.ticket.overcommit
  {
  }

  /** A whole call up to and with its claim. */
  lemma CallClaims(s: State, t: nat, op: T.Op)
    requires Callable(s, t)
    ensures var n, s' := T.Min(T.Asked(op), |s.ticket.items| - s.ticket.head), Run(s, CallFor(t, op, 5));
      && s'.index == Claimed(s.index, t, n) && s'.ticket.items == s.ticket.items
      && s'.ticket.head == s.ticket.head + n && s'.ticket.pcs == s.ticket.pcs
      && s'.ticket.optimistic == s.ticket.optimistic + n && s'.ticket.overcommit == s.ticket.overcommit
  {
    CallReachesClaim(s, t, op);
    var s4 := Run(s, CallFor(t, op, 4));
    ClaimStep(s4, t);
    hide T.Asked, T.Min, Claimed, T.Step, B.Step;
    CallOneMore(t, op, 4);
    RunAppend(s, CallFor(t, op, 4), [Go(t)]);
    RunOne(s4, Go(t));
  }

  /** No call is in progress, the installed blocks are full, and some element is left. */
  ghost predicate FullAndQuiet(s: State) {
    && Inv(s) && Resting(s)
    && s.index.producer.Ready? && |s.ticket.items| == B.BLOCK_SIZE * s.index.blocks
    && 0 < |s.ticket.items| - s.ticket.head < HALF
  }

  lemma QuietIsCallable(s: State, t: nat)
    requires FullAndQuiet(s) && t < |s.index.pcs|
    ensures Callable(s, t) && Coupled(s) && B.Inv(s.index) && B.GrowAllowed(s.index)
  {
    T.QuietCounts(s.ticket);
    hide T.Inv, B.Inv, B.GrowAllowed;
  }

  lemma RestIsIdle(s: State, t: nat)
    requires T.AllIdle(s.ticket.pcs) && t < |s.ticket.pcs|
    ensures s.ticket.pcs[t].Idle?
  {
  }

  lemma GoesInIndex(s: State, t: nat, k: nat)
    requires t < |s.ticket.pcs| && t < |s.index.pcs| && s.ticket.pcs[t].Idle?
    ensures Run(s, Goes(t, k)).index == B.Alone(s.index, t, k) && Run(s, Goes(t, k)).ticket == s.ticket
    ensures |B.Alone(s.index, t, k).pcs| == |s.index.pcs|
  {
    RunGoes(s, t, k);
    IndexAlone(s, t, k);
  }

  // ----- An enqueue and dequeues that run alone ---------------------------------------------------

  /** The look-up of one claimed element, left alone, is done after seven steps. */
  lemma LoneTake(s: B.State, t: nat, i: nat)
    requires B.Inv(s) && t < |s.pcs| && B.Present(s, i / B.BLOCK_SIZE)
    requires i / B.BLOCK_SIZE < |s.done| && s.done[i / B.BLOCK_SIZE] < B.BLOCK_SIZE
    ensures SameBut(s, B.Alone(B.At(s, t, B.LoadHeader(i, i + 1)), t, 7), t)
  {
    hide B.Inv, B.WellFormed, B.Step, B.Present, B.Alone, SameBut;
    B.LoneLookupFinds(s, t, i, i + 1);
    B.InvIsWellFormed(s);
    var s0 := B.At(s, t, B.LoadHeader(i, i + 1));
    FinishOne(s, t, B.Alone(s0, t, 5).pcs[t]);
    AloneSix(s0, t);
  }

  /** What is known of a claim of one element at its look-up's start. */
  lemma TakeFacts(s: B.State, t: nat)
    requires B.Inv(s) && t < |s.pcs| && s.pcs[t].LoadHeader? && s.pcs[t].end == s.pcs[t].i + 1 <= s.claimed
    ensures B.At(s, t, B.LoadHeader(s.pcs[t].i, s.pcs[t].i + 1)) == s
    ensures var b := s.pcs[t].i / B.BLOCK_SIZE; B.Present(s, b) && b < |s.done| && s.done[b] < B.BLOCK_SIZE
  {
    assert s.pcs[t := s.pcs[t]] == s.pcs;
    B.InFlightIsPresent(s, t);
    assert B.Counters(s);
  }

  /** Thread t is done, and nothing else has moved. */
  predicate SameBut(s: B.State, s': B.State, t: nat) {
    && t < |s.pcs| && s'.pcs == s.pcs[t := B.Idle] && s'.claimed == s.claimed && s'.published == s.published
    && s'.blocks == s.blocks && s'.producer == s.producer
  }

  lemma AloneSix(s: B.State, t: nat)
    ensures B.Alone(s, t, 6) == B.Step(B.Alone(s, t, 5), B.Go(t))
    ensures B.Alone(s, t, 7) == B.Step(B.Alone(s, t, 6), B.Go(t))
  {
    hide B.Step;
  }

  /** Finishing with one element, and with the block if it was the last. */
  lemma FinishOne(s: B.State, t: nat, p: B.Pc)
    requires B.WellFormed(s) && t < |s.pcs| && p.Finish? && B.AtItsBlock(s, p, p.i, p.i + 1) && p.end == p.i + 1
    requires p.i / B.BLOCK_SIZE < |s.done| && s.done[p.i / B.BLOCK_SIZE] < B.BLOCK_SIZE
    ensures SameBut(s, B.Step(B.Step(B.At(s, t, p), B.Go(t)), B.Go(t)), t)
  {
    assert B.WellFormed(B.At(s, t, p));
    var s6 := B.Step(B.At(s, t, p), B.Go(t));
    assert B.WellFormed(s6);
    hide B.WellFormed, Ring;
    assert s.pcs[t := p][t := s6.pcs[t]] == s.pcs[t := s6.pcs[t]];
    assert s.pcs[t := s6.pcs[t]][t := B.Idle] == s.pcs[t := B.Idle];
  }

  /** No call is in progress. */
  predicate Resting(s: State) {
    T.AllIdle(s.ticket.pcs) && NobodyLooks(s)
  }

  function Dequeue(t: nat): seq<Choice> {
    CallFor(t, T.Single, 12)
  }

  /** The claim of a lone dequeue, and what its look-up will come to. */
  lemma LoneClaim(s: State, t: nat)
    requires Inv(s) && Resting(s) && t < |s.index.pcs| && 0 < |s.ticket.items| - s.ticket.head < HALF
    ensures var s1 := Run(s, CallFor(t, T.Single, 5));
      && s1.ticket.pcs == s.ticket.pcs && s1.ticket.items == s.ticket.items && s1.ticket.head == s.ticket.head + 1
      && |s1.index.pcs| == |s.index.pcs| == |s.ticket.pcs|
      && B.Alone(s1.index, t, 7).pcs == s.index.pcs
  {
    assert T.Asked(T.Single) == 1 && s.index.pcs[t].Idle?;
    RestIsCallable(s, t);
    hide Inv, B.Inv, B.GrowAllowed, Run, T.Inv, B.Step, T.Step, B.Alone, Callable, CallFor, Goes, Alone;
    CallClaims(s, t, T.Single);
    LoneInIndex(s.index, t);
  }

  lemma LoneInIndex(index: B.State, t: nat)
    requires B.Inv(index) && B.GrowAllowed(index) && t < |index.pcs| && index.pcs[t].Idle?
    requires index.claimed < index.published
    ensures |Claimed(index, t, 1).pcs| == |index.pcs| && B.Alone(Claimed(index, t, 1), t, 7).pcs == index.pcs
  {
    var i1 := Claimed(index, t, 1);
    assert i1.pcs == index.pcs[t := B.LoadHeader(index.claimed, index.claimed + 1)];
    assert i1.pcs[t := B.Idle] == index.pcs && i1.claimed == index.claimed + 1;
    ClaimedIsGuarded(index, t, 1);
    hide B.Inv, B.GrowAllowed, B.Alone, Claimed;
    TakeFacts(i1, t);
    LoneTake(i1, t, index.claimed);
  }

  /** A dequeue that runs alone is over after twelve steps and has moved the head by one. */
  lemma LoneDequeue(s: State, t: nat)
    requires Inv(s) && Resting(s) && t < |s.index.pcs| && 0 < |s.ticket.items| - s.ticket.head < HALF
    ensures var s' := Run(s, Dequeue(t));
      && Resting(s') && |s'.index.pcs| == |s.index.pcs| && s'.ticket.items == s.ticket.items
      && s'.ticket.head == s.ticket.head + 1
  {
    LoneClaim(s, t);
    RestIsIdle(s, t);
    hide Inv, Run, B.Alone, CallFor, Goes;
    GoesInIndex(Run(s, CallFor(t, T.Single, 5)), t, 7);
    CallSplit(t, T.Single, 5, 7);
    RunAppend(s, CallFor(t, T.Single, 5), Goes(t, 7));
  }

  lemma RestIsCallable(s: State, t: nat)
    requires Inv(s) && Resting(s) && t < |s.index.pcs| && 0 < |s.ticket.items| - s.ticket.head < HALF
    ensures Callable(s, t) && Coupled(s) && B.Inv(s.index) && B.GrowAllowed(s.index)
  {
    T.QuietCounts(s.ticket);
    hide T.Inv, B.Inv, B.GrowAllowed;
  }

  lemma {:induction false} SmallBefore(s: State, a: seq<Choice>, b: seq<Choice>)
    requires T.Small(Run(s, a + b).ticket)
    ensures T.Small(Run(s, a).ticket)
    decreases |b|
  {
    hide Step, T.Small;
    if b == [] {
      assert a + b == a;
    } else {
      var n := |b| - 1;
      assert (a + b)[..|a + b| - 1] == a + b[..n];
      CountsGrow(Run(s, a + b[..n]), b[n]);
      SmallBefore(s, a, b[..n]);
    }
  }

  /** So many dequeues by one thread, one after the other. */
  function Dequeues(t: nat, n: nat): seq<Choice> {
    if n == 0 then [] else Dequeues(t, n - 1) + Dequeue(t)
  }

  lemma {:induction false} DequeuesAsk(t: nat, n: nat)
    ensures AsksAtLeast(Dequeues(t, n), 1)
  {
    if n > 0 { DequeuesAsk(t, n - 1); }
  }

  lemma {:induction false} LoneDequeues(threads: nat, schedule: seq<Choice>, t: nat, n: nat)
    requires T.Small(Run(Init(threads), schedule + Dequeues(t, n)).ticket) && AsksAtLeast(schedule, 1)
    requires var s := Run(Init(threads), schedule);
      Resting(s) && t < |s.index.pcs| && n <= |s.ticket.items| - s.ticket.head < HALF
    ensures var s, s' := Run(Init(threads), schedule), Run(Init(threads), schedule + Dequeues(t, n));
      && Resting(s') && |s'.index.pcs| == |s.index.pcs| && s'.ticket.items == s.ticket.items
      && s'.ticket.head == s.ticket.head + n
    decreases n
  {
    hide Resting, T.Small, Inv, Run, Dequeue, Init;
    if n == 0 {
      assert schedule + Dequeues(t, 0) == schedule;
    } else {
      var before := schedule + Dequeues(t, n - 1);
      assert schedule + Dequeues(t, n) == before + Dequeue(t);
      hide Dequeues;
      SmallBefore(Init(threads), before, Dequeue(t));
      LoneDequeues(threads, schedule, t, n - 1);
      DequeuesAsk(t, n - 1);
      RunInv(threads, before);
      RunAppend(Init(threads), before, Dequeue(t));
      LoneDequeue(Run(Init(threads), before), t);
    }
  }

  /** In at one end and out at the other: elements enqueued into an empty queue, whatever was done with it
      before, are what dequeues then hand out, in order. */
  lemma EnqueuedThenDequeued(threads: nat, schedule: seq<Choice>, elems: seq<Elem>, t: nat, n: nat)
    requires T.Small(Run(Init(threads), schedule + [Enqueue(elems)] + Dequeues(t, n)).ticket)
    requires AsksAtLeast(schedule, 1) && n <= |elems|
    requires var s := Run(Init(threads), schedule);
      && Resting(s) && t < |s.index.pcs| && s.ticket.head == |s.ticket.items|
      && s.index.producer.Ready? && |s.ticket.items| + |elems| <= 32 * s.index.blocks
    ensures var s := Run(Init(threads), schedule);
      var s' := Run(Init(threads), schedule + [Enqueue(elems)] + Dequeues(t, n));
      && s'.ticket.head == s.ticket.head + n && Resting(s')
      && forall x: nat :: s.ticket.head <= x < s.ticket.head + n ==>
           x in s'.taken && s'.taken[x] == elems[x - s.ticket.head]
  {
    hide Init, Run, Step, T.Small, Inv, Dequeues, EnqueuedBy, Resting, Holds;
    var s0, puts := Init(threads), schedule + [Enqueue(elems)];
    var s := Run(s0, schedule);
    SmallBefore(s0, puts, Dequeues(t, n));
    SmallBefore(s0, schedule, [Enqueue(elems)]);
    RunInv(threads, schedule);
    RunAppend(s0, schedule, [Enqueue(elems)]);
    RunOne(s, Enqueue(elems));
    EnqueueEmpty(s, elems);
    SmallIsShort(Run(s0, puts));
    assert AsksAtLeast(puts, 1);
    LoneDequeues(threads, puts, t, n);
    DequeuesAsk(t, n);
    var all := puts + Dequeues(t, n);
    assert AsksAtLeast(all, 1);
    EveryElementHasOneTaker(threads, all);
    ItemsAreEnqueued(threads, all);
    var s' := Run(s0, all);
    assert s'.ticket.items == s.ticket.items + elems;
    hide AsksAtLeast;
    forall x: nat | s.ticket.head <= x < s.ticket.head + n
      ensures x in s'.taken && s'.taken[x] == elems[x - s.ticket.head]
    {
      NobodyHoldsAtRest(s', x);
    }
  }

  lemma SmallIsShort(s: State)
    requires T.Small(s.ticket)
    ensures |s.ticket.items| < HALF
  {
  }

  lemma NobodyHoldsAtRest(s: State, x: nat)
    requires Resting(s)
    ensures !exists t :: 0 <= t < |s.index.pcs| && Holds(s.index.pcs[t], x)
  {
    assert forall t :: 0 <= t < |s.index.pcs| ==> s.index.pcs[t].Idle?;
  }

  lemma EnqueueEmpty(s: State, elems: seq<Elem>)
    requires Inv(s) && Resting(s) && s.index.producer.Ready? && |s.ticket.items| + |elems| <= 32 * s.index.blocks
    ensures var s' := Step(s, Enqueue(elems));
      && Resting(s') && s'.ticket.items == s.ticket.items + elems && s'.ticket.head == s.ticket.head
      && |s'.index.pcs| == |s.index.pcs|
  {
    InvParts(s);
    B.InvIsWellFormed(s.index);
    hide Inv, T.Inv, B.Inv, B.WellFormed;
  }

  /** Thread t has claimed nothing at the head, thread u the rest of the head's block. */
  lemma BothClaimed(index: B.State, t: nat, u: nat, n: nat)
    requires B.Inv(index) && B.GrowAllowed(index) && t < |index.pcs| && u < |index.pcs| && t != u
    requires (forall v :: 0 <= v < |index.pcs| ==> index.pcs[v].Idle?)
    requires 0 < n && index.claimed + n <= index.published
    ensures var i, s := index.claimed, Claimed(index, u, n);
      && B.Inv(s) && B.GrowAllowed(s) && |s.pcs| == |index.pcs| && s.pcs[u] == B.LoadHeader(i, i + n)
      && |Claimed(index, t, 0).pcs| == |index.pcs|
      && Claimed(Claimed(index, t, 0), u, n) == B.At(s, t, B.LoadHeader(i, i))
      && i / B.BLOCK_SIZE < |s.done| && s.done[i / B.BLOCK_SIZE] == i % B.BLOCK_SIZE
  {
    var i := index.claimed;
    var p, q := B.LoadHeader(i, i), B.LoadHeader(i, i + n);
    ClaimedIsGuarded(index, u, n);
    assert index.pcs[t := p][u := q] == index.pcs[u := q][t := p];
    HeadBlockLeft(index, i / B.BLOCK_SIZE);
    hide B.Inv, B.GrowAllowed;
  }

  lemma HeadBlockLeft(index: B.State, b: nat)
    requires B.Inv(index) && (forall v :: 0 <= v < |index.pcs| ==> index.pcs[v].Idle?)
    requires index.claimed < index.published && b == index.claimed / B.BLOCK_SIZE
    ensures b < index.blocks == |index.done| && index.done[b] == index.claimed - B.BLOCK_SIZE * b
  {
    hide B.HeaderInv, B.EntriesKept, B.ProducerInv, B.PcInv, B.Present;
    assert B.BlockInv(index, b);
    B.NoneAbove(index.pcs, b);
  }

  /** Finishing with a block that this makes, or finds, completed. */
  lemma FinishOf(s: B.State, t: nat, p: B.Pc)
    requires B.WellFormed(s) && t < |s.pcs| && p.Finish? && B.AtItsBlock(s, p, p.i, p.end) && p.i <= p.end
    requires p.i / B.BLOCK_SIZE < |s.done|
    requires s.done[p.i / B.BLOCK_SIZE] + B.Min(p.end, B.EndOfBlock(p.i)) - p.i == B.BLOCK_SIZE
    ensures var s' := B.Step(B.At(s, t, p), B.Go(t));
      && |s'.pcs| == |s.pcs| && s'.pcs[t].StoreNull? && s'.pcs[t].block == p.i / B.BLOCK_SIZE
      && (forall v :: 0 <= v < |s.pcs| && v != t ==> s'.pcs[v] == s.pcs[v])
  {
    assert B.WellFormed(B.At(s, t, p));
    hide B.WellFormed, B.Min, B.EndOfBlock, Ring;
  }

  /** The look-up for the rest of a block, or for nothing in a completed one, left alone: the thread
      comes to give the block back. */
  lemma LoneCompletes(s: B.State, t: nat, i: nat, end: nat)
    requires B.Inv(s) && t < |s.pcs| && B.Present(s, i / B.BLOCK_SIZE) && i / B.BLOCK_SIZE < |s.done|
    requires i <= end <= B.EndOfBlock(i) && s.done[i / B.BLOCK_SIZE] + end - i == B.BLOCK_SIZE
    ensures var s0 := B.At(s, t, B.LoadHeader(i, end));
      var s6 := B.Alone(s0, t, 6);
      && |s6.pcs| == |s.pcs| && s6.pcs[t].StoreNull? && s6.pcs[t].block == i / B.BLOCK_SIZE
      && (forall v :: 0 <= v < |s.pcs| && v != t ==> s6.pcs[v] == s.pcs[v])
  {
    B.LoneLookupFinds(s, t, i, end);
    B.InvIsWellFormed(s);
    hide B.Inv, B.WellFormed, B.Step, B.Present;
    var s0 := B.At(s, t, B.LoadHeader(i, end));
    FinishOf(s, t, B.Alone(s0, t, 5).pcs[t]);
    assert B.Alone(s0, t, 6) == B.Step(B.Alone(s0, t, 5), B.Go(t));
  }

  lemma ClaimIsPresent(s: B.State, u: nat)
    requires B.Inv(s) && u < |s.pcs| && s.pcs[u].LoadHeader? && s.pcs[u].i < s.pcs[u].end <= s.claimed
    ensures var b := s.pcs[u].i / B.BLOCK_SIZE; B.Present(s, b) && b < |s.done|
  {
    B.InFlightIsPresent(s, u);
    assert B.Counters(s);
  }

  lemma GivenBackIsPresent(s: B.State, u: nat)
    requires B.Inv(s) && u < |s.pcs| && s.pcs[u].StoreNull?
    ensures var b := s.pcs[u].block;
      && 0 <= b < |s.done| && s.done[b] == B.BLOCK_SIZE && B.Present(s, b)
  {
    B.NullingIsPresent(s, u);
    assert B.Counters(s);
  }

  /** Thread u completes the block; then t, whose look-up for nothing still finds it, sees it completed
      and takes itself for the one that did. */
  lemma BothComplete(s: B.State, t: nat, u: nat)
    requires B.Inv(s) && B.GrowAllowed(s) && t < |s.pcs| && u < |s.pcs| && t != u && s.pcs[u].LoadHeader?
    requires var i := s.pcs[u].i; var b := i / B.BLOCK_SIZE;
      i < s.pcs[u].end == B.EndOfBlock(i) <= s.claimed && b < |s.done| && s.done[b] == i % B.BLOCK_SIZE
    ensures var i := s.pcs[u].i;
      var s0 := B.At(s, t, B.LoadHeader(i, i));
      var s1 := B.Alone(s0, u, 6);
      var s2 := B.Alone(s1, t, 6);
      && |s2.pcs| == |s.pcs|
      && s2.pcs[t].StoreNull? && s2.pcs[u].StoreNull? && s2.pcs[t].block == s2.pcs[u].block == i / B.BLOCK_SIZE
  {
    var i, end := s.pcs[u].i, s.pcs[u].end;
    var p := B.LoadHeader(i, i);
    assert B.At(s, u, B.LoadHeader(i, end)) == s by { assert s.pcs[u := s.pcs[u]] == s.pcs; }
    ClaimIsPresent(s, u);
    hide B.Inv, B.GrowAllowed, B.Present, B.Step, B.Alone;
    LoneCompletes(s, u, i, end);
    var after := B.Alone(s, u, 6);
    B.AloneInv(s, u, 6);
    B.OthersStay(s, t, p, u, 6);
    GivenBackIsPresent(after, u);
    LoneCompletes(after, t, i, i);
  }

  /** Thread t asks for nothing and claims it; u takes n elements, up to giving their block back, and
      then t goes on. */
  function TwiceBack(t: nat, u: nat, n: nat): seq<Choice> {
    CallFor(t, T.Bulk(0), 5) + CallFor(u, T.Bulk(n), 5) + Goes(u, 6) + Goes(t, 6)
  }

  lemma RunFour(s: State, a: seq<Choice>, b: seq<Choice>, c: seq<Choice>, d: seq<Choice>)
    ensures Run(s, a + b + c + d) == Run(Run(Run(Run(s, a), b), c), d)
  {
    RunAppend(s, a + b + c, d);
    RunAppend(s, a + b, c);
    RunAppend(s, a, b);
  }

  /** A claim of nothing leaves everybody else's chances as they were. */
  lemma StillCallable(s: State, s': State, t: nat, u: nat)
    requires Callable(s, t) && Callable(s, u) && t != u && s'.index == Claimed(s.index, t, 0)
    requires s'.ticket.items == s.ticket.items && s'.ticket.pcs == s.ticket.pcs && s'.ticket.head == s.ticket.head
    requires s'.ticket.optimistic == s.ticket.optimistic && s'.ticket.overcommit == s.ticket.overcommit
    ensures Callable(s', u)
  {
  }

  lemma BothClaim(s: State, t: nat, u: nat, n: nat)
    requires FullAndQuiet(s) && t < |s.index.pcs| && u < |s.index.pcs| && t != u
    requires 0 < n <= |s.ticket.items| - s.ticket.head
    ensures var s' := Run(Run(s, CallFor(t, T.Bulk(0), 5)), CallFor(u, T.Bulk(n), 5));
      && |Claimed(s.index, t, 0).pcs| == |s.index.pcs| && s'.ticket.pcs == s.ticket.pcs
      && s'.index == Claimed(Claimed(s.index, t, 0), u, n)
  {
    QuietIsCallable(s, t);
    QuietIsCallable(s, u);
    hide FullAndQuiet;
    assert |Claimed(s.index, t, 0).pcs| == |s.index.pcs|;
    CallClaims(s, t, T.Bulk(0));
    var s1 := Run(s, CallFor(t, T.Bulk(0), 5));
    hide Run, T.Step, B.Step, Goes, Claimed;
    StillCallable(s, s1, t, u);
    hide Callable;
    CallClaims(s1, u, T.Bulk(n));
  }

  /** How many indices of the block of this one are left. */
  function RestOfBlock(i: nat): (n: nat)
    ensures n > 0 && i + n == B.EndOfBlock(i)
  {
    B.EndOfBlock(i) - i
  }

  /** Both threads are about to clear the block's entry and put the block on the free list. */
  predicate BothGiveBack(index: B.State, t: nat, u: nat, block: nat) {
    && t < |index.pcs| && index.pcs[t].StoreNull? && index.pcs[t].block == block
    && u < |index.pcs| && index.pcs[u].StoreNull? && index.pcs[u].block == block
  }

  lemma GivenBackInIndex(s: State, t: nat, u: nat, n: nat)
    requires FullAndQuiet(s) && t < |s.index.pcs| && u < |s.index.pcs| && t != u
    requires n == RestOfBlock(s.ticket.head)
    ensures n <= |s.ticket.items| - s.ticket.head && |Claimed(s.index, t, 0).pcs| == |s.index.pcs|
    ensures BothGiveBack(B.Alone(B.Alone(Claimed(Claimed(s.index, t, 0), u, n), u, 6), t, 6), t, u,
                         s.ticket.head / B.BLOCK_SIZE)
  {
    QuietIsCallable(s, t);
    assert NobodyLooks(s) && s.ticket.head + n <= |s.ticket.items|;
    hide FullAndQuiet, B.Alone, B.Step, B.Inv, B.GrowAllowed, Claimed;
    BothClaimed(s.index, t, u, n);
    ClaimedSoFar(s.index, u, n);
    BothComplete(Claimed(s.index, u, n), t, u);
  }

  lemma ClaimedSoFar(index: B.State, u: nat, n: nat)
    requires u < |index.pcs|
    ensures Claimed(index, u, n).claimed == index.claimed + n
  {
  }

  /** From any quiet state with full blocks and an element left, a bulk call for nothing and another call
      come to give the same block back, both of them. */
  lemma GivenBackTwice(s: State, t: nat, u: nat, n: nat)
    requires FullAndQuiet(s) && t < |s.index.pcs| && u < |s.index.pcs| && t != u
    requires n == RestOfBlock(s.ticket.head)
    ensures BothGiveBack(Run(s, TwiceBack(t, u, n)).index, t, u, s.ticket.head / B.BLOCK_SIZE)
  {
    QuietIsCallable(s, t);
    assert |s.ticket.pcs| == |s.index.pcs|;
    RestIsIdle(s, t);
    RestIsIdle(s, u);
    hide FullAndQuiet, Run, Goes, CallFor, BothGiveBack, Claimed, B.Alone, B.Step;
    GivenBackInIndex(s, t, u, n);
    BothClaim(s, t, u, n);
    RunFour(s, CallFor(t, T.Bulk(0), 5), CallFor(u, T.Bulk(n), 5), Goes(u, 6), Goes(t, 6));
    var s2 := Run(Run(s, CallFor(t, T.Bulk(0), 5)), CallFor(u, T.Bulk(n), 5));
    TwoClaimsSizes(s.index, t, u, n);
    GoesInIndex(s2, u, 6);
    GoesInIndex(Run(s2, Goes(u, 6)), t, 6);
  }

  lemma TwoClaimsSizes(index: B.State, t: nat, u: nat, n: nat)
    requires t < |index.pcs| && u < |index.pcs| && |Claimed(index, t, 0).pcs| == |index.pcs|
    ensures |Claimed(Claimed(index, t, 0), u, n).pcs| == |index.pcs|
  {
  }

  /** No call is in progress, and an installed block has an unclaimed place. */
  predicate Settled(s: State) {
    && Resting(s)
    && s.index.producer.Ready? && 0 < B.BLOCK_SIZE * s.index.blocks - s.ticket.head < HALF
  }

  /** Elements for the rest of the installed blocks. */
  function Filler(s: State): (elems: seq<Elem>) {
    var places, published := B.BLOCK_SIZE * s.index.blocks, |s.ticket.items|;
    seq(if published < places then places - published else 0, i => 0)
  }

  lemma FillUp(s: State)
    requires Inv(s) && Settled(s)
    ensures var s' := Step(s, Enqueue(Filler(s)));
      FullAndQuiet(s') && s'.ticket.head == s.ticket.head && |s'.index.pcs| == |s.index.pcs|
  {
    assert T.InWindow(s.ticket);
    EnqueueKeeps(s, Filler(s));
    assert B.Counters(s.index);
    B.InvIsWellFormed(s.index);
    hide Inv, T.Inv, B.Inv, B.WellFormed;
    InvParts(s);
  }

  /** So a call for nothing can do harm whatever happened before, if only some place is unclaimed: after
      the enqueue of `Filler`, it and one more call come to give the same block back. */
  lemma AskingForNothingCanGiveBackTwice(threads: nat, schedule: seq<Choice>, t: nat, u: nat)
    requires T.Small(Run(Init(threads), schedule).ticket) && AsksAtLeast(schedule, 1)
    requires var s := Run(Init(threads), schedule);
      Settled(s) && t < |s.index.pcs| && u < |s.index.pcs| && t != u
    ensures var s := Run(Init(threads), schedule);
      var harm := [Enqueue(Filler(s))] + TwiceBack(t, u, RestOfBlock(s.ticket.head));
      BothGiveBack(Run(Init(threads), schedule + harm).index, t, u, s.ticket.head / B.BLOCK_SIZE)
  {
    hide Init, Inv, T.Small, Run, Settled, FullAndQuiet, Step, TwiceBack, Filler, BothGiveBack, B.EndOfBlock;
    RunInv(threads, schedule);
    var s := Run(Init(threads), schedule);
    var n := RestOfBlock(s.ticket.head);
    FillUp(s);
    RunOne(s, Enqueue(Filler(s)));
    RunAppend(s, [Enqueue(Filler(s))], TwiceBack(t, u, n));
    RunAppend(Init(threads), schedule, [Enqueue(Filler(s))] + TwiceBack(t, u, n));
    GivenBackTwice(Step(s, Enqueue(Filler(s))), t, u, n);
  }

  /** Thread t asks for nothing and stops before its fetch-add; u claims all n elements there are; then t
      claims nothing past them and looks that index up. */
  function LookedUpTooLate(t: nat, u: nat, n: nat): seq<Choice> {
    CallFor(t, T.Bulk(0), 4) + CallFor(u, T.Bulk(n), 5) + [Go(t)] + Goes(t, 4)
  }

  lemma LastBlockPresent(s: B.State, u: nat)
    requires B.Inv(s) && u < |s.pcs| && s.pcs[u].LoadHeader? && s.pcs[u].i < s.pcs[u].end == B.BLOCK_SIZE * s.blocks
    ensures s.blocks > 0 && B.Present(s, s.blocks - 1)
  {
    hide B.HeaderInv, B.EntriesKept, B.ProducerInv, B.PcInv, B.Present;
    assert B.BlockInv(s, s.blocks - 1);
    B.TotalUpdate(B.InFlight, s.pcs, u, B.Idle, s.blocks - 1);
  }

  /** In the index, the second claim being that of nothing. */
  lemma TooLateInIndex(index: B.State, t: nat, u: nat, n: nat)
    requires B.Inv(index) && B.GrowAllowed(index) && t < |index.pcs| && u < |index.pcs| && t != u
    requires index.pcs[t].Idle? && index.pcs[u].Idle? && index.producer.Ready? && B.NextSlotIsFree(index)
    requires n > 0 && index.claimed + n == index.published == B.BLOCK_SIZE * index.blocks
    ensures var a := Claimed(index, u, n);
      |a.pcs| == |index.pcs| && a.pcs[t].Idle?
      && var b := Claimed(a, t, 0);
      t < |B.Alone(b, t, 4).pcs| && B.Alone(b, t, 4).pcs[t].LookupAssertionFailed?
  {
    ClaimedIsGuarded(index, u, n);
    var a := Claimed(index, u, n);
    assert B.NextSlotIsFree(a) by { assert B.WellFormed(a); }
    hide B.Inv, B.NextSlotIsFree, B.GrowAllowed, B.Alone, B.Step;
    LastBlockPresent(a, u);
    hide B.Present;
    B.LoneLookupPastTheBlocksFails(a, t, index.published);
    assert Claimed(a, t, 0) == B.At(a, t, B.LoadHeader(B.BLOCK_SIZE * a.blocks, index.published));
  }

  /** Thread t stops before its claim of nothing, and u claims everything. */
  lemma ClaimsBehind(s: State, t: nat, u: nat, n: nat)
    requires Callable(s, t) && Callable(s, u) && t != u && n == |s.ticket.items| - s.ticket.head
    ensures var s2 := Run(Run(s, CallFor(t, T.Bulk(0), 4)), CallFor(u, T.Bulk(n), 5));
      && s2.index == Claimed(s.index, u, n) && s2.ticket.items == s.ticket.items
      && s2.ticket.head == |s.ticket.items| && s2.ticket.optimistic == s.ticket.optimistic + n
      && s2.ticket.pcs == s.ticket.pcs[t := T.Claim(0)]
  {
    CallReachesClaim(s, t, T.Bulk(0));
    var s1 := Run(s, CallFor(t, T.Bulk(0), 4));
    hide Run, T.Step, B.Step, Goes, Claimed;
    assert Callable(s1, u);
    hide Callable;
    CallClaims(s1, u, T.Bulk(n));
  }

  lemma LookUpFails(s: State, t: nat, u: nat, n: nat)
    requires FullAndQuiet(s) && t < |s.index.pcs| && u < |s.index.pcs| && t != u && B.NextSlotIsFree(s.index)
    requires n == |s.ticket.items| - s.ticket.head
    ensures var s' := Run(s, LookedUpTooLate(t, u, n));
      && t < |s'.index.pcs| && s'.index.pcs[t].LookupAssertionFailed?
      && s'.ticket.items == s.ticket.items && s'.ticket.optimistic == s.ticket.optimistic + n
  {
    QuietIsCallable(s, t);
    QuietIsCallable(s, u);
    assert |s.ticket.pcs| == |s.index.pcs| && n > 0;
    var a, b := CallFor(t, T.Bulk(0), 4), CallFor(u, T.Bulk(n), 5);
    ClaimsBehind(s, t, u, n);
    var s2 := Run(Run(s, a), b);
    TooLateInIndex(s.index, t, u, n);
    hide FullAndQuiet, B.Inv, B.GrowAllowed, B.NextSlotIsFree, Claimed, Callable, Goes, Run, Step, B.Alone;
    ClaimStep(s2, t);
    RunFour(s, a, b, [Go(t)], Goes(t, 4));
    RunOne(s2, Go(t));
    GoesInIndex(Step(s2, Go(t)), t, 4);
  }

  // ----- Blocks given back --------------------------------------------------------------------

  function ProducerGoes(n: nat): seq<Choice> {
    seq(n, i => ProducerGo(true))
  }

  lemma {:induction false} RunProducer(s: State, n: nat)
    ensures Run(s, ProducerGoes(n)) == s.(index := B.Steps(s.index, n))
    decreases n
  {
    if n > 0 {
      assert ProducerGoes(n) == [ProducerGo(true)] + ProducerGoes(n - 1);
      RunAppend(s, [ProducerGo(true)], ProducerGoes(n - 1));
      RunOne(s, ProducerGo(true));
      RunProducer(s.(index := B.Next(s.index)), n - 1);
    }
  }

  /** A bulk enqueue that fails after any run gives back its blocks: the producer is free again, every block
      left has an enqueued element or more, and neither the elements nor any consumer notices. */
  lemma UndoLeavesTheElements(threads: nat, schedule: seq<Choice>) returns (n: nat)
    requires T.Small(Run(Init(threads), schedule).ticket) && AsksAtLeast(schedule, 1)
    requires Run(Init(threads), schedule).index.producer.Ready?
    requires |EnqueuedBy(Init(threads), schedule)| + 32 <= 32 * Run(Init(threads), schedule).index.blocks
    ensures var s, s' := Run(Init(threads), schedule), Run(Init(threads), schedule + ([Undo] + ProducerGoes(n)));
      && s'.ticket == s.ticket && s'.taken == s.taken && s'.index.pcs == s.index.pcs && s'.index.producer.Ready?
      && 32 * (s'.index.blocks - 1) < |EnqueuedBy(Init(threads), schedule)| <= 32 * s'.index.blocks
  {
    RunInv(threads, schedule);
    ItemsAreEnqueued(threads, schedule);
    var s := Run(Init(threads), schedule);
    InvParts(s);
    n := 2 * (s.index.blocks - B.FirstUnused(s.index));
    hide Run, Init, EnqueuedBy, Inv, B.Inv, T.Small, B.Steps, B.Step, AsksAtLeast;
    B.UndoGivesBack(s.index, true);
    RunAppend(Init(threads), schedule, [Undo] + ProducerGoes(n));
    RunAppend(s, [Undo], ProducerGoes(n));
    RunOne(s, Undo);
    RunProducer(Step(s, Undo), n);
  }

  /** One block, filled, and nothing else yet. */
  function OneBlock(): seq<Choice> {
    [InsertBlock(true), ProducerGo(true), ProducerGo(true), ProducerGo(true), ProducerGo(true),
     Enqueue(seq(B.BLOCK_SIZE, i => 0))]
  }

  lemma AfterOneBlock(threads: nat)
    ensures var s := Run(Init(threads), OneBlock());
      && FullAndQuiet(s) && B.NextSlotIsFree(s.index) && |s.index.pcs| == threads
      && s.ticket.head == s.ticket.optimistic == 0 && |s.ticket.items| == B.BLOCK_SIZE
  {
    var s0 := Init(threads);
    var prefix, c := OneBlock()[..5], Enqueue(seq(B.BLOCK_SIZE, i => 0));
    assert OneBlock() == prefix + [c] && AsksAtLeast(OneBlock(), 1);
    hide Run, OneBlock, Init, FullAndQuiet, T.Small, B.NextSlotIsFree, AsksAtLeast, B.Init, B.Steps;
    FivePrefix(s0);
    InitParts(threads);
    var s5 := s0.(index := B.Steps(B.Step(s0.index, B.InsertBlock(true)), 4));
    RunAppend(s0, prefix, [c]);
    RunOne(s5, c);
    hide Step;
    FillTheFirst(threads, s5.index);
    RunInv(threads, OneBlock());
  }

  lemma InitParts(threads: nat)
    ensures Init(threads).index == B.Init(threads) && Init(threads).ticket == T.Init(threads)
  {
  }

  lemma FillTheFirst(threads: nat, index: B.State)
    requires index == B.Steps(B.Step(B.Init(threads), B.InsertBlock(true)), 4)
    ensures var s := Step(Init(threads).(index := index), Enqueue(seq(B.BLOCK_SIZE, i => 0)));
      && (Inv(s) ==> FullAndQuiet(s)) && T.Small(s.ticket) && B.NextSlotIsFree(s.index) && |s.index.pcs| == threads
      && s.ticket.head == s.ticket.optimistic == 0 && |s.ticket.items| == B.BLOCK_SIZE
  {
    B.FirstBlock(threads);
    hide B.Steps, Inv;
    var s := Step(Init(threads).(index := index), Enqueue(seq(B.BLOCK_SIZE, i => 0)));
    assert B.NextSlotIsFree(s.index) by { assert B.WellFormed(s.index) == B.WellFormed(index); }
    assert s.index.pcs == B.Init(threads).pcs;
  }

  lemma FivePrefix(s: State)
    ensures Run(s, OneBlock()[..5]) == s.(index := B.Steps(B.Step(s.index, B.InsertBlock(true)), 4))
  {
    hide B.Step;
    var i1 := B.Step(s.index, B.InsertBlock(true));
    var i2 := B.Next(i1);
    var i3 := B.Next(i2);
    var i4 := B.Next(i3);
    B.FourSteps(i1);
    assert OneBlock()[..0] == [] && OneBlock()[..1] == OneBlock()[..2][..1] && OneBlock()[..2] == OneBlock()[..3][..2];
    assert OneBlock()[..3] == OneBlock()[..4][..3] && OneBlock()[..4] == OneBlock()[..5][..4];
    assert Run(s, OneBlock()[..0]) == s;
    assert Run(s, OneBlock()[..1]) == s.(index := i1);
    assert Run(s, OneBlock()[..2]) == s.(index := i2);
    assert Run(s, OneBlock()[..3]) == s.(index := i3);
    assert Run(s, OneBlock()[..4]) == s.(index := i4);
  }

  /** The failing run: one full block, a call for nothing that stops before its claim, a call that claims
      all 32 elements, and then a look-up of index 32, which no block has. */
  lemma EmptyBulkFailsTheLookup()
    ensures var s := Run(Init(2), OneBlock() + LookedUpTooLate(0, 1, B.BLOCK_SIZE));
      T.Small(s.ticket) && |s.index.pcs| > 0 && s.index.pcs[0].LookupAssertionFailed?
  {
    hide FullAndQuiet, Run, LookedUpTooLate, OneBlock;
    AfterOneBlock(2);
    LookUpFails(Run(Init(2), OneBlock()), 0, 1, B.BLOCK_SIZE);
    RunAppend(Init(2), OneBlock(), LookedUpTooLate(0, 1, B.BLOCK_SIZE));
  }

  lemma FailureIsNoted(s: State, t: nat)
    requires t < |s.index.pcs| && s.index.pcs[t].LookupAssertionFailed?
    ensures !NoAssertionFails(s)
  {
    assert !LookupIsRight(s.index, s.index.pcs[t]);
  }

  /** No run with bulk calls for at least so many elements fails an assertion. */
  ghost predicate SafeFrom(least: nat) {
    forall threads: nat, schedule ::
      T.Small(Run(Init(threads), schedule).ticket) && AsksAtLeast(schedule, least) ==>
        NoAssertionFails(Run(Init(threads), schedule))
  }

  /** The condition is exact: the least number a bulk call may ask for is one. */
  lemma SafeIffBulkCallsAskForSomething(least: nat)
    ensures SafeFrom(least) <==> least >= 1
  {
    hide Run, Init, OneBlock, LookedUpTooLate, T.Small, NoAssertionFails, AsksAtLeast;
    if least >= 1 {
      forall threads: nat, schedule |
          T.Small(Run(Init(threads), schedule).ticket) && AsksAtLeast(schedule, least)
        ensures NoAssertionFails(Run(Init(threads), schedule))
      {
        AskingLess(schedule, least, 1);
        AssertionsHold(threads, schedule);
      }
    } else {
      UnsafeFromZero();
    }
  }

  lemma AskingLess(schedule: seq<Choice>, least: nat, less: nat)
    requires AsksAtLeast(schedule, least) && less <= least
    ensures AsksAtLeast(schedule, less)
  {
  }

  lemma UnsafeFromZero()
    ensures !SafeFrom(0)
  {
    EmptyBulkFailsTheLookup();
    var schedule := OneBlock() + LookedUpTooLate(0, 1, B.BLOCK_SIZE);
    assert AsksAtLeast(schedule, 0);
    hide Run, Init, OneBlock, LookedUpTooLate, T.Small, NoAssertionFails, AsksAtLeast;
    FailureIsNoted(Run(Init(2), schedule), 0);
  }
}
