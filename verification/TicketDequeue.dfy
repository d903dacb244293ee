/** The optimistic-count / overcommit dequeue protocol of concurrentqueue.h: any number of
    consumers, single and bulk, against one producer, as a system of atomic steps.

    Counters are unbounded integers; the machine stores and compares their 64-bit images,
    so every comparison is made on words. */
module TicketDequeue {
  import opened Words

  type Elem = int

  datatype Op = Single | Bulk(max: nat)

  /** The next atomic access of a consumer, with the locals it needs.
      `want` is the size of the ticket, `my` the optimistic count it was issued at. */
  datatype Pc =
    | Idle
    | LoadOvercommit(op: Op, tail: nat)
    | LoadOptimistic(op: Op, tail: nat, over: nat)
    | TakeTicket(op: Op, over: nat, want: nat)
    | ReloadTail(op: Op, over: nat, want: nat, my: nat)
    | ReturnSurplus(give: nat, take: nat)
    | Claim(take: nat)
    | GiveBack(give: nat)
    | Overrun

  /** `items` is everything published so far (so `tailIndex` is its length); `optimistic`,
      `overcommit` and `head` are the three consumer counters. `delivered` collects claimed
      elements in claim order; `last` (the end of the latest winning ticket) is only for the proof. */
  datatype State = State(items: seq<Elem>, optimistic: nat, overcommit: nat, head: nat,
                         pcs: seq<Pc>, delivered: seq<Elem>, last: nat)

  datatype Choice = Publish(elems: seq<Elem>) | Call(t: nat, op: Op) | Go(t: nat)

  function Init(threads: nat): State {
    State([], 0, 0, 0, seq(threads, i => Idle), [], 0)
  }

  function Min(a: nat, b: nat): nat {
    if a < b then a else b
  }

  function At(s: State, t: nat, p: Pc): State
    requires t < |s.pcs|
  {
    s.(pcs := s.pcs[t := p])
  }

  function Step(s: State, c: Choice): State {
    match c
    case Publish(elems) => s.(items := s.items + elems)
    case Call(t, op) =>
      if t < |s.pcs| && s.pcs[t].Idle? then At(s, t, LoadOvercommit(op, |s.items|)) else s
    case Go(t) => if t < |s.pcs| then ThreadStep(s, t) else s
  }

  function ThreadStep(s: State, t: nat): State
    requires t < |s.pcs|
  {
    match s.pcs[t]
    case Idle => s
    case Overrun => s
    case LoadOvercommit(op, tail) => At(s, t, LoadOptimistic(op, tail, s.overcommit))
    case LoadOptimistic(op, tail, over) => At(s, t, Estimate(op, tail, over, s.optimistic))
    case TakeTicket(op, over, want) =>
      At(s.(optimistic := s.optimistic + want), t, ReloadTail(op, over, want, s.optimistic))
    case ReloadTail(op, over, want, my) =>
      var p := Decide(op, over, want, my, |s.items|);
      At(s.(last := if p.GiveBack? || my < s.last then s.last else my + want), t, p)
    case ReturnSurplus(give, take) => At(s.(overcommit := s.overcommit + give), t, Claim(take))
    case GiveBack(give) => At(s.(overcommit := s.overcommit + give), t, Idle)
    case Claim(take) =>
      if s.head + take <= |s.items| then
        At(s.(head := s.head + take, delivered := s.delivered + s.items[s.head..s.head + take]), t, Idle)
      else At(s, t, Overrun)
  }

  /** The first, advisory test: a single dequeue compares, a bulk one computes how many to ask for. */
  function Estimate(op: Op, tail: nat, over: nat, optimistic: nat): Pc {
    match op
    case Single =>
      if CircularLess(Word(optimistic - over), Word(tail)) then TakeTicket(op, over, 1) else Idle
    case Bulk(max) =>
      var desired := Word(tail - (optimistic - over));
      if CircularLess(0, desired) then TakeTicket(op, over, Min(desired, max)) else Idle
  }

  /** The test after the ticket is issued, against a reloaded tail. */
  function Decide(op: Op, over: nat, want: nat, my: nat, tail: nat): Pc {
    match op
    case Single =>
      if CircularLess(Word(my - over), Word(tail)) then Claim(1) else GiveBack(want)
    case Bulk(max) =>
      var available := Word(tail - (my - over));
      if CircularLess(0, available) then
        var take := Min(want, available);
        if take < want then ReturnSurplus(want - take, take) else Claim(take)
      else GiveBack(want)
  }

  function Run(s: State, schedule: seq<Choice>): State
    decreases |schedule|
  {
    if schedule == [] then s else Step(Run(s, schedule[..|schedule| - 1]), schedule[|schedule| - 1])
  }

  /** The operands of every pending comparison are less than half a word apart. */
  predicate InWindow(s: State) {
    forall t :: 0 <= t < |s.pcs| && s.pcs[t].ReloadTail? ==>
      -HALF <= |s.items| - (s.pcs[t].my - s.pcs[t].over) < HALF
  }

  predicate StaysInWindow(s: State, schedule: seq<Choice>)
    decreases |schedule|
  {
    schedule == []
    || (StaysInWindow(s, schedule[..|schedule| - 1]) && InWindow(Run(s, schedule[..|schedule| - 1])))
  }

  // ----- Amounts in flight ------------------------------------------------------------

  /** `Undecided`: tickets issued, not yet compared with the tail. `Before(x)`: those of them
      issued before count `x`. `Granted`: won, not yet claimed. `Returning`: lost, not yet returned. */
  datatype Kind = Undecided | Before(x: nat) | Granted | Returning

  function Weight(k: Kind, p: Pc): nat {
    match k
    case Undecided => if p.ReloadTail? then p.want else 0
    case Before(x) => if p.ReloadTail? && p.my < x then p.want else 0
    case Granted => if p.ReturnSurplus? || p.Claim? then p.take else 0
    case Returning => if p.ReturnSurplus? || p.GiveBack? then p.give else 0
  }

  function Total(k: Kind, pcs: seq<Pc>): nat {
    if pcs == [] then 0 else Weight(k, pcs[|pcs| - 1]) + Total(k, pcs[..|pcs| - 1])
  }

  lemma {:induction false} TotalUpdate(k: Kind, pcs: seq<Pc>, t: nat, p: Pc)
    requires t < |pcs|
    ensures Total(k, pcs[t := p]) == Total(k, pcs) - Weight(k, pcs[t]) + Weight(k, p)
  {
    var m := |pcs| - 1;
    if t == m {
      assert pcs[t := p][..m] == pcs[..m];
    } else {
      assert pcs[t := p][..m] == pcs[..m][t := p];
      TotalUpdate(k, pcs[..m], t, p);
    }
  }

  lemma {:induction false} TotalAtLeast(k: Kind, pcs: seq<Pc>, t: nat)
    requires t < |pcs|
    ensures Weight(k, pcs[t]) <= Total(k, pcs)
  {
    if t < |pcs| - 1 { TotalAtLeast(k, pcs[..|pcs| - 1], t); }
  }

  lemma {:induction false} TotalCompare(k: Kind, k': Kind, pcs: seq<Pc>)
    requires forall t :: 0 <= t < |pcs| ==> Weight(k, pcs[t]) <= Weight(k', pcs[t])
    ensures Total(k, pcs) <= Total(k', pcs)
  {
    if pcs != [] { TotalCompare(k, k', pcs[..|pcs| - 1]); }
  }

  predicate AllIdle(pcs: seq<Pc>) {
    forall t :: 0 <= t < |pcs| ==> pcs[t].Idle?
  }

  lemma {:induction false} TotalIdle(k: Kind, pcs: seq<Pc>)
    requires AllIdle(pcs)
    ensures Total(k, pcs) == 0
  {
    if pcs != [] { TotalIdle(k, pcs[..|pcs| - 1]); }
  }

  // ----- The invariant ------------------------------------------------------------------

  /** Elements claimed or irrevocably promised. */
  function Won(s: State): nat {
    s.head + Total(Granted, s.pcs)
  }

  /** Every ticket unit is accounted for. */
  predicate Balance(s: State) {
    s.optimistic == s.overcommit + Won(s) + Total(Undecided, s.pcs) + Total(Returning, s.pcs)
  }

  /** What has been won, plus what older tickets may still win, is published. */
  predicate Room(s: State) {
    s.last <= s.optimistic && Won(s) + Total(Before(s.last), s.pcs) <= |s.items|
  }

  predicate PcInv(s: State, p: Pc) {
    match p
    case Overrun => false
    case LoadOptimistic(op, tail, over) => over <= s.overcommit
    case TakeTicket(op, over, want) => over <= s.overcommit && (op.Single? ==> want == 1)
    case ReloadTail(op, over, want, my) =>
      && over <= my && my + want <= s.optimistic && (op.Single? ==> want == 1)
      && (s.last <= my ==> Won(s) + Total(Before(my), s.pcs) <= my - over)
    case _ => true
  }

  predicate Disjoint(p: Pc, q: Pc) {
    p.ReloadTail? && q.ReloadTail? ==> p.my + p.want <= q.my || q.my + q.want <= p.my
  }

  predicate TicketsDisjoint(s: State) {
    forall t, u :: 0 <= t < |s.pcs| && 0 <= u < |s.pcs| && t != u ==> Disjoint(s.pcs[t], s.pcs[u])
  }

  predicate Inv(s: State) {
    && Balance(s)
    && Room(s)
    && TicketsDisjoint(s)
    && (forall t :: 0 <= t < |s.pcs| ==> PcInv(s, s.pcs[t]))
    && s.head <= |s.items| && s.delivered == s.items[..s.head]
  }

  lemma InitInv(threads: nat)
    ensures Inv(Init(threads))
  {
    var s := Init(threads);
    assert AllIdle(s.pcs);
    hide Total;
    TotalIdle(Undecided, s.pcs);
    TotalIdle(Before(0), s.pcs);
    TotalIdle(Granted, s.pcs);
    TotalIdle(Returning, s.pcs);
  }

  // ----- Preservation ---------------------------------------------------------------------

  /** All totals after thread `t` moves to `p`. */
  lemma Totals(s: State, t: nat, p: Pc)
    requires t < |s.pcs|
    ensures forall k :: Total(k, s.pcs[t := p]) == Total(k, s.pcs) - Weight(k, s.pcs[t]) + Weight(k, p)
    ensures forall k :: Weight(k, s.pcs[t]) <= Total(k, s.pcs)
  {
    forall k
      ensures Total(k, s.pcs[t := p]) == Total(k, s.pcs) - Weight(k, s.pcs[t]) + Weight(k, p)
      ensures Weight(k, s.pcs[t]) <= Total(k, s.pcs)
    {
      TotalUpdate(k, s.pcs, t, p);
      TotalAtLeast(k, s.pcs, t);
    }
  }

  /** The comparison after a ticket, in window: it grants no more than the room beyond the ticket's rank. */
  lemma DecideExact(op: Op, over: nat, want: nat, my: nat, tail: nat)
    requires -HALF <= tail - (my - over) < HALF && (op.Single? ==> want == 1)
    ensures var p := Decide(op, over, want, my, tail);
      if tail <= my - over then p == GiveBack(want)
      else
        var take := Min(want, tail - (my - over));
        p == if take < want then ReturnSurplus(want - take, take) else Claim(take)
  {
    var d := tail - (my - over);
    CircularLessExact(my - over, tail);
    CircularLessExact(0, Word(d));
    if d < 0 { WordShift(d, 1); }
  }

  lemma PublishKeeps(s: State, elems: seq<Elem>)
    requires Inv(s)
    ensures Inv(Step(s, Publish(elems)))
  {
    hide Total, Weight;
    var s' := Step(s, Publish(elems));
    assert s'.items[..s.head] == s.items[..s.head];
    forall t | 0 <= t < |s'.pcs| ensures PcInv(s', s'.pcs[t]) { assert PcInv(s, s.pcs[t]); }
  }

  /** Steps that touch no counter and no ticket. */
  lemma LocalKeeps(s: State, t: nat, p: Pc)
    requires Inv(s) && t < |s.pcs| && PcInv(s, p)
    requires forall k :: Weight(k, p) == Weight(k, s.pcs[t])
    requires !p.ReloadTail?
    ensures Inv(At(s, t, p))
  {
    hide Total, Weight;
    var s' := At(s, t, p);
    Totals(s, t, p);
    forall u | 0 <= u < |s'.pcs| ensures PcInv(s', s'.pcs[u]) { assert PcInv(s, s.pcs[u]); }
  }

  lemma TicketKeeps(s: State, t: nat)
    requires Inv(s) && t < |s.pcs| && s.pcs[t].TakeTicket?
    ensures Inv(ThreadStep(s, t))
  {
    hide Total;
    var s' := ThreadStep(s, t);
    var p := s'.pcs[t];
    assert PcInv(s, s.pcs[t]);
    Totals(s, t, p);
    TotalCompare(Before(s.optimistic), Undecided, s.pcs);
    forall u | 0 <= u < |s'.pcs| ensures PcInv(s', s'.pcs[u]) { assert PcInv(s, s.pcs[u]); }
    forall u, w | 0 <= u < |s'.pcs| && 0 <= w < |s'.pcs| && u != w ensures Disjoint(s'.pcs[u], s'.pcs[w]) {
      assert PcInv(s, s.pcs[u]) && PcInv(s, s.pcs[w]) && Disjoint(s.pcs[u], s.pcs[w]);
    }
  }

  lemma ReturnKeeps(s: State, t: nat)
    requires Inv(s) && t < |s.pcs| && (s.pcs[t].ReturnSurplus? || s.pcs[t].GiveBack?)
    ensures Inv(ThreadStep(s, t))
  {
    hide Total;
    var s' := ThreadStep(s, t);
    Totals(s, t, s'.pcs[t]);
    forall u | 0 <= u < |s'.pcs| ensures PcInv(s', s'.pcs[u]) { assert PcInv(s, s.pcs[u]); }
  }

  lemma ClaimKeeps(s: State, t: nat)
    requires Inv(s) && t < |s.pcs| && s.pcs[t].Claim?
    ensures Inv(ThreadStep(s, t))
  {
    hide Total;
    var s' := ThreadStep(s, t);
    Totals(s, t, s'.pcs[t]);
    assert s.items[..s.head] + s.items[s.head..s'.head] == s.items[..s'.head];
    forall u | 0 <= u < |s'.pcs| ensures PcInv(s', s'.pcs[u]) { assert PcInv(s, s.pcs[u]); }
  }

  /** A lost ticket only lowers what others may still win. */
  lemma LoseKeeps(s: State, t: nat)
    requires Inv(s) && t < |s.pcs| && s.pcs[t].ReloadTail? && ThreadStep(s, t).pcs[t] == GiveBack(s.pcs[t].want)
    ensures Inv(ThreadStep(s, t))
  {
    hide Total;
    var s' := ThreadStep(s, t);
    Totals(s, t, s'.pcs[t]);
    forall u | 0 <= u < |s'.pcs| ensures PcInv(s', s'.pcs[u]) { assert PcInv(s, s.pcs[u]); }
  }

  /** No other open ticket starts inside ticket `t`. */
  lemma NothingInside(s: State, t: nat)
    requires Inv(s) && t < |s.pcs| && s.pcs[t].ReloadTail?
    ensures Total(Before(s.pcs[t].my + s.pcs[t].want), s.pcs) <= Total(Before(s.pcs[t].my), s.pcs) + s.pcs[t].want
  {
    var my, want := s.pcs[t].my, s.pcs[t].want;
    var rest := s.pcs[t := Idle];
    TotalUpdate(Before(my + want), s.pcs, t, Idle);
    TotalUpdate(Before(my), s.pcs, t, Idle);
    forall u | 0 <= u < |rest| ensures Weight(Before(my + want), rest[u]) <= Weight(Before(my), rest[u]) {
      if u != t { assert Disjoint(s.pcs[t], s.pcs[u]); }
    }
    TotalCompare(Before(my + want), Before(my), rest);
  }

  /** A winning ticket fits: everything won so far and everything older tickets may still win
      was already counted when the ticket's rank was fixed. */
  lemma WinKeeps(s: State, t: nat)
    requires Inv(s) && InWindow(s) && t < |s.pcs| && s.pcs[t].ReloadTail?
    requires s.pcs[t].my - s.pcs[t].over < |s.items|
    ensures Inv(ThreadStep(s, t))
  {
    hide Total;
    var q := s.pcs[t];
    assert PcInv(s, q);
    DecideExact(q.op, q.over, q.want, q.my, |s.items|);
    var s' := ThreadStep(s, t);
    var p := s'.pcs[t];
    Totals(s, t, p);
    NothingInside(s, t);
    var take := Min(q.want, |s.items| - (q.my - q.over));
    assert Won(s') == Won(s) + take;
    assert Room(s');
    forall u | 0 <= u < |s'.pcs| ensures PcInv(s', s'.pcs[u]) {
      assert PcInv(s, s.pcs[u]);
      if u != t { assert Disjoint(s.pcs[t], s.pcs[u]); }
    }
  }

  lemma StepInv(s: State, c: Choice)
    requires Inv(s) && InWindow(s)
    ensures Inv(Step(s, c))
  {
    hide Total, Balance, Room, TicketsDisjoint;
    match c
    case Publish(elems) => PublishKeeps(s, elems);
    case Call(t, op) => if t < |s.pcs| && s.pcs[t].Idle? { LocalKeeps(s, t, LoadOvercommit(op, |s.items|)); }
    case Go(t) =>
      if t < |s.pcs| {
        assert PcInv(s, s.pcs[t]);
        match s.pcs[t] {
          case Idle =>
          case LoadOvercommit(op, tail) => LocalKeeps(s, t, LoadOptimistic(op, tail, s.overcommit));
          case LoadOptimistic(op, tail, over) => LocalKeeps(s, t, Estimate(op, tail, over, s.optimistic));
          case TakeTicket(_, _, _) => TicketKeeps(s, t);
          case ReloadTail(op, over, want, my) =>
            DecideExact(op, over, want, my, |s.items|);
            if |s.items| <= my - over { LoseKeeps(s, t); } else { WinKeeps(s, t); }
          case ReturnSurplus(_, _) => ReturnKeeps(s, t);
          case GiveBack(_) => ReturnKeeps(s, t);
          case Claim(_) => ClaimKeeps(s, t);
        }
      }
  }

  // ----- Main results over every schedule ---------------------------------------------------

  lemma {:induction false} WindowInv(threads: nat, schedule: seq<Choice>)
    requires StaysInWindow(Init(threads), schedule)
    ensures Inv(Run(Init(threads), schedule))
    decreases |schedule|
  {
    if schedule == [] {
      InitInv(threads);
    } else {
      WindowInv(threads, schedule[..|schedule| - 1]);
      StepInv(Run(Init(threads), schedule[..|schedule| - 1]), schedule[|schedule| - 1]);
    }
  }

  /** Everything the producer was asked to publish, in order, read off the schedule. */
  function PublishedBy(schedule: seq<Choice>): seq<Elem>
    decreases |schedule|
  {
    if schedule == [] then []
    else
      var last := schedule[|schedule| - 1];
      PublishedBy(schedule[..|schedule| - 1]) + if last.Publish? then last.elems else []
  }

  /** What is in the queue is what was put in, element by element. */
  lemma {:induction false} ItemsArePublished(threads: nat, schedule: seq<Choice>)
    ensures Run(Init(threads), schedule).items == PublishedBy(schedule)
    decreases |schedule|
  {
    if schedule != [] { ItemsArePublished(threads, schedule[..|schedule| - 1]); }
  }

  /** Fewer than half a word of elements and at most half a word of tickets have ever been issued. */
  predicate Small(s: State) {
    s.optimistic <= HALF && |s.items| < HALF
  }

  /** With small counts, every comparison is in window. */
  lemma SmallCountersStayInWindow(s: State)
    requires Inv(s) && Small(s)
    ensures InWindow(s)
  {
    forall t | 0 <= t < |s.pcs| && s.pcs[t].ReloadTail?
      ensures -HALF <= |s.items| - (s.pcs[t].my - s.pcs[t].over) < HALF
    {
      assert PcInv(s, s.pcs[t]);
    }
  }

  /** Both counts only grow, so a run that ends small was in window all along. */
  lemma {:induction false} SmallRunsStayInWindow(threads: nat, schedule: seq<Choice>)
    requires Small(Run(Init(threads), schedule))
    ensures StaysInWindow(Init(threads), schedule)
    decreases |schedule|
  {
    if schedule != [] {
      var before := Run(Init(threads), schedule[..|schedule| - 1]);
      CountsGrow(before, schedule[|schedule| - 1]);
      SmallRunsStayInWindow(threads, schedule[..|schedule| - 1]);
      WindowInv(threads, schedule[..|schedule| - 1]);
      SmallCountersStayInWindow(before);
    }
  }

  lemma CountsGrow(s: State, c: Choice)
    ensures s.optimistic <= Step(s, c).optimistic && |s.items| <= |Step(s, c).items|
  {
  }

  lemma RunInv(threads: nat, schedule: seq<Choice>)
    requires Small(Run(Init(threads), schedule))
    ensures Inv(Run(Init(threads), schedule))
  {
    SmallRunsStayInWindow(threads, schedule);
    WindowInv(threads, schedule);
  }

  /** The head does not pass the published tail, even counting what is promised but not yet claimed; no
      claim has run past the tail; the elements claimed are exactly the published ones, in order, each once. */
  predicate NoOverrun(s: State) {
    && s.head <= Won(s) <= |s.items|
    && s.delivered == s.items[..s.head]
    && forall t :: 0 <= t < |s.pcs| ==> !s.pcs[t].Overrun?
  }

  lemma InvHasNoOverrun(s: State)
    requires Inv(s)
    ensures NoOverrun(s)
  {
    forall t | 0 <= t < |s.pcs| ensures !s.pcs[t].Overrun? { assert PcInv(s, s.pcs[t]); }
  }

  /** However consumers interleave, on every run with fewer than 2^63 elements and at most 2^63 tickets:
      no claim runs past the tail, and what consumers got is, in order, what the producer published first. */
  lemma DequeueNeverOverruns(threads: nat, schedule: seq<Choice>)
    requires Small(Run(Init(threads), schedule))
    ensures NoOverrun(Run(Init(threads), schedule))
    ensures var s := Run(Init(threads), schedule);
      s.head <= |PublishedBy(schedule)| && s.delivered == PublishedBy(schedule)[..s.head]
  {
    RunInv(threads, schedule);
    InvHasNoOverrun(Run(Init(threads), schedule));
    ItemsArePublished(threads, schedule);
  }

  /** The same on runs of any length whose comparisons stay in window, across any wrap of the counters. */
  lemma WindowNeverOverruns(threads: nat, schedule: seq<Choice>)
    requires StaysInWindow(Init(threads), schedule)
    ensures NoOverrun(Run(Init(threads), schedule))
  {
    WindowInv(threads, schedule);
    InvHasNoOverrun(Run(Init(threads), schedule));
  }

  /** With no operation in flight the effective dequeue count is the head index. */
  lemma QuiescentCountsAgree(threads: nat, schedule: seq<Choice>)
    requires Small(Run(Init(threads), schedule)) || StaysInWindow(Init(threads), schedule)
    requires AllIdle(Run(Init(threads), schedule).pcs)
    ensures var s := Run(Init(threads), schedule); s.optimistic - s.overcommit == s.head
  {
    if Small(Run(Init(threads), schedule)) { SmallRunsStayInWindow(threads, schedule); }
    WindowInv(threads, schedule);
    QuietCounts(Run(Init(threads), schedule));
  }

  // ----- What a call does when it runs alone ------------------------------------------------

  function Alone(s: State, t: nat, k: nat): State {
    if k == 0 then s else Step(Alone(s, t, k - 1), Go(t))
  }

  function StepsLeft(p: Pc): nat {
    match p
    case LoadOvercommit(_, _) => 6
    case LoadOptimistic(_, _, _) => 5
    case TakeTicket(_, _, _) => 4
    case ReloadTail(_, _, _, _) => 3
    case ReturnSurplus(_, _) => 2
    case GiveBack(_) => 1
    case Claim(_) => 1
    case _ => 0
  }

  /** Nothing is retried: every call ends within six steps of its own, whatever the others do. */
  lemma EveryStepIsProgress(s: State, c: Choice, t: nat)
    requires t < |s.pcs|
    ensures |Step(s, c).pcs| == |s.pcs|
    ensures c.Go? && c.t == t ==>
      StepsLeft(Step(s, c).pcs[t]) < StepsLeft(s.pcs[t]) || StepsLeft(s.pcs[t]) == StepsLeft(Step(s, c).pcs[t]) == 0
    ensures !(c.Go? && c.t == t) && StepsLeft(s.pcs[t]) > 0 ==> Step(s, c).pcs[t] == s.pcs[t]
  {
    hide CircularLess;
  }

  /** A call compares with a tail there has been. */
  predicate TailsArePast(s: State) {
    forall t :: 0 <= t < |s.pcs| && (s.pcs[t].LoadOvercommit? || s.pcs[t].LoadOptimistic?) ==>
      s.pcs[t].tail <= |s.items|
  }

  lemma {:induction false} RunTailsArePast(threads: nat, schedule: seq<Choice>)
    ensures TailsArePast(Run(Init(threads), schedule))
    decreases |schedule|
  {
    if schedule != [] {
      RunTailsArePast(threads, schedule[..|schedule| - 1]);
      hide Estimate, Decide;
      StepTailsArePast(Run(Init(threads), schedule[..|schedule| - 1]), schedule[|schedule| - 1]);
    }
  }

  lemma StepTailsArePast(s: State, c: Choice)
    requires TailsArePast(s)
    ensures TailsArePast(Step(s, c))
  {
    hide CircularLess;
  }

  /** How a call ends, over every run with small counts: told that nothing is there, by the tail at its call
      and the counts it read; after returning its tickets; or with the next elements. It comes to return them
      all exactly when the tail is not past its rank. */
  lemma CallEndsOnly(threads: nat, schedule: seq<Choice>, t: nat)
    requires t < |Run(Init(threads), schedule).pcs| && Small(Run(Init(threads), schedule))
    ensures var s := Run(Init(threads), schedule);
      var s' := Step(s, Go(t));
      match s.pcs[t]
      case LoadOptimistic(_, tail, over) =>
        && (tail <= s.optimistic - over ==> s' == At(s, t, Idle))
        && (tail > s.optimistic - over ==> t < |s'.pcs| && s'.pcs[t].TakeTicket? && s' == At(s, t, s'.pcs[t]))
      case ReloadTail(_, over, _, my) =>
        && t < |s'.pcs| && !s'.pcs[t].Idle?
        && (s'.pcs[t].GiveBack? <==> |PublishedBy(schedule)| <= my - over)
      case GiveBack(give) => s' == At(s.(overcommit := s.overcommit + give), t, Idle)
      case Claim(take) =>
        && s.head + take <= |PublishedBy(schedule)|
        && s' == At(s.(head := s.head + take,
                       delivered := s.delivered + PublishedBy(schedule)[s.head..s.head + take]), t, Idle)
      case Idle => s' == s
      case Overrun => false
      case _ => t < |s'.pcs| && !s'.pcs[t].Idle?
  {
    RunInv(threads, schedule);
    ItemsArePublished(threads, schedule);
    RunTailsArePast(threads, schedule);
    hide Run, Init, PublishedBy;
    StepEnds(Run(Init(threads), schedule), t);
  }

  lemma StepEnds(s: State, t: nat)
    requires Inv(s) && TailsArePast(s) && Small(s) && t < |s.pcs|
    ensures var s' := Step(s, Go(t));
      match s.pcs[t]
      case LoadOptimistic(_, tail, over) =>
        && (tail <= s.optimistic - over ==> s' == At(s, t, Idle))
        && (tail > s.optimistic - over ==> t < |s'.pcs| && s'.pcs[t].TakeTicket? && s' == At(s, t, s'.pcs[t]))
      case ReloadTail(_, over, _, my) =>
        && t < |s'.pcs| && !s'.pcs[t].Idle?
        && (s'.pcs[t].GiveBack? <==> |s.items| <= my - over)
      case GiveBack(give) => s' == At(s.(overcommit := s.overcommit + give), t, Idle)
      case Claim(take) =>
        && s.head + take <= |s.items|
        && s' == At(s.(head := s.head + take, delivered := s.delivered + s.items[s.head..s.head + take]), t, Idle)
      case Idle => s' == s
      case Overrun => false
      case _ => t < |s'.pcs| && !s'.pcs[t].Idle?
  {
    var p := s.pcs[t];
    assert PcInv(s, p);
    SmallCountersStayInWindow(s);
    if p.LoadOptimistic? {
      SmallEstimate(s, p.over, p.tail);
      EstimateExact(p.op, p.tail, p.over, s.optimistic);
    } else if p.ReloadTail? {
      DecideExact(p.op, p.over, p.want, p.my, |s.items|);
    } else if p.Claim? {
      ClaimIsRoom(s, t);
    }
    hide Inv, Estimate, Decide, InWindow, Total;
  }

  lemma SmallEstimate(s: State, over: nat, tail: nat)
    requires Inv(s) && Small(s) && over <= s.overcommit && tail <= |s.items|
    ensures -HALF <= tail - (s.optimistic - over) < HALF
  {
  }

  lemma ClaimIsRoom(s: State, t: nat)
    requires Inv(s) && t < |s.pcs| && s.pcs[t].Claim?
    ensures s.head + s.pcs[t].take <= |s.items|
  {
    TotalAtLeast(Granted, s.pcs, t);
  }

  ghost predicate Quiet(s: State) {
    Inv(s) && AllIdle(s.pcs)
  }

  lemma QuietCounts(s: State)
    requires Quiet(s)
    ensures s.optimistic - s.overcommit == s.head
  {
    TotalIdle(Undecided, s.pcs);
    TotalIdle(Granted, s.pcs);
    TotalIdle(Returning, s.pcs);
  }

  /** How many elements the call asks for at most. */
  function Asked(op: Op): nat {
    match op
    case Single => 1
    case Bulk(max) => max
  }

  /** Without interference a call finds elements, draws its ticket and comes to its claim in four steps. */
  lemma LoneReachesClaim(s: State, t: nat, op: Op)
    requires t < |s.pcs| && s.pcs[t].Idle? && s.optimistic - s.overcommit == s.head
    requires 0 < |s.items| - s.head < HALF
    ensures var n, s0 := Min(Asked(op), |s.items| - s.head), Step(s, Call(t, op));
      var s4 := Alone(s0, t, 4);
      && s4 == At(s.(optimistic := s.optimistic + n, last := s4.last), t, Claim(n))
      && |s0.pcs| == |s.pcs| && s0.pcs[t].LoadOvercommit?
      && (forall k: nat :: k < 4 ==> |Alone(s0, t, k).pcs| == |s.pcs| && !Alone(s0, t, k).pcs[t].Claim?)
  {
    var n := Min(Asked(op), |s.items| - s.head);
    EstimateExact(op, |s.items|, s.overcommit, s.optimistic);
    DecideExact(op, s.overcommit, n, s.optimistic, |s.items|);
    hide Estimate, Decide;
    var s0 := Step(s, Call(t, op));
    assert Alone(s0, t, 0) == s0;
    var s1 := Step(s0, Go(t));
    assert s1.pcs == s.pcs[t := LoadOptimistic(op, |s.items|, s.overcommit)];
    assert Alone(s0, t, 1) == s1;
    var s2 := Step(s1, Go(t));
    assert s2.pcs == s.pcs[t := TakeTicket(op, s.overcommit, n)];
    assert Alone(s0, t, 2) == s2;
    var s3 := Step(s2, Go(t));
    assert s3.pcs == s.pcs[t := ReloadTail(op, s.overcommit, n, s.optimistic)];
    assert Alone(s0, t, 3) == s3;
    var s4 := Step(s3, Go(t));
    assert s4.pcs == s.pcs[t := Claim(n)];
    assert Alone(s0, t, 4) == s4;
  }

  /** Without interference a dequeue takes exactly as many elements as are there and asked for;
      on an empty queue it returns without touching any counter. */
  lemma LoneDequeueTakesWhatIsThere(s: State, t: nat, op: Op)
    requires Quiet(s) && t < |s.pcs| && |s.items| - s.head < HALF
    ensures var n := Min(Asked(op), |s.items| - s.head);
      var s' := Alone(Step(s, Call(t, op)), t, 5);
      if s.head == |s.items| then Alone(Step(s, Call(t, op)), t, 2) == s
      else && s'.pcs == s.pcs && s'.head == s.head + n && s'.items == s.items
           && s'.delivered == s.delivered + s.items[s.head..s.head + n]
           && s'.optimistic == s.optimistic + n && s'.overcommit == s.overcommit
  {
    assert s.pcs[t].Idle?;
    QuietCounts(s);
    hide Quiet, Inv;
    var s0 := Step(s, Call(t, op));
    if s.head == |s.items| {
      EstimateExact(op, |s.items|, s.overcommit, s.optimistic);
      hide Estimate, Decide;
      var s1 := Step(s0, Go(t));
      assert s1.pcs == s.pcs[t := LoadOptimistic(op, |s.items|, s.overcommit)];
      assert Alone(s0, t, 1) == s1;
      var s2 := Step(s1, Go(t));
      assert Alone(s0, t, 2) == s2;
      assert s2.pcs == s.pcs;
    } else {
      LoneReachesClaim(s, t, op);
      hide Estimate, Decide;
      var s4 := Alone(s0, t, 4);
      var s5 := Step(s4, Go(t));
      assert s5.pcs == s.pcs;
      assert Alone(s0, t, 5) == s5;
    }
  }

  /** The advisory test, in window. */
  lemma EstimateExact(op: Op, tail: nat, over: nat, optimistic: nat)
    requires -HALF <= tail - (optimistic - over) < HALF
    ensures Estimate(op, tail, over, optimistic) ==
      if tail <= optimistic - over then Idle
      else TakeTicket(op, over, Min(Asked(op), tail - (optimistic - over)))
  {
    var d := tail - (optimistic - over);
    CircularLessExact(optimistic - over, tail);
    CircularLessExact(0, Word(d));
    if d < 0 { WordShift(d, 1); }
  }
}
