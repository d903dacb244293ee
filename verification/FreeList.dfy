/** The lock-free free list of concurrentqueue.h, as a system of atomic steps.

    Nodes are numbered; a pointer is a node number or `NULL`. One step is one atomic
    load, store, compare-exchange or fetch-add of one thread, together with the local
    computation up to the next atomic access. A schedule picks which thread moves next,
    so a statement about `Run` for every schedule is a statement about every interleaving. */
module FreeList {

  const NULL: int := -1
  const SHOULD_BE_ON_FREELIST: int := 0x8000_0000
  const WORD32: int := 0x1_0000_0000

  /** Where `add_knowing_refcount_is_zero` returns to: the caller of `add`, or the
      loop of `try_get`, which goes on with the head it read last. */
  datatype Ret = ToCaller | ToLoop(head: int)

  /** The next atomic access of a thread, with the local variables it needs. */
  datatype Pc =
    | Idle
    | GetLoadHead
    | GetLoadRefs(n: int)
    | GetCasRefs(n: int, refs: int)
    | GetLoadNext(n: int)
    | GetCasHead(n: int, nx: int)
    | GetDropRef(n: int, cur: int)
    | GetCheckFlag(n: int)
    | GetDropBoth(n: int)
    | AddLoadHead(n: int, ret: Ret)
    | AddStoreNext(n: int, h: int, ret: Ret)
    | AddStoreRefs(n: int, h: int, ret: Ret)
    | AddCasHead(n: int, h: int, ret: Ret)
    | AddGiveUp(n: int, h: int, ret: Ret)
    | AssertionFailed

  datatype Event = Added(n: int) | Given(n: int)

  /** `head`, `refs` and `next` are the shared memory and `pcs` the threads.
      `owned` is what callers hold, which only restricts who may call `add`;
      `list` (the nodes linked from `head`, in order) and `log` are history that no step reads. */
  datatype State = State(head: int, refs: seq<int>, next: seq<int>, pcs: seq<Pc>,
                         owned: set<int>, list: seq<int>, log: seq<Event>)

  datatype Choice = CallAdd(t: nat, n: int) | CallGet(t: nat) | Go(t: nat)

  function AllNodes(nodes: nat): (all: set<int>)
    ensures forall n :: n in all <==> 0 <= n < nodes
  {
    if nodes == 0 then {} else AllNodes(nodes - 1) + {nodes - 1}
  }

  function Init(nodes: nat, threads: nat): State {
    State(NULL, seq(nodes, i => 0), seq(nodes, i => NULL), seq(threads, i => Idle),
          AllNodes(nodes), [], [])
  }

  /** 32-bit addition of an amount smaller than a word. */
  function Add32(x: int, d: int): int {
    if x + d >= WORD32 then x + d - WORD32 else if x + d < 0 then x + d + WORD32 else x + d
  }

  lemma Add32IsWordAddition(x: int, d: int)
    requires 0 <= x < 0x1_0000_0000 && -0x1_0000_0000 <= d < 0x1_0000_0000
    ensures Add32(x, d) == (x + d) % 0x1_0000_0000
  {
  }

  /** The loop test of `try_get`: a null head ends the call. */
  function AtLoop(h: int): Pc {
    if h == NULL then Idle else GetLoadRefs(h)
  }

  function Resume(ret: Ret): Pc {
    match ret
    case ToCaller => Idle
    case ToLoop(h) => AtLoop(h)
  }

  predicate IsNode(s: State, n: int) {
    0 <= n < |s.refs| == |s.next|
  }

  function At(s: State, t: nat, p: Pc): State
    requires t < |s.pcs|
  {
    s.(pcs := s.pcs[t := p])
  }

  /** One step; a choice that is not enabled leaves the state alone. */
  function Step(s: State, c: Choice): State {
    match c
    case CallAdd(t, n) =>
      if t < |s.pcs| && s.pcs[t].Idle? && n in s.owned && IsNode(s, n) then StartAdd(s, t, n) else s
    case CallGet(t) =>
      if t < |s.pcs| && s.pcs[t].Idle? then At(s, t, AtLoop(s.head)) else s
    case Go(t) =>
      if t >= |s.pcs| then s else
      match s.pcs[t]
      case Idle => s
      case AssertionFailed => s
      case GetLoadHead => At(s, t, AtLoop(s.head))
      case _ => if IsNode(s, s.pcs[t].n) then NodeStep(s, t) else s
  }

  /** The fetch-add that opens `add`. */
  function StartAdd(s: State, t: nat, n: int): State
    requires t < |s.pcs| && IsNode(s, n)
  {
    s.(refs := s.refs[n := Add32(s.refs[n], SHOULD_BE_ON_FREELIST)],
       owned := s.owned - {n}, log := s.log + [Added(n)],
       pcs := s.pcs[t := if s.refs[n] == 0 then AddLoadHead(n, ToCaller) else Idle])
  }

  function NodeStep(s: State, t: nat): State
    requires t < |s.pcs|
    requires !s.pcs[t].Idle? && !s.pcs[t].AssertionFailed? && !s.pcs[t].GetLoadHead?
    requires IsNode(s, s.pcs[t].n)
  {
    match s.pcs[t]
    case GetLoadRefs(n) =>
      At(s, t, if s.refs[n] % SHOULD_BE_ON_FREELIST == 0 then GetLoadHead else GetCasRefs(n, s.refs[n]))
    case GetCasRefs(n, r) =>
      if s.refs[n] == r then At(s.(refs := s.refs[n := Add32(r, 1)]), t, GetLoadNext(n))
      else At(s, t, GetLoadHead)
    case GetLoadNext(n) => At(s, t, GetCasHead(n, s.next[n]))
    case GetCasHead(n, nx) =>
      if s.head == n then
        At(s.(head := nx, list := if s.list == [] then [] else s.list[1..]), t, GetCheckFlag(n))
      else At(s, t, GetDropRef(n, s.head))
    case GetDropRef(n, cur) =>
      var s1 := s.(refs := s.refs[n := Add32(s.refs[n], -1)]);
      At(s1, t, if s.refs[n] == SHOULD_BE_ON_FREELIST + 1 then AddLoadHead(n, ToLoop(cur)) else AtLoop(cur))
    case GetCheckFlag(n) =>
      At(s, t, if s.refs[n] < SHOULD_BE_ON_FREELIST then GetDropBoth(n) else AssertionFailed)
    case GetDropBoth(n) =>
      At(s.(refs := s.refs[n := Add32(s.refs[n], -2)], owned := s.owned + {n},
            log := s.log + [Given(n)]), t, Idle)
    case AddLoadHead(n, ret) => At(s, t, AddStoreNext(n, s.head, ret))
    case AddStoreNext(n, h, ret) => At(s.(next := s.next[n := h]), t, AddStoreRefs(n, h, ret))
    case AddStoreRefs(n, h, ret) => At(s.(refs := s.refs[n := 1]), t, AddCasHead(n, h, ret))
    case AddCasHead(n, h, ret) =>
      if s.head == h then At(s.(head := n, list := [n] + s.list), t, Resume(ret))
      else At(s, t, AddGiveUp(n, s.head, ret))
    case AddGiveUp(n, h, ret) =>
      At(s.(refs := s.refs[n := Add32(s.refs[n], SHOULD_BE_ON_FREELIST - 1)]), t,
         if s.refs[n] == 1 then AddStoreNext(n, h, ret) else Resume(ret))
  }

  function Run(s: State, schedule: seq<Choice>): State
    decreases |schedule|
  {
    if schedule == [] then s else Step(Run(s, schedule[..|schedule| - 1]), schedule[|schedule| - 1])
  }

  // ----- Counting what threads hold ------------------------------------------------

  /** `Hold`: the thread has incremented the node's count and not yet dropped it.
      `Out`: the thread carries the list's own reference to the node.
      `Ins`: the thread is the one responsible for putting a zero-count node on the list. */
  datatype Kind = Hold | Out | Ins

  function Weight(k: Kind, p: Pc, n: int): nat {
    match k
    case Hold =>
      if (p.GetLoadNext? || p.GetCasHead? || p.GetDropRef? || p.GetCheckFlag? || p.GetDropBoth?) && p.n == n
      then 1 else 0
    case Out =>
      if (p.GetCheckFlag? || p.GetDropBoth? || p.AddCasHead? || p.AddGiveUp?) && p.n == n then 1 else 0
    case Ins =>
      if (p.AddLoadHead? || p.AddStoreNext? || p.AddStoreRefs?) && p.n == n then 1 else 0
  }

  function Total(k: Kind, pcs: seq<Pc>, n: int): nat {
    if pcs == [] then 0
    else Weight(k, pcs[|pcs| - 1], n) + Total(k, pcs[..|pcs| - 1], n)
  }

  lemma {:induction false} TotalUpdate(k: Kind, pcs: seq<Pc>, t: nat, p: Pc, n: int)
    requires t < |pcs|
    ensures Total(k, pcs[t := p], n) == Total(k, pcs, n) - Weight(k, pcs[t], n) + Weight(k, p, n)
  {
    var m := |pcs| - 1;
    if t == m {
      assert pcs[t := p][..m] == pcs[..m];
    } else {
      assert pcs[t := p][..m] == pcs[..m][t := p];
      TotalUpdate(k, pcs[..m], t, p, n);
    }
  }

  lemma {:induction false} TotalAtLeast(k: Kind, pcs: seq<Pc>, t: nat, n: int)
    requires t < |pcs|
    ensures Weight(k, pcs[t], n) <= Total(k, pcs, n)
  {
    if t < |pcs| - 1 { TotalAtLeast(k, pcs[..|pcs| - 1], t, n); }
  }

  lemma {:induction false} TotalAtLeastTwo(k: Kind, pcs: seq<Pc>, t: nat, u: nat, n: int)
    requires t < u < |pcs|
    ensures Weight(k, pcs[t], n) + Weight(k, pcs[u], n) <= Total(k, pcs, n)
  {
    if u < |pcs| - 1 { TotalAtLeastTwo(k, pcs[..|pcs| - 1], t, u, n); }
    else { TotalAtLeast(k, pcs[..|pcs| - 1], t, n); }
  }

  lemma {:induction false} TotalAtMost(k: Kind, pcs: seq<Pc>, n: int)
    ensures Total(k, pcs, n) <= |pcs|
  {
    if pcs != [] { TotalAtMost(k, pcs[..|pcs| - 1], n); }
  }

  predicate AllIdle(pcs: seq<Pc>) {
    forall t :: 0 <= t < |pcs| ==> pcs[t].Idle?
  }

  lemma {:induction false} TotalIdle(k: Kind, pcs: seq<Pc>, n: int)
    requires AllIdle(pcs)
    ensures Total(k, pcs, n) == 0
  {
    if pcs != [] { TotalIdle(k, pcs[..|pcs| - 1], n); }
  }

  // ----- The invariant -----------------------------------------------------------

  function Flag(s: State, n: int): nat
    requires IsNode(s, n)
  {
    if s.refs[n] >= SHOULD_BE_ON_FREELIST then 1 else 0
  }

  function OnList(s: State, n: int): nat {
    if n in s.list then 1 else 0
  }

  function Owned(s: State, n: int): nat {
    if n in s.owned then 1 else 0
  }

  /** The low bits count the list's reference and the holders; the node is in exactly one
      place; a flagged node has exactly one inserter, or still has holders. */
  predicate NodeInv(s: State, n: int)
    requires IsNode(s, n)
  {
    && s.refs[n] == (if Flag(s, n) == 1 then SHOULD_BE_ON_FREELIST else 0)
                    + OnList(s, n) + Total(Out, s.pcs, n) + Total(Hold, s.pcs, n)
    && Owned(s, n) + OnList(s, n) + Total(Out, s.pcs, n) + Flag(s, n) == 1
    && Total(Ins, s.pcs, n) <= Flag(s, n)
    && (Flag(s, n) == 1 ==> (Total(Ins, s.pcs, n) == 1 <==> Total(Hold, s.pcs, n) == 0))
  }

  predicate IsPtr(s: State, h: int) {
    h == NULL || IsNode(s, h)
  }

  predicate RetInv(s: State, r: Ret) {
    r.ToLoop? ==> IsPtr(s, r.head)
  }

  predicate PcInv(s: State, p: Pc) {
    match p
    case Idle => true
    case AssertionFailed => false
    case GetLoadHead => true
    case GetCasRefs(n, r) => IsNode(s, n) && r % SHOULD_BE_ON_FREELIST != 0
    case GetCasHead(n, nx) => IsNode(s, n) && s.next[n] == nx
    case GetDropRef(n, cur) => IsNode(s, n) && IsPtr(s, cur)
    case AddLoadHead(n, ret) => IsNode(s, n) && RetInv(s, ret)
    case AddStoreNext(n, h, ret) => IsNode(s, n) && IsPtr(s, h) && RetInv(s, ret)
    case AddStoreRefs(n, h, ret) => IsNode(s, n) && IsPtr(s, h) && s.next[n] == h && RetInv(s, ret)
    case AddCasHead(n, h, ret) => IsNode(s, n) && IsPtr(s, h) && s.next[n] == h && RetInv(s, ret)
    case AddGiveUp(n, h, ret) => IsNode(s, n) && IsPtr(s, h) && RetInv(s, ret)
    case _ => IsNode(s, p.n)
  }

  function Front(list: seq<int>): int {
    if list == [] then NULL else list[0]
  }

  /** `list` is the chain of `next` pointers from `head`: acyclic and without repetition. */
  predicate Linked(s: State) {
    && s.head == Front(s.list)
    && (forall i :: 0 <= i < |s.list| ==> IsNode(s, s.list[i]))
    && (forall i, j :: 0 <= i < j < |s.list| ==> s.list[i] != s.list[j])
    && (forall i :: 0 <= i < |s.list| ==> s.next[s.list[i]] == Front(s.list[i + 1..]))
  }

  /** Between two hand-outs of a node there is an `add` of it. */
  predicate NeverGivenTwice(log: seq<Event>) {
    forall i, j :: 0 <= i < j < |log| && log[i].Given? && log[j] == log[i] ==> AddedBetween(log, i, j)
  }

  predicate AddedBetween(log: seq<Event>, i: nat, j: nat)
    requires i < j <= |log| && log[i].Given?
  {
    exists k :: i < k < j && log[k] == Added(log[i].n)
  }

  predicate LogInv(s: State) {
    && NeverGivenTwice(s.log)
    && (forall i :: 0 <= i < |s.log| && s.log[i].Given? && s.log[i].n !in s.owned
          ==> AddedBetween(s.log, i, |s.log|))
  }

  ghost predicate Inv(s: State) {
    && |s.refs| == |s.next|
    && |s.pcs| < SHOULD_BE_ON_FREELIST - 1
    && (forall n :: n in s.owned ==> IsNode(s, n))
    && (forall n :: IsNode(s, n) ==> NodeInv(s, n))
    && (forall t :: 0 <= t < |s.pcs| ==> PcInv(s, s.pcs[t]))
    && Linked(s)
    && LogInv(s)
  }

  // ----- Preservation --------------------------------------------------------------

  lemma InitInv(nodes: nat, threads: nat)
    requires threads < SHOULD_BE_ON_FREELIST - 1
    ensures Inv(Init(nodes, threads))
  {
    var s := Init(nodes, threads);
    assert AllIdle(s.pcs);
    hide Total;
    forall n | IsNode(s, n) ensures NodeInv(s, n) {
      TotalIdle(Hold, s.pcs, n);
      TotalIdle(Out, s.pcs, n);
      TotalIdle(Ins, s.pcs, n);
    }
  }

  /** How the three totals of a node move when thread `t` moves to `p`. */
  lemma Totals(s: State, t: nat, p: Pc, n: int)
    requires t < |s.pcs|
    ensures forall k :: Total(k, s.pcs[t := p], n) == Total(k, s.pcs, n) - Weight(k, s.pcs[t], n) + Weight(k, p, n)
    ensures forall k :: Weight(k, s.pcs[t], n) <= Total(k, s.pcs, n)
    ensures Total(Hold, s.pcs[t := p], n) <= |s.pcs|
  {
    forall k
      ensures Total(k, s.pcs[t := p], n) == Total(k, s.pcs, n) - Weight(k, s.pcs[t], n) + Weight(k, p, n)
      ensures Weight(k, s.pcs[t], n) <= Total(k, s.pcs, n)
    {
      TotalUpdate(k, s.pcs, t, p, n);
      TotalAtLeast(k, s.pcs, t, n);
    }
    TotalAtMost(Hold, s.pcs[t := p], n);
  }

  predicate Getting(p: Pc) {
    p.GetLoadHead? || p.GetLoadRefs? || p.GetCasRefs? || p.GetLoadNext? || p.GetCasHead? || p.GetDropRef?
    || p.GetCheckFlag? || p.GetDropBoth?
  }

  /** One node's bookkeeping survives a step inside `try_get`. */
  lemma NodeKeptGet(s: State, t: nat, n: int)
    requires t < |s.pcs| < SHOULD_BE_ON_FREELIST - 1 && Getting(s.pcs[t]) && Step(s, Go(t)) != s
    requires IsNode(s, n) && NodeInv(s, n) && Linked(s)
    requires s.pcs[t].GetCasRefs? ==> s.pcs[t].refs % SHOULD_BE_ON_FREELIST != 0
    ensures IsNode(Step(s, Go(t)), n) && NodeInv(Step(s, Go(t)), n)
  {
    hide Total, Linked;
    var s' := Step(s, Go(t));
    var p := s'.pcs[t];
    assert s'.pcs == s.pcs[t := p];
    Totals(s, t, p, n);
    if s.pcs[t].GetCasHead? && s.head == s.pcs[t].n { PopKeepsOthers(s, n); }
  }

  /** One node's bookkeeping survives a call or a step that inserts. */
  lemma NodeKeptAdd(s: State, c: Choice, n: int)
    requires c.t < |s.pcs| < SHOULD_BE_ON_FREELIST - 1 && !Getting(s.pcs[c.t]) && Step(s, c) != s
    requires IsNode(s, n) && NodeInv(s, n)
    ensures IsNode(Step(s, c), n) && NodeInv(Step(s, c), n)
  {
    hide Total;
    var s' := Step(s, c);
    var t := c.t;
    var p := s'.pcs[t];
    assert s'.pcs == s.pcs[t := p];
    Totals(s, t, p, n);
    if c.Go? && s.pcs[t].AddCasHead? && s.head == s.pcs[t].h {
      assert n in s'.list <==> n in s.list || n == s.pcs[t].n;
    }
  }

  lemma NodeKept(s: State, c: Choice, n: int)
    requires c.t < |s.pcs| < SHOULD_BE_ON_FREELIST - 1 && Step(s, c) != s
    requires IsNode(s, n) && NodeInv(s, n) && Linked(s)
    requires s.pcs[c.t].GetCasRefs? ==> s.pcs[c.t].refs % SHOULD_BE_ON_FREELIST != 0
    ensures IsNode(Step(s, c), n) && NodeInv(Step(s, c), n)
  {
    hide NodeInv, Linked, NodeStep, StartAdd;
    if Getting(s.pcs[c.t]) {
      assert c.Go?;
      NodeKeptGet(s, c.t, n);
    } else {
      NodeKeptAdd(s, c, n);
    }
  }

  lemma GuardNonzero(s: State, p: Pc)
    requires PcInv(s, p)
    ensures p.GetCasRefs? ==> p.refs % SHOULD_BE_ON_FREELIST != 0
  {
  }

  lemma NodesKept(s: State, c: Choice)
    requires Inv(s)
    ensures var s' := Step(s, c); |s'.refs| == |s.refs| == |s'.next| && |s'.pcs| == |s.pcs|
    ensures forall n :: IsNode(s, n) ==> NodeInv(Step(s, c), n)
  {
    hide NodeInv, PcInv, Linked, LogInv;
    var s' := Step(s, c);
    if s' != s {
      assert PcInv(s, s.pcs[c.t]);
      GuardNonzero(s, s.pcs[c.t]);
      forall n | IsNode(s, n) ensures NodeInv(s', n) { NodeKept(s, c, n); }
    }
  }

  lemma PopKeepsOthers(s: State, n: int)
    requires Linked(s) && s.head != NULL
    ensures s.list != [] && s.head in s.list
    ensures n in s.list[1..] <==> n in s.list && n != s.head
  {
    if n in s.list && n != s.head {
      var i :| 0 <= i < |s.list| && s.list[i] == n;
      assert s.list[1..][i - 1] == n;
    }
  }

  /** The next pointer of a node only changes while its one inserter works on it,
      and then nobody else relies on it and it is not on the list. */
  lemma NextIsPrivate(s: State, t: nat, u: nat)
    requires Inv(s) && t < |s.pcs| && u < |s.pcs| && t != u && s.pcs[t].AddStoreNext?
    ensures s.pcs[t].n !in s.list
    ensures (s.pcs[u].GetCasHead? || s.pcs[u].AddStoreRefs? || s.pcs[u].AddCasHead?) ==> s.pcs[u].n != s.pcs[t].n
  {
    var n := s.pcs[t].n;
    assert PcInv(s, s.pcs[t]);
    assert NodeInv(s, n);
    TotalAtLeast(Ins, s.pcs, t, n);
    TotalAtLeast(Hold, s.pcs, u, n);
    TotalAtLeast(Out, s.pcs, u, n);
    if t < u { TotalAtLeastTwo(Ins, s.pcs, t, u, n); } else { TotalAtLeastTwo(Ins, s.pcs, u, t, n); }
  }

  lemma PcsKept(s: State, c: Choice)
    requires Inv(s)
    ensures var s' := Step(s, c); forall u :: 0 <= u < |s'.pcs| ==> PcInv(s', s'.pcs[u])
  {
    hide NodeInv, Linked, LogInv, PcInv;
    var s' := Step(s, c);
    if s' != s {
      forall u | 0 <= u < |s'.pcs| ensures PcInv(s', s'.pcs[u]) {
        if u == c.t { MoverKept(s, c); } else { BystanderKept(s, c, u); }
      }
    }
  }

  lemma BystanderKept(s: State, c: Choice, u: nat)
    requires Inv(s) && Step(s, c) != s && u < |s.pcs| && u != c.t
    ensures var s' := Step(s, c); u < |s'.pcs| && PcInv(s', s'.pcs[u])
  {
    hide NodeInv, Linked, LogInv, PcInv, NodeStep;
    assert PcInv(s, s.pcs[c.t]) && PcInv(s, s.pcs[u]);
    if c.Go? && s.pcs[c.t].AddStoreNext? { NextIsPrivate(s, c.t, u); }
    hide Inv, Step;
    BystanderStep(s, c, u);
  }

  lemma BystanderStep(s: State, c: Choice, u: nat)
    requires Step(s, c) != s && c.t < |s.pcs| && u < |s.pcs| && u != c.t && |s.refs| == |s.next|
    requires PcInv(s, s.pcs[u])
    requires c.Go? && s.pcs[c.t].AddStoreNext? ==>
      (s.pcs[u].GetCasHead? || s.pcs[u].AddStoreRefs? || s.pcs[u].AddCasHead?) ==> s.pcs[u].n != s.pcs[c.t].n
    ensures var s' := Step(s, c); u < |s'.pcs| && PcInv(s', s'.pcs[u])
  {
    var s' := Step(s, c);
    assert s'.pcs[u] == s.pcs[u] && |s'.refs| == |s'.next| == |s.refs|;
    assert forall n :: IsPtr(s', n) == IsPtr(s, n);
    if !(c.Go? && s.pcs[c.t].AddStoreNext?) { assert s'.next == s.next; }
  }

  lemma MoverKept(s: State, c: Choice)
    requires Inv(s) && Step(s, c) != s
    ensures var s' := Step(s, c); c.t < |s'.pcs| && PcInv(s', s'.pcs[c.t])
  {
    hide NodeInv, Linked, LogInv;
    var t := c.t;
    assert PcInv(s, s.pcs[t]);
    HeadIsPtr(s);
    if c.Go? && s.pcs[t].GetCheckFlag? { PoppedIsUnflagged(s, t); }
    hide Inv;
    MoverStep(s, c);
  }

  lemma MoverStep(s: State, c: Choice)
    requires Step(s, c) != s && c.t < |s.pcs| && |s.refs| == |s.next|
    requires PcInv(s, s.pcs[c.t]) && IsPtr(s, s.head)
    requires s.pcs[c.t].GetCheckFlag? ==> s.refs[s.pcs[c.t].n] < SHOULD_BE_ON_FREELIST
    ensures var s' := Step(s, c); c.t < |s'.pcs| && PcInv(s', s'.pcs[c.t])
  {
    if c.Go? && s.pcs[c.t].AddStoreNext? {
      assert Step(s, c).next[s.pcs[c.t].n] == s.pcs[c.t].h;
    }
  }

  /** The list's own reference is being carried, so the flag is clear. */
  lemma PoppedIsUnflagged(s: State, t: nat)
    requires Inv(s) && t < |s.pcs| && s.pcs[t].GetCheckFlag?
    ensures IsNode(s, s.pcs[t].n) && s.refs[s.pcs[t].n] < SHOULD_BE_ON_FREELIST
  {
    assert PcInv(s, s.pcs[t]);
    assert NodeInv(s, s.pcs[t].n);
    TotalAtLeast(Out, s.pcs, t, s.pcs[t].n);
  }

  lemma HeadIsPtr(s: State)
    requires Inv(s)
    ensures IsPtr(s, s.head)
  {
  }

  /** Popping: the successor read under a reference is the true one. */
  lemma PopKeepsLinks(s: State, n: int)
    requires Linked(s) && s.head == n != NULL && IsNode(s, n)
    ensures Linked(s.(head := s.next[n], list := s.list[1..]))
  {
    var s' := s.(head := s.next[n], list := s.list[1..]);
    assert s.next[s.list[0]] == Front(s.list[1..]);
    forall i | 0 <= i < |s'.list| ensures s'.next[s'.list[i]] == Front(s'.list[i + 1..]) {
      assert s'.list[i] == s.list[i + 1];
      assert s.list[1..][i + 1..] == s.list[i + 2..];
    }
  }

  lemma PushKeepsLinks(s: State, n: int)
    requires Linked(s) && IsNode(s, n) && n !in s.list && s.next[n] == s.head
    ensures Linked(s.(head := n, list := [n] + s.list))
  {
    var s' := s.(head := n, list := [n] + s.list);
    assert s'.list[1..] == s.list;
    forall i | 0 <= i < |s'.list| ensures s'.next[s'.list[i]] == Front(s'.list[i + 1..]) {
      if i > 0 {
        assert s'.list[i] == s.list[i - 1];
        assert s'.list[i + 1..] == s.list[i..];
      }
    }
  }

  lemma LinksOnly(s: State, s': State)
    requires Linked(s) && s'.head == s.head && s'.list == s.list && |s'.refs| == |s.refs| == |s'.next| == |s.next|
    requires forall n :: 0 <= n < |s.next| && n in s.list ==> s'.next[n] == s.next[n]
    ensures Linked(s')
  {
  }

  lemma Unlisted(s: State, t: nat)
    requires Inv(s) && t < |s.pcs| && (s.pcs[t].AddStoreNext? || s.pcs[t].AddCasHead?)
    ensures s.pcs[t].n !in s.list
  {
    var n := s.pcs[t].n;
    assert PcInv(s, s.pcs[t]);
    assert NodeInv(s, n);
    TotalAtLeast(Ins, s.pcs, t, n);
    TotalAtLeast(Out, s.pcs, t, n);
  }

  lemma LinkedKept(s: State, c: Choice)
    requires Inv(s)
    ensures Linked(Step(s, c))
  {
    hide NodeInv, LogInv, Linked;
    var s' := Step(s, c);
    if s' != s {
      var t := c.t;
      var p := s.pcs[t];
      assert PcInv(s, p);
      hide Inv;
      if c.Go? && p.GetCasHead? && s.head == p.n {
        PopKeepsOthers(s, p.n);
        PopKeepsLinks(s, p.n);
        LinksOnly(s.(head := s.next[p.n], list := s.list[1..]), s');
      } else if c.Go? && p.AddCasHead? && s.head == p.h {
        Unlisted(s, t);
        PushKeepsLinks(s, p.n);
        LinksOnly(s.(head := p.n, list := [p.n] + s.list), s');
      } else {
        if c.Go? && p.AddStoreNext? { Unlisted(s, t); }
        LinksOnly(s, s');
      }
    }
  }

  lemma LogGrows(log: seq<Event>, e: Event, i: nat, j: nat)
    requires i < j <= |log| && log[i].Given?
    ensures AddedBetween(log, i, j) ==> AddedBetween(log + [e], i, j)
    ensures AddedBetween(log, i, j) ==> AddedBetween(log + [e], i, |log| + 1)
  {
    if AddedBetween(log, i, j) {
      var k :| i < k < j && log[k] == Added(log[i].n);
      assert (log + [e])[k] == Added(log[i].n);
    }
  }

  lemma LogAdded(s: State, s': State, n: int)
    requires LogInv(s) && s'.log == s.log + [Added(n)] && s'.owned == s.owned - {n}
    ensures LogInv(s')
  {
    var m := |s.log|;
    forall i, j | 0 <= i < j < |s'.log| && s'.log[i].Given? && s'.log[j] == s'.log[i]
      ensures AddedBetween(s'.log, i, j)
    {
      assert AddedBetween(s.log, i, j);
      LogGrows(s.log, Added(n), i, j);
    }
    forall i | 0 <= i < |s'.log| && s'.log[i].Given? && s'.log[i].n !in s'.owned
      ensures AddedBetween(s'.log, i, m + 1)
    {
      LogGrows(s.log, Added(n), i, m);
      assert s'.log[m] == Added(n);
    }
  }

  lemma LogGiven(s: State, s': State, n: int)
    requires LogInv(s) && n !in s.owned && s'.log == s.log + [Given(n)] && s'.owned == s.owned + {n}
    ensures LogInv(s')
  {
    var m := |s.log|;
    forall i, j | 0 <= i < j < |s'.log| && s'.log[i].Given? && s'.log[j] == s'.log[i]
      ensures AddedBetween(s'.log, i, j)
    {
      assert j < m ==> AddedBetween(s.log, i, j);
      LogGrows(s.log, Given(n), i, j);
    }
    forall i | 0 <= i < |s'.log| && s'.log[i].Given? && s'.log[i].n !in s'.owned
      ensures AddedBetween(s'.log, i, m + 1)
    {
      LogGrows(s.log, Given(n), i, m);
    }
  }

  lemma LogKept(s: State, c: Choice)
    requires Inv(s)
    ensures LogInv(Step(s, c))
  {
    hide LogInv, NodeInv, Linked;
    if Step(s, c) != s {
      if c.CallAdd? {
        LogAdded(s, Step(s, c), c.n);
      } else if c.Go? && s.pcs[c.t].GetDropBoth? {
        TakenIsUnowned(s, c.t);
        LogGiven(s, Step(s, c), s.pcs[c.t].n);
      } else {
        assert Step(s, c).log == s.log && Step(s, c).owned == s.owned;
        LogSame(s, Step(s, c));
      }
    }
  }

  lemma LogSame(s: State, s': State)
    requires LogInv(s) && s'.log == s.log && s'.owned == s.owned
    ensures LogInv(s')
  {
  }

  lemma TakenIsUnowned(s: State, t: nat)
    requires Inv(s) && t < |s.pcs| && s.pcs[t].GetDropBoth?
    ensures s.pcs[t].n !in s.owned
  {
    assert PcInv(s, s.pcs[t]) && NodeInv(s, s.pcs[t].n);
    TotalAtLeast(Out, s.pcs, t, s.pcs[t].n);
  }

  lemma StepInv(s: State, c: Choice)
    requires Inv(s)
    ensures Inv(Step(s, c))
  {
    hide NodeInv, PcInv, Linked, LogInv;
    assert forall n :: n in Step(s, c).owned ==> n in s.owned || IsNode(s, n);
    hide Step;
    NodesKept(s, c);
    PcsKept(s, c);
    LinkedKept(s, c);
    LogKept(s, c);
  }

  // ----- Main results over every schedule -------------------------------------------

  lemma {:induction false} RunInv(nodes: nat, threads: nat, schedule: seq<Choice>)
    requires threads < SHOULD_BE_ON_FREELIST - 1
    ensures Inv(Run(Init(nodes, threads), schedule))
    decreases |schedule|
  {
    if schedule == [] {
      InitInv(nodes, threads);
    } else {
      RunInv(nodes, threads, schedule[..|schedule| - 1]);
      StepInv(Run(Init(nodes, threads), schedule[..|schedule| - 1]), schedule[|schedule| - 1]);
    }
  }

  /** The threads that are inside `add_knowing_refcount_is_zero` for a node. */
  predicate Inserting(p: Pc, n: int) {
    (p.AddLoadHead? || p.AddStoreNext? || p.AddStoreRefs? || p.AddCasHead? || p.AddGiveUp?) && p.n == n
  }

  predicate Taking(p: Pc, n: int) {
    (p.GetCheckFlag? || p.GetDropBoth?) && p.n == n
  }

  /** A node that a caller owns is not on the list and no thread is inserting or handing it out;
      a node on the list is linked exactly once; at most one thread at a time inserts or hands out
      a node; no hand-out is repeated without an `add`; no assertion has failed. */
  ghost predicate Exclusive(s: State) {
    && (forall n :: n in s.owned ==> n !in s.list)
    && (forall t, n :: 0 <= t < |s.pcs| && (Inserting(s.pcs[t], n) || Taking(s.pcs[t], n))
          ==> n !in s.owned && n !in s.list)
    && (forall t, u, n :: 0 <= t < u < |s.pcs| && (Inserting(s.pcs[t], n) || Taking(s.pcs[t], n))
          ==> !Inserting(s.pcs[u], n) && !Taking(s.pcs[u], n))
    && (forall i, j :: 0 <= i < j < |s.list| ==> s.list[i] != s.list[j])
    && NeverGivenTwice(s.log)
    && (forall t :: 0 <= t < |s.pcs| ==> !s.pcs[t].AssertionFailed?)
  }

  lemma WorkedOnIsNowhereElse(s: State, t: nat, n: int)
    requires Inv(s) && t < |s.pcs| && (Inserting(s.pcs[t], n) || Taking(s.pcs[t], n))
    ensures n !in s.owned && n !in s.list
  {
    hide LogInv, Linked;
    assert PcInv(s, s.pcs[t]) && NodeInv(s, n);
    TotalAtLeast(Ins, s.pcs, t, n);
    TotalAtLeast(Out, s.pcs, t, n);
  }

  lemma OneWorker(s: State, t: nat, u: nat, n: int)
    requires Inv(s) && t < u < |s.pcs| && (Inserting(s.pcs[t], n) || Taking(s.pcs[t], n))
    ensures !Inserting(s.pcs[u], n) && !Taking(s.pcs[u], n)
  {
    hide LogInv, Linked, Total;
    assert PcInv(s, s.pcs[t]) && NodeInv(s, n);
    hide Inv;
    TotalAtLeastTwo(Ins, s.pcs, t, u, n);
    TotalAtLeastTwo(Out, s.pcs, t, u, n);
    TotalAtLeast(Ins, s.pcs, t, n);
    TotalAtLeast(Out, s.pcs, t, n);
    TotalAtLeast(Ins, s.pcs, u, n);
    TotalAtLeast(Out, s.pcs, u, n);
  }

  lemma OwnedIsUnlisted(s: State, n: int)
    requires Inv(s) && n in s.owned
    ensures n !in s.list
  {
    assert NodeInv(s, n);
  }

  lemma InvIsExclusive(s: State)
    requires Inv(s)
    ensures Exclusive(s)
  {
    hide NodeInv, PcInv, Inserting, Taking, NeverGivenTwice;
    forall n | n in s.owned ensures n !in s.list { OwnedIsUnlisted(s, n); }
    forall t | 0 <= t < |s.pcs| ensures !s.pcs[t].AssertionFailed? { NotFailed(s, s.pcs[t]); }
    ShareNothing(s);
  }

  lemma NotFailed(s: State, p: Pc)
    requires PcInv(s, p)
    ensures !p.AssertionFailed?
  {
  }

  lemma ShareNothing(s: State)
    requires Inv(s)
    ensures forall t, n :: 0 <= t < |s.pcs| && (Inserting(s.pcs[t], n) || Taking(s.pcs[t], n))
              ==> n !in s.owned && n !in s.list
    ensures forall t, u, n :: 0 <= t < u < |s.pcs| && (Inserting(s.pcs[t], n) || Taking(s.pcs[t], n))
              ==> !Inserting(s.pcs[u], n) && !Taking(s.pcs[u], n)
  {
    hide *;
    forall t, n | 0 <= t < |s.pcs| && (Inserting(s.pcs[t], n) || Taking(s.pcs[t], n))
      ensures n !in s.owned && n !in s.list
    {
      WorkedOnIsNowhereElse(s, t, n);
    }
    forall t, u, n | 0 <= t < u < |s.pcs| && (Inserting(s.pcs[t], n) || Taking(s.pcs[t], n))
      ensures !Inserting(s.pcs[u], n) && !Taking(s.pcs[u], n)
    {
      OneWorker(s, t, u, n);
    }
  }

  /** What callers see: the nodes they pass to `add`, and the nodes that finishing calls of `try_get` return. */
  function Observed(s: State, schedule: seq<Choice>): seq<Event>
    decreases |schedule|
  {
    if schedule == [] then []
    else
      var now, c := Run(s, schedule[..|schedule| - 1]), schedule[|schedule| - 1];
      Observed(s, schedule[..|schedule| - 1]) +
      if c.t >= |now.pcs| then []
      else if c.CallAdd? && now.pcs[c.t].Idle? && c.n in now.owned then [Added(c.n)]
      else if c.Go? && now.pcs[c.t].GetDropBoth? then [Given(now.pcs[c.t].n)]
      else []
  }

  lemma {:induction false} LogIsObserved(nodes: nat, threads: nat, schedule: seq<Choice>)
    requires threads < SHOULD_BE_ON_FREELIST - 1
    ensures Run(Init(nodes, threads), schedule).log == Observed(Init(nodes, threads), schedule)
    decreases |schedule|
  {
    if schedule != [] {
      LogIsObserved(nodes, threads, schedule[..|schedule| - 1]);
      RunInv(nodes, threads, schedule[..|schedule| - 1]);
      hide Init, Run;
      LogStep(Run(Init(nodes, threads), schedule[..|schedule| - 1]), schedule[|schedule| - 1]);
    }
  }

  lemma LogStep(s: State, c: Choice)
    requires Inv(s)
    ensures Step(s, c).log == s.log +
      if c.t >= |s.pcs| then []
      else if c.CallAdd? && s.pcs[c.t].Idle? && c.n in s.owned then [Added(c.n)]
      else if c.Go? && s.pcs[c.t].GetDropBoth? then [Given(s.pcs[c.t].n)]
      else []
  {
    hide NodeInv, Linked, LogInv;
    if c.t < |s.pcs| { assert PcInv(s, s.pcs[c.t]); }
  }

  /** Ownership is exclusive under every interleaving, and no caller is handed a node twice without having
      added it in between. */
  lemma OwnershipIsExclusive(nodes: nat, threads: nat, schedule: seq<Choice>)
    requires threads < SHOULD_BE_ON_FREELIST - 1
    ensures Exclusive(Run(Init(nodes, threads), schedule))
    ensures NeverGivenTwice(Observed(Init(nodes, threads), schedule))
  {
    RunInv(nodes, threads, schedule);
    LogIsObserved(nodes, threads, schedule);
    InvIsExclusive(Run(Init(nodes, threads), schedule));
  }

  /** The number of threads that have incremented the node's count and not yet dropped it. */
  function Holders(s: State, n: int): nat {
    Total(Hold, s.pcs, n)
  }

  /** The list's reference, also while it is being handed over by an inserting or taking thread. */
  predicate ListRefers(s: State, n: int) {
    n in s.list || exists t :: 0 <= t < |s.pcs| && Weight(Out, s.pcs[t], n) == 1
  }

  lemma {:induction false} SomeWeight(k: Kind, pcs: seq<Pc>, n: int) returns (t: nat)
    requires Total(k, pcs, n) > 0
    ensures t < |pcs| && Weight(k, pcs[t], n) == 1
  {
    if Weight(k, pcs[|pcs| - 1], n) == 1 { t := |pcs| - 1; }
    else { t := SomeWeight(k, pcs[..|pcs| - 1], n); }
  }

  /** The low bits of the reference word are exact, for every interleaving. */
  lemma RefCountIsExact(nodes: nat, threads: nat, schedule: seq<Choice>, n: int)
    requires threads < SHOULD_BE_ON_FREELIST - 1 && 0 <= n < nodes
    ensures var s := Run(Init(nodes, threads), schedule);
      && |s.refs| == nodes
      && s.refs[n] % 0x8000_0000 == (if ListRefers(s, n) then 1 else 0) + Holders(s, n)
  {
    RunInv(nodes, threads, schedule);
    RunSizes(Init(nodes, threads), schedule);
    CountIsExact(Run(Init(nodes, threads), schedule), n);
  }

  lemma CountIsExact(s: State, n: int)
    requires Inv(s) && IsNode(s, n)
    ensures s.refs[n] % SHOULD_BE_ON_FREELIST == (if ListRefers(s, n) then 1 else 0) + Holders(s, n)
  {
    hide LogInv, Linked, PcInv, Total;
    assert NodeInv(s, n);
    hide Inv;
    TotalAtMost(Hold, s.pcs, n);
    if Total(Out, s.pcs, n) > 0 {
      var t := SomeWeight(Out, s.pcs, n);
    } else {
      forall t | 0 <= t < |s.pcs| ensures Weight(Out, s.pcs[t], n) == 0 { TotalAtLeast(Out, s.pcs, t, n); }
    }
  }

  lemma StepSizes(s: State, c: Choice)
    requires |s.refs| == |s.next|
    ensures var s' := Step(s, c); |s'.refs| == |s'.next| == |s.refs| && |s'.pcs| == |s.pcs|
  {
  }

  lemma {:induction false} RunSizes(s: State, schedule: seq<Choice>)
    requires |s.refs| == |s.next|
    ensures var s' := Run(s, schedule); |s'.refs| == |s'.next| == |s.refs| && |s'.pcs| == |s.pcs|
    decreases |schedule|
  {
    hide Step;
    if schedule != [] {
      RunSizes(s, schedule[..|schedule| - 1]);
      StepSizes(Run(s, schedule[..|schedule| - 1]), schedule[|schedule| - 1]);
    }
  }

  /** Nothing is lost: when no call is in progress every node is owned by a caller or linked
      from the head, and not both, and every reference word says so. */
  lemma QuiescentNodesAreOwnedOrListed(nodes: nat, threads: nat, schedule: seq<Choice>, n: int)
    requires threads < SHOULD_BE_ON_FREELIST - 1 && 0 <= n < nodes
    requires AllIdle(Run(Init(nodes, threads), schedule).pcs)
    ensures var s := Run(Init(nodes, threads), schedule);
      && (n in s.owned <==> n !in s.list)
      && |s.refs| == nodes && s.refs[n] == (if n in s.list then 1 else 0)
  {
    RunInv(nodes, threads, schedule);
    RunSizes(Init(nodes, threads), schedule);
    var s := Run(Init(nodes, threads), schedule);
    assert NodeInv(s, n);
    TotalIdle(Hold, s.pcs, n);
    TotalIdle(Out, s.pcs, n);
    TotalIdle(Ins, s.pcs, n);
  }

  /** A deferred insertion always has somebody left to carry it out: a flagged node is being
      inserted by one thread, or some thread still holds it and will be the last to let go. */
  lemma FlaggedNodeHasACarrier(nodes: nat, threads: nat, schedule: seq<Choice>, n: int) returns (t: nat)
    requires threads < SHOULD_BE_ON_FREELIST - 1 && 0 <= n < nodes
    requires var s := Run(Init(nodes, threads), schedule);
      n < |s.refs| && s.refs[n] >= SHOULD_BE_ON_FREELIST
    ensures var s := Run(Init(nodes, threads), schedule);
      t < |s.pcs| && (Weight(Ins, s.pcs[t], n) == 1 || Weight(Hold, s.pcs[t], n) == 1)
  {
    RunInv(nodes, threads, schedule);
    var s := Run(Init(nodes, threads), schedule);
    assert NodeInv(s, n);
    if Total(Ins, s.pcs, n) > 0 { t := SomeWeight(Ins, s.pcs, n); }
    else { t := SomeWeight(Hold, s.pcs, n); }
  }

  // ----- How a call of try_get ends ---------------------------------------------------

  /** Inside `try_get`, also while it puts back a node on behalf of an earlier `add`. */
  predicate InTryGet(p: Pc) {
    Getting(p)
    || ((p.AddLoadHead? || p.AddStoreNext? || p.AddStoreRefs? || p.AddCasHead? || p.AddGiveUp?) && p.ret.ToLoop?)
  }

  /** The steps of `try_get` that load the head: the call itself, a reload, and a failed exchange of the head. */
  predicate LoadsHead(s: State, c: Choice) {
    c.t < |s.pcs| &&
    (|| (c.CallGet? && s.pcs[c.t].Idle?)
     || (c.Go? && s.pcs[c.t].GetLoadHead?)
     || (c.Go? && s.pcs[c.t].GetCasHead? && s.head != s.pcs[c.t].n))
  }

  /** How many steps the schedule had made at the latest load of the head by thread `t`. */
  function LatestLoad(s: State, schedule: seq<Choice>, t: nat): (k: nat)
    ensures k <= |schedule|
    decreases |schedule|
  {
    if schedule == [] then 0
    else
      var n := |schedule| - 1;
      if schedule[n].t == t && LoadsHead(Run(s, schedule[..n]), schedule[n]) then n
      else LatestLoad(s, schedule[..n], t)
  }

  /** What the list was at the latest load of the head by thread `t`. */
  function ListLoaded(s: State, schedule: seq<Choice>, t: nat): seq<int> {
    Run(s, schedule[..LatestLoad(s, schedule, t)]).list
  }

  lemma ListLoadedNext(s: State, schedule: seq<Choice>, c: Choice, t: nat)
    ensures Run(s, schedule + [c]) == Step(Run(s, schedule), c)
    ensures ListLoaded(s, schedule + [c], t) ==
      if c.t == t && LoadsHead(Run(s, schedule), c) then Run(s, schedule).list else ListLoaded(s, schedule, t)
  {
    hide Step, LoadsHead;
    var all := schedule + [c];
    assert all[..|schedule|] == schedule;
    var k := LatestLoad(s, schedule, t);
    assert all[..k] == schedule[..k];
  }

  /** The head a thread inside `try_get` goes on with: a node while it works on one, and NULL only while
      it still has to let go of the node before. */
  function Loaded(p: Pc): int
    requires InTryGet(p) && !p.GetLoadHead?
  {
    if p.GetDropRef? then p.cur else if Getting(p) then p.n else p.ret.head
  }

  /** What thread `t` may be doing after it loaded the head of `list`. */
  predicate GoesOnWith(p: Pc, list: seq<int>) {
    InTryGet(p) && !p.GetLoadHead? ==> Loaded(p) == if list == [] then NULL else list[0]
  }

  /** Over every schedule, a thread goes on with the first node there was at its latest load. */
  lemma {:induction false} GoesOnWithTheHead(nodes: nat, threads: nat, schedule: seq<Choice>, t: nat)
    requires threads < SHOULD_BE_ON_FREELIST - 1 && t < threads
    ensures var s := Run(Init(nodes, threads), schedule);
      |s.pcs| == threads && GoesOnWith(s.pcs[t], ListLoaded(Init(nodes, threads), schedule, t))
    decreases |schedule|
  {
    if schedule != [] {
      hide *;
      var before, last := schedule[..|schedule| - 1], schedule[|schedule| - 1];
      assert schedule == before + [last];
      GoesOnWithTheHead(nodes, threads, before, t);
      RunInv(nodes, threads, before);
      ListLoadedNext(Init(nodes, threads), before, last, t);
      LoadedNode(nodes, threads, before, t);
      LoadStep(Run(Init(nodes, threads), before), last, t, ListLoaded(Init(nodes, threads), before, t));
    }
  }

  lemma LoadedNode(nodes: nat, threads: nat, schedule: seq<Choice>, t: nat)
    requires threads < SHOULD_BE_ON_FREELIST - 1
    ensures var list := ListLoaded(Init(nodes, threads), schedule, t); list == [] || list[0] != NULL
  {
    var k := LatestLoad(Init(nodes, threads), schedule, t);
    hide LatestLoad, Init, Run;
    RunInv(nodes, threads, schedule[..k]);
    ListHead(Run(Init(nodes, threads), schedule[..k]));
  }

  lemma LoadStep(s: State, c: Choice, t: nat, list: seq<int>)
    requires Inv(s) && t < |s.pcs| && GoesOnWith(s.pcs[t], list) && (list == [] || list[0] != NULL)
    ensures |Step(s, c).pcs| == |s.pcs|
    ensures var p, p', list' := s.pcs[t], Step(s, c).pcs[t], if c.t == t && LoadsHead(s, c) then s.list else list;
      && GoesOnWith(p', list')
      && (InTryGet(p) ==> p'.Idle? || InTryGet(p'))
      && (InTryGet(p) && p'.Idle? && !(c == Go(t) && p.GetDropBoth?) ==> list' == [] && Step(s, c).log == s.log)
  {
    hide NodeInv, LogInv;
    assert PcInv(s, s.pcs[t]);
    ListHead(s);
    if c == Go(t) {
      if s.pcs[t].GetCheckFlag? { PoppedIsUnflagged(s, t); }
      hide Inv;
      OwnLoadStep(s, t, list);
    } else {
      hide Inv, PcInv;
    }
  }

  lemma OwnLoadStep(s: State, t: nat, list: seq<int>)
    requires t < |s.pcs| && GoesOnWith(s.pcs[t], list) && (list == [] || list[0] != NULL)
    requires PcInv(s, s.pcs[t]) && |s.refs| == |s.next|
    requires s.head == (if s.list == [] then NULL else s.list[0]) && (s.list == [] || s.list[0] != NULL)
    requires s.pcs[t].GetCheckFlag? ==> IsNode(s, s.pcs[t].n) && s.refs[s.pcs[t].n] < SHOULD_BE_ON_FREELIST
    ensures |Step(s, Go(t)).pcs| == |s.pcs|
    ensures var s' := Step(s, Go(t));
      var p, p', list' := s.pcs[t], s'.pcs[t], if LoadsHead(s, Go(t)) then s.list else list;
      && GoesOnWith(p', list')
      && (InTryGet(p) ==> p'.Idle? || InTryGet(p'))
      && (InTryGet(p) && p'.Idle? && !p.GetDropBoth? ==> list' == [] && s'.log == s.log)
  {
  }

  lemma ListHead(s: State)
    requires Inv(s)
    ensures s.head == (if s.list == [] then NULL else s.list[0]) && (s.list == [] || s.list[0] != NULL)
  {
  }

  /** Over every schedule a call of `try_get` ends exactly by handing a node out or by finding that there
      was no node at its latest load of the head; contention alone never ends it. */
  lemma TryGetEndsIff(nodes: nat, threads: nat, schedule: seq<Choice>, t: nat, c: Choice)
    requires threads < SHOULD_BE_ON_FREELIST - 1 && t < threads
    requires t < |Run(Init(nodes, threads), schedule).pcs| && InTryGet(Run(Init(nodes, threads), schedule).pcs[t])
    ensures var s, s' := Run(Init(nodes, threads), schedule), Run(Init(nodes, threads), schedule + [c]);
      var list := ListLoaded(Init(nodes, threads), schedule + [c], t);
      && t < |s'.pcs| && (s'.pcs[t].Idle? || InTryGet(s'.pcs[t]))
      && (s'.pcs[t].Idle? && !(c.Go? && c.t == t && s.pcs[t].GetDropBoth?) ==> list == [] && s'.log == s.log)
      && (c.Go? && c.t == t && s.pcs[t].GetDropBoth? ==> s'.pcs[t].Idle? && s'.log == s.log + [Given(s.pcs[t].n)])
      && (s'.pcs[t].GetLoadRefs? ==> list != [] && s'.pcs[t].n == list[0])
  {
    hide *;
    var s := Run(Init(nodes, threads), schedule);
    RunInv(nodes, threads, schedule);
    GoesOnWithTheHead(nodes, threads, schedule, t);
    ListLoadedNext(Init(nodes, threads), schedule, c, t);
    LoadedNode(nodes, threads, schedule, t);
    LoadStep(s, c, t, ListLoaded(Init(nodes, threads), schedule, t));
    HandsOut(s, t);
    StepInv(s, c);
    AtANode(Step(s, c), t, ListLoaded(Init(nodes, threads), schedule + [c], t));
  }

  lemma AtANode(s: State, t: nat, list: seq<int>)
    requires Inv(s) && t < |s.pcs| && GoesOnWith(s.pcs[t], list)
    ensures s.pcs[t].GetLoadRefs? ==> list != [] && s.pcs[t].n == list[0]
  {
    assert PcInv(s, s.pcs[t]);
  }

  lemma HandsOut(s: State, t: nat)
    requires Inv(s) && t < |s.pcs|
    ensures s.pcs[t].GetDropBoth? ==>
      |Step(s, Go(t)).pcs| == |s.pcs| && Step(s, Go(t)).pcs[t].Idle?
      && Step(s, Go(t)).log == s.log + [Given(s.pcs[t].n)]
  {
    assert PcInv(s, s.pcs[t]);
  }

  /** A call returns at once exactly when the list is empty. */
  lemma CallGetReturnsIffEmpty(nodes: nat, threads: nat, schedule: seq<Choice>, t: nat)
    requires threads < SHOULD_BE_ON_FREELIST - 1
    requires t < |Run(Init(nodes, threads), schedule).pcs| && Run(Init(nodes, threads), schedule).pcs[t].Idle?
    ensures var s := Run(Init(nodes, threads), schedule);
      var s' := Step(s, CallGet(t));
      && (s.list == [] ==> s' == s)
      && (s.list != [] ==> s' == s.(pcs := s.pcs[t := GetLoadRefs(s.list[0])]))
  {
    RunInv(nodes, threads, schedule);
    var s := Run(Init(nodes, threads), schedule);
    hide Run, Init;
    assert s.list == [] ==> s.pcs[t := Idle] == s.pcs;
  }

  // ----- What a call does when it runs alone ------------------------------------------

  /** Thread `t` takes `k` steps in a row. */
  function Alone(s: State, t: nat, k: nat): State {
    if k == 0 then s else Step(Alone(s, t, k - 1), Go(t))
  }

  /** A bound on the steps thread `t` still needs if the others stand still. */
  function StepsLeft(s: State, p: Pc): nat
    requires PcInv(s, p)
  {
    match p
    case Idle => 0
    case GetLoadHead => 7
    case GetLoadRefs(n) => if n == s.head then 6 else 11
    case GetCasRefs(n, r) => if s.refs[n] != r then 8 else if n == s.head then 5 else 10
    case GetLoadNext(n) => if n == s.head then 4 else 2 + AfterDrop(s, n, s.head)
    case GetCasHead(n, _) => if n == s.head then 3 else 1 + AfterDrop(s, n, s.head)
    case GetDropRef(n, cur) => AfterDrop(s, n, cur)
    case GetCheckFlag(_) => 2
    case GetDropBoth(_) => 1
    case AddLoadHead(_, _) => 15
    case AddStoreNext(_, h, _) => if h == s.head then 14 else 18
    case AddStoreRefs(_, h, _) => if h == s.head then 13 else 17
    case AddCasHead(_, h, _) => if h == s.head then 12 else 16
    case AddGiveUp(_, h, _) => if h == s.head then 15 else 19
  }

  function AfterDrop(s: State, n: int, cur: int): nat
    requires IsNode(s, n)
  {
    if s.refs[n] == SHOULD_BE_ON_FREELIST + 1 then 16 else if cur == s.head then 7 else 12
  }

  /** Every step brings the thread nearer to its end: alone it reloads at most once per node it touches. */
  lemma StepsDecrease(s: State, t: nat)
    requires Inv(s) && t < |s.pcs| && !s.pcs[t].Idle? && PcInv(s, s.pcs[t])
    ensures var s' := Step(s, Go(t));
      |s'.pcs| == |s.pcs| && PcInv(s', s'.pcs[t]) && StepsLeft(s', s'.pcs[t]) < StepsLeft(s, s.pcs[t])
  {
    hide LogInv, Total, Linked;
    var p := s.pcs[t];
    if p.GetLoadRefs? { ListedIsReferred(s, p.n); }
    if p.GetCheckFlag? { PoppedIsUnflagged(s, t); }
    assert |s.refs| == |s.next|;
    StepInv(s, Go(t));
    StepSizes(s, Go(t));
    assert PcInv(Step(s, Go(t)), Step(s, Go(t)).pcs[t]);
    hide Inv, NodeInv;
    if Getting(p) { GetDecreases(s, t); } else { AddDecreases(s, t); }
  }

  lemma ListedIsReferred(s: State, n: int)
    requires Inv(s) && IsNode(s, n)
    ensures n == s.head ==> s.refs[n] % SHOULD_BE_ON_FREELIST != 0
  {
    assert NodeInv(s, n);
    TotalAtMost(Hold, s.pcs, n);
  }

  lemma GetDecreases(s: State, t: nat)
    requires t < |s.pcs| && Getting(s.pcs[t]) && PcInv(s, s.pcs[t])
    requires |Step(s, Go(t)).pcs| == |s.pcs| && PcInv(Step(s, Go(t)), Step(s, Go(t)).pcs[t])
    requires s.pcs[t].GetLoadRefs? && s.pcs[t].n == s.head ==> s.refs[s.pcs[t].n] % SHOULD_BE_ON_FREELIST != 0
    ensures StepsLeft(Step(s, Go(t)), Step(s, Go(t)).pcs[t]) < StepsLeft(s, s.pcs[t])
  {
  }

  lemma AddDecreases(s: State, t: nat)
    requires t < |s.pcs| && !s.pcs[t].Idle? && !Getting(s.pcs[t]) && PcInv(s, s.pcs[t])
    requires |Step(s, Go(t)).pcs| == |s.pcs| && PcInv(Step(s, Go(t)), Step(s, Go(t)).pcs[t])
    ensures StepsLeft(Step(s, Go(t)), Step(s, Go(t)).pcs[t]) < StepsLeft(s, s.pcs[t])
  {
  }

  /** Thread `t` ends within `k` steps of its own. */
  ghost predicate Within(s: State, t: nat, k: nat) {
    Inv(s) && t < |s.pcs| && PcInv(s, s.pcs[t]) && StepsLeft(s, s.pcs[t]) <= k
  }

  /** From any reachable state every call, of `add` or of `try_get`, ends after at most 19 steps if it is
      left alone. */
  lemma AloneEnds(nodes: nat, threads: nat, schedule: seq<Choice>, t: nat)
    requires threads < SHOULD_BE_ON_FREELIST - 1 && t < threads
    ensures var s := Alone(Run(Init(nodes, threads), schedule), t, 19); t < |s.pcs| && s.pcs[t].Idle?
  {
    RunInv(nodes, threads, schedule);
    RunSizes(Init(nodes, threads), schedule);
    var s := Run(Init(nodes, threads), schedule);
    assert t < |s.pcs|;
    hide Run, Init;
    AtMostNineteen(s, t);
    hide *;
    StaysWithin(s, t, 19, 19);
    NothingLeft(Alone(s, t, 19), t);
  }

  lemma AtMostNineteen(s: State, t: nat)
    requires Inv(s) && t < |s.pcs|
    ensures Within(s, t, 19)
  {
    assert PcInv(s, s.pcs[t]);
  }

  lemma NothingLeft(s: State, t: nat)
    requires Within(s, t, 0)
    ensures t < |s.pcs| && s.pcs[t].Idle?
  {
  }

  lemma {:induction false} StaysWithin(s: State, t: nat, left: nat, k: nat)
    requires Within(s, t, left) && k <= left
    ensures Within(Alone(s, t, k), t, left - k)
  {
    hide Within, Step;
    if k > 0 {
      StaysWithin(s, t, left, k - 1);
      OneStepLess(Alone(s, t, k - 1), t, left - k);
    }
  }

  lemma OneStepLess(s: State, t: nat, left: nat)
    requires Within(s, t, left + 1)
    ensures Within(Step(s, Go(t)), t, left)
  {
    hide Step, Inv, PcInv;
    if s.pcs[t].Idle? { IdleStays(s, t); } else { StepsDecrease(s, t); }
    StepInv(s, Go(t));
  }

  lemma IdleStays(s: State, t: nat)
    requires t < |s.pcs| && s.pcs[t].Idle?
    ensures Step(s, Go(t)) == s
  {
  }

  ghost predicate Quiet(s: State) {
    Inv(s) && AllIdle(s.pcs)
  }

  lemma QuietRefs(s: State, n: int)
    requires Quiet(s) && IsNode(s, n)
    ensures s.refs[n] == OnList(s, n) && (n in s.owned <==> n !in s.list)
  {
    assert NodeInv(s, n);
    TotalIdle(Hold, s.pcs, n);
    TotalIdle(Out, s.pcs, n);
    TotalIdle(Ins, s.pcs, n);
  }

  lemma SixSteps(s: State, t: nat)
    ensures Alone(s, t, 6) == Step(Step(Step(Step(Step(Step(s, Go(t)), Go(t)), Go(t)), Go(t)), Go(t)), Go(t))
  {
    hide Step;
    assert Alone(s, t, 1) == Step(s, Go(t));
    assert Alone(s, t, 2) == Step(Alone(s, t, 1), Go(t));
    assert Alone(s, t, 3) == Step(Alone(s, t, 2), Go(t));
    assert Alone(s, t, 4) == Step(Alone(s, t, 3), Go(t));
    assert Alone(s, t, 5) == Step(Alone(s, t, 4), Go(t));
    assert Alone(s, t, 6) == Step(Alone(s, t, 5), Go(t));
  }

  /** `try_get` without interference pops the head node, or returns null on an empty list
      with nothing changed. */
  lemma LoneGetPops(s: State, t: nat)
    requires Quiet(s) && t < |s.pcs|
    ensures s.list == [] ==> Step(s, CallGet(t)) == s
    ensures s.list != [] ==>
      var n := s.list[0];
      Alone(Step(s, CallGet(t)), t, 6)
        == s.(head := Front(s.list[1..]), list := s.list[1..], refs := s.refs[n := 0],
              owned := s.owned + {n}, log := s.log + [Given(n)])
  {
    var s0 := Step(s, CallGet(t));
    assert s.pcs[t].Idle?;
    if s.list != [] {
      assert s.next[s.list[0]] == Front(s.list[1..]);
      QuietRefs(s, s.list[0]);
      hide Quiet;
      SixSteps(s0, t);
      hide Alone;
      TakeHead(s, t, s.list[0]);
      var s3 := Step(Step(Step(s0, Go(t)), Go(t)), Go(t));
      hide Step, Front;
      assert s.refs[s.list[0] := 2][s.list[0] := 0] == s.refs[s.list[0] := 0];
      PopHead(s3, t, s.list[0], Front(s.list[1..]));
      assert s3.pcs[t := Idle] == s.pcs;
    } else {
      assert s0.pcs == s.pcs;
    }
  }

  lemma TakeHead(s: State, t: nat, n: int)
    requires t < |s.pcs| && s.pcs[t].Idle? && IsNode(s, n) && s.head == n && s.refs[n] == 1
    ensures Step(Step(Step(Step(s, CallGet(t)), Go(t)), Go(t)), Go(t))
      == s.(refs := s.refs[n := 2], pcs := s.pcs[t := GetCasHead(n, s.next[n])])
  {
    var s1 := Step(Step(s, CallGet(t)), Go(t));
    assert s1.pcs == s.pcs[t := GetCasRefs(n, 1)];
    var s2 := Step(s1, Go(t));
    assert s2.pcs == s.pcs[t := GetLoadNext(n)];
    var s3 := Step(s2, Go(t));
    assert s3.pcs == s.pcs[t := GetCasHead(n, s.next[n])];
  }

  lemma PopHead(s: State, t: nat, n: int, nx: int)
    requires t < |s.pcs| && s.pcs[t] == GetCasHead(n, nx) && IsNode(s, n) && s.head == n && s.refs[n] == 2
    requires s.list != []
    ensures Step(Step(Step(s, Go(t)), Go(t)), Go(t))
      == s.(head := nx, list := s.list[1..], refs := s.refs[n := 0], pcs := s.pcs[t := Idle],
            owned := s.owned + {n}, log := s.log + [Given(n)])
  {
    var s1 := Step(s, Go(t));
    assert s1.pcs == s.pcs[t := GetCheckFlag(n)];
    var s2 := Step(s1, Go(t));
    assert s2.pcs == s.pcs[t := GetDropBoth(n)];
    var s3 := Step(s2, Go(t));
    assert s3.pcs == s.pcs[t := Idle];
  }

  /** `add` without interference pushes the node in front of the list. */
  lemma LoneAddPushes(s: State, t: nat, n: int)
    requires Quiet(s) && t < |s.pcs| && n in s.owned
    ensures Alone(Step(s, CallAdd(t, n)), t, 4)
      == s.(head := n, list := [n] + s.list, refs := s.refs[n := 1], next := s.next[n := s.head],
            owned := s.owned - {n}, log := s.log + [Added(n)])
  {
    assert s.pcs[t].Idle?;
    QuietRefs(s, n);
    hide Quiet;
    assert s.next[n := s.head][n] == s.head;
    AddAlone(s, t, n);
  }

  lemma AddAlone(s: State, t: nat, n: int)
    requires t < |s.pcs| && s.pcs[t].Idle? && n in s.owned && IsNode(s, n) && s.refs[n] == 0
    ensures Alone(Step(s, CallAdd(t, n)), t, 4)
      == s.(head := n, list := [n] + s.list, refs := s.refs[n := 1], next := s.next[n := s.head],
            owned := s.owned - {n}, log := s.log + [Added(n)])
  {
    var s0 := Step(s, CallAdd(t, n));
    assert s0.pcs == s.pcs[t := AddLoadHead(n, ToCaller)];
    var s1 := Step(s0, Go(t));
    assert s1.pcs == s.pcs[t := AddStoreNext(n, s.head, ToCaller)];
    assert Alone(s0, t, 1) == s1;
    var s2 := Step(s1, Go(t));
    assert s2.pcs == s.pcs[t := AddStoreRefs(n, s.head, ToCaller)] && s2.next == s.next[n := s.head];
    assert Alone(s0, t, 2) == s2;
    var s3 := Step(s2, Go(t));
    assert s3.pcs == s.pcs[t := AddCasHead(n, s.head, ToCaller)] && s3.refs == s.refs[n := 1];
    assert Alone(s0, t, 3) == s3;
    var s4 := Step(s3, Go(t));
    assert s4.pcs == s.pcs;
    assert Alone(s0, t, 4) == s4;
  }
}
