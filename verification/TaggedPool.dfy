/** LockFreeThreadSafePool: a free list threaded through an index array, with a head word that
    packs a 32-bit index and a 32-bit tag, as a system of atomic steps. */
module TaggedPool {
  import opened Words

  const HALFWORD: int := 0x1_0000_0000
  /** What the empty list looks like once packed: the truncated image of -1. */
  const NIL: int := 0xFFFF_FFFF

  function Pack(index: int, tag: int): int {
    (tag % HALFWORD) * HALFWORD + index % HALFWORD
  }

  function IndexOf(packed: int): int {
    packed % HALFWORD
  }

  function TagOf(packed: int): int {
    packed / HALFWORD
  }

  /** The next memory access of a thread with the locals it needs. `was` is the head word it read
      last, `seen` the number of head changes there had been by then (history only). */
  datatype Pc =
    | Idle
    | AllocReadNext(was: int, seen: nat)
    | AllocCas(was: int, nx: int, seen: nat)
    | FreeStoreNext(index: int, was: int, seen: nat)
    | FreeCas(index: int, was: int, seen: nat)
    | Allocated(index: int)
    | AllocatedNull
    | OutOfBoundsRead
    | Freed
    | ThrewNull

  /** `head` and `nextFree` are the shared memory. `owned` is what callers hold. `list` (the free
      slots in order) and `changes` (how often head was replaced) are history that no step reads. */
  datatype State = State(head: int, nextFree: seq<int>, pcs: seq<Pc>,
                         owned: set<int>, list: seq<int>, changes: nat)

  datatype Choice =
    | CallAllocate(t: nat)
    | CallDeallocate(t: nat, index: int)
    | CallDeallocateNull(t: nat)
    | Go(t: nat, spurious: bool)

  function Countdown(n: nat): (list: seq<int>)
    ensures |list| == n && forall i :: 0 <= i < n ==> list[i] == n - 1 - i
  {
    if n == 0 then [] else [n - 1] + Countdown(n - 1)
  }

  function Init(slots: nat, threads: nat): State {
    State(Pack(Word(slots - 1), 0), seq(slots, i => Word(i - 1)), seq(threads, i => Idle), {}, Countdown(slots), 0)
  }

  predicate Finished(p: Pc) {
    p.Idle? || p.Allocated? || p.AllocatedNull? || p.Freed? || p.ThrewNull?
  }

  function At(s: State, t: nat, p: Pc): State
    requires t < |s.pcs|
  {
    s.(pcs := s.pcs[t := p])
  }

  /** The exhaustion test of `allocate`: the unpacked index against (size_t)-1. */
  function AfterLoad(s: State): Pc {
    if IndexOf(s.head) == WORD - 1 then AllocatedNull else AllocReadNext(s.head, s.changes)
  }

  function Step(s: State, c: Choice): State {
    if c.t >= |s.pcs| then s else
    match c
    case CallAllocate(t) => if Finished(s.pcs[t]) then At(s, t, AfterLoad(s)) else s
    case CallDeallocate(t, index) =>
      if Finished(s.pcs[t]) && index in s.owned then
        At(s.(owned := s.owned - {index}), t, FreeStoreNext(index, s.head, s.changes))
      else s
    case CallDeallocateNull(t) => if Finished(s.pcs[t]) then At(s, t, ThrewNull) else s
    case Go(t, spurious) => ThreadStep(s, t, spurious)
  }

  function ThreadStep(s: State, t: nat, spurious: bool): State
    requires t < |s.pcs|
  {
    match s.pcs[t]
    case AllocReadNext(was, seen) =>
      var index := IndexOf(was);
      At(s, t, if index < |s.nextFree| then AllocCas(was, s.nextFree[index], seen) else OutOfBoundsRead)
    case AllocCas(was, nx, seen) =>
      if !spurious && s.head == was then
        At(s.(head := Pack(nx, TagOf(was) + 1), changes := s.changes + 1, owned := s.owned + {IndexOf(was)},
              list := if s.list == [] then [] else s.list[1..]), t, Allocated(IndexOf(was)))
      else At(s, t, AfterLoad(s))
    case FreeStoreNext(index, was, seen) =>
      if 0 <= index < |s.nextFree| then
        At(s.(nextFree := s.nextFree[index := IndexOf(was)]), t, FreeCas(index, was, seen))
      else s
    case FreeCas(index, was, seen) =>
      if !spurious && s.head == was then
        At(s.(head := Pack(index, TagOf(was) + 1), changes := s.changes + 1, list := [index] + s.list), t, Freed)
      else At(s, t, FreeStoreNext(index, s.head, s.changes))
    case _ => s
  }

  function Run(s: State, schedule: seq<Choice>): State
    decreases |schedule|
  {
    if schedule == [] then s else Step(Run(s, schedule[..|schedule| - 1]), schedule[|schedule| - 1])
  }

  /** Between a thread's load of the head and its compare-exchange, the head changed fewer than 2^32 times. */
  predicate TagsDoNotWrap(s: State) {
    forall t :: 0 <= t < |s.pcs| && (s.pcs[t].AllocCas? || s.pcs[t].FreeCas?) ==>
      s.changes - s.pcs[t].seen < HALFWORD
  }

  predicate TagsNeverWrap(s: State, schedule: seq<Choice>)
    decreases |schedule|
  {
    schedule == []
    || (TagsNeverWrap(s, schedule[..|schedule| - 1]) && TagsDoNotWrap(Run(s, schedule[..|schedule| - 1])))
  }

  // ----- Packing -----------------------------------------------------------------------------

  lemma PackParts(index: int, tag: int)
    ensures IndexOf(Pack(index, tag)) == index % HALFWORD && TagOf(Pack(index, tag)) == tag % HALFWORD
  {
  }

  /** An unpacked index is below 2^32, so the exhaustion test never fires. */
  lemma ExhaustionTestNeverFires(s: State)
    ensures !AfterLoad(s).AllocatedNull?
  {
  }

  // ----- Slots being freed ---------------------------------------------------------------------

  function InTransit(p: Pc, index: int): nat {
    if (p.FreeStoreNext? || p.FreeCas?) && p.index == index then 1 else 0
  }

  function Total(pcs: seq<Pc>, index: int): nat {
    if pcs == [] then 0 else InTransit(pcs[|pcs| - 1], index) + Total(pcs[..|pcs| - 1], index)
  }

  lemma {:induction false} TotalUpdate(pcs: seq<Pc>, t: nat, p: Pc, index: int)
    requires t < |pcs|
    ensures Total(pcs[t := p], index) == Total(pcs, index) - InTransit(pcs[t], index) + InTransit(p, index)
    ensures InTransit(pcs[t], index) <= Total(pcs, index)
  {
    var m := |pcs| - 1;
    if t == m {
      assert pcs[t := p][..m] == pcs[..m];
    } else {
      assert pcs[t := p][..m] == pcs[..m][t := p];
      TotalUpdate(pcs[..m], t, p, index);
    }
  }

  predicate NoneInTransit(pcs: seq<Pc>) {
    forall t :: 0 <= t < |pcs| ==> !pcs[t].FreeStoreNext? && !pcs[t].FreeCas?
  }

  lemma {:induction false} TotalNone(pcs: seq<Pc>, index: int)
    requires NoneInTransit(pcs)
    ensures Total(pcs, index) == 0
  {
    if pcs != [] { TotalNone(pcs[..|pcs| - 1], index); }
  }

  lemma {:induction false} TotalTwo(pcs: seq<Pc>, t: nat, u: nat, index: int)
    requires t < u < |pcs|
    ensures InTransit(pcs[t], index) + InTransit(pcs[u], index) <= Total(pcs, index)
  {
    if u < |pcs| - 1 { TotalTwo(pcs[..|pcs| - 1], t, u, index); }
    else { TotalUpdate(pcs[..|pcs| - 1], t, Idle, index); }
  }

  // ----- The invariant ----------------------------------------------------------------------------

  function Front(list: seq<int>): int {
    if list == [] then NIL else list[0]
  }

  /** Each slot is in exactly one place: with a caller, on the free list, or being freed by one thread. */
  predicate OnePlace(s: State, index: int) {
    (if index in s.owned then 1 else 0) + (if index in s.list then 1 else 0) + Total(s.pcs, index) == 1
  }

  predicate Linked(s: State) {
    && s.head == Pack(Front(s.list), s.changes)
    && (forall i :: 0 <= i < |s.list| ==> 0 <= s.list[i] < |s.nextFree|)
    && (forall i, j :: 0 <= i < j < |s.list| ==> s.list[i] != s.list[j])
    && (forall i :: 0 <= i < |s.list| ==> s.nextFree[s.list[i]] % HALFWORD == Front(s.list[i + 1..]))
  }

  /** What a thread remembers of the head: still exact as long as no change has happened since. */
  predicate SeenInv(s: State, was: int, seen: nat) {
    && seen <= s.changes
    && 0 <= was && TagOf(was) == seen % HALFWORD
    && (IndexOf(was) == NIL || IndexOf(was) < |s.nextFree|)
    && (seen == s.changes ==> was == s.head)
  }

  predicate PcInv(s: State, p: Pc) {
    match p
    case AllocatedNull => false
    case AllocReadNext(was, seen) => SeenInv(s, was, seen)
    case AllocCas(was, nx, seen) =>
      SeenInv(s, was, seen) && IndexOf(was) < |s.nextFree|
      && (seen == s.changes ==> nx == s.nextFree[IndexOf(was)])
    case FreeStoreNext(index, was, seen) => 0 <= index < |s.nextFree| && SeenInv(s, was, seen)
    case FreeCas(index, was, seen) =>
      0 <= index < |s.nextFree| && SeenInv(s, was, seen) && s.nextFree[index] == IndexOf(was)
    case _ => true
  }

  predicate Inv(s: State) {
    && |s.nextFree| <= NIL
    && (forall index :: index in s.owned ==> 0 <= index < |s.nextFree|)
    && (forall index :: 0 <= index < |s.nextFree| ==> OnePlace(s, index))
    && (forall t :: 0 <= t < |s.pcs| ==> PcInv(s, s.pcs[t]))
    && Linked(s)
  }

  /** What the constructor stores, `i - 1` as a word, truncates to the index below or to the empty mark. */
  lemma TruncatedPredecessor(i: int)
    requires 0 <= i <= NIL
    ensures Word(i - 1) % HALFWORD == if i == 0 then NIL else i - 1
  {
  }

  lemma InitLinked(slots: nat, threads: nat)
    requires slots <= NIL
    ensures Linked(Init(slots, threads))
  {
    var s := Init(slots, threads);
    TruncatedPredecessor(slots);
    hide Word;
    assert s.head == Pack(Front(s.list), s.changes);
    hide Pack;
    forall i | 0 <= i < |s.list| ensures s.nextFree[s.list[i]] % HALFWORD == Front(s.list[i + 1..]) {
      assert s.list[i] == slots - 1 - i;
      TruncatedPredecessor(s.list[i]);
    }
  }

  lemma InitInv(slots: nat, threads: nat)
    requires slots <= NIL
    ensures Inv(Init(slots, threads))
  {
    hide Total, Linked;
    var s := Init(slots, threads);
    InitLinked(slots, threads);
    assert NoneInTransit(s.pcs);
    forall index | 0 <= index < slots ensures OnePlace(s, index) {
      TotalNone(s.pcs, index);
      assert s.list[slots - 1 - index] == index;
    }
  }

  // ----- Preservation ------------------------------------------------------------------------------

  lemma HeadSeen(s: State)
    requires Inv(s)
    ensures SeenInv(s, s.head, s.changes)
    ensures IndexOf(s.head) == Front(s.list) && TagOf(s.head) == s.changes % HALFWORD
  {
    PackParts(Front(s.list), s.changes);
  }

  /** Equal head words mean an unchanged head, because the tag has not wrapped. */
  lemma NoAba(s: State, t: nat)
    requires Inv(s) && TagsDoNotWrap(s) && t < |s.pcs| && (s.pcs[t].AllocCas? || s.pcs[t].FreeCas?)
    requires s.pcs[t].was == s.head
    ensures s.pcs[t].seen == s.changes && IndexOf(s.head) == Front(s.list) && TagOf(s.head) == s.changes % HALFWORD
  {
    hide Linked, OnePlace;
    assert PcInv(s, s.pcs[t]);
    HeadSeen(s);
    var seen := s.pcs[t].seen;
    assert seen % HALFWORD == s.changes % HALFWORD;
    if seen != s.changes { ModDistinct(s.changes, seen, HALFWORD); }
  }

  lemma LocalKeeps(s: State, t: nat, p: Pc)
    requires Inv(s) && t < |s.pcs| && PcInv(s, p)
    requires forall index :: InTransit(p, index) == InTransit(s.pcs[t], index)
    ensures Inv(At(s, t, p))
  {
    hide InTransit, Total;
    var s' := At(s, t, p);
    forall u | 0 <= u < |s'.pcs| ensures PcInv(s', s'.pcs[u]) { assert PcInv(s, s.pcs[u]); }
    forall index | 0 <= index < |s.nextFree| ensures OnePlace(s', index) {
      assert OnePlace(s, index);
      TotalUpdate(s.pcs, t, p, index);
    }
  }

  lemma PopKeepsLinks(s: State, s': State)
    requires Linked(s) && s.list != [] && s'.nextFree == s.nextFree && s'.list == s.list[1..]
    requires s'.head == Pack(Front(s'.list), s'.changes)
    ensures Linked(s')
  {
    hide Pack;
    forall i | 0 <= i < |s'.list| ensures s'.nextFree[s'.list[i]] % HALFWORD == Front(s'.list[i + 1..]) {
      assert s'.list[i] == s.list[i + 1];
      assert s.list[1..][i + 1..] == s.list[i + 2..];
    }
  }

  /** The packed word only depends on the index and the tag modulo 2^32. */
  lemma PackSame(index: int, index': int, tag: int)
    requires index % HALFWORD == index' % HALFWORD
    ensures Pack(index, tag % HALFWORD + 1) == Pack(index', tag + 1)
  {
    ModAdd(tag, 1, HALFWORD);
  }

  lemma FrontSmall(s: State, list: seq<int>)
    requires |s.nextFree| <= NIL && forall i :: 0 <= i < |list| ==> 0 <= list[i] < |s.nextFree|
    ensures Front(list) % HALFWORD == Front(list)
  {
  }

  /** Once the head has changed, nobody else's view of it counts as current any more. */
  lemma PcsAfterChange(s: State, s': State, t: nat)
    requires t < |s.pcs| && forall u :: 0 <= u < |s.pcs| ==> PcInv(s, s.pcs[u])
    requires s'.changes == s.changes + 1 && s'.nextFree == s.nextFree
    requires |s'.pcs| == |s.pcs| && s'.pcs == s.pcs[t := s'.pcs[t]] && Finished(s'.pcs[t]) && !s'.pcs[t].AllocatedNull?
    ensures forall u :: 0 <= u < |s'.pcs| ==> PcInv(s', s'.pcs[u])
  {
    hide IndexOf, TagOf;
    forall u | 0 <= u < |s'.pcs| ensures PcInv(s', s'.pcs[u]) { assert PcInv(s, s.pcs[u]); }
  }

  /** A successful allocation installs the true current successor. */
  lemma AllocKeeps(s: State, t: nat)
    requires Inv(s) && TagsDoNotWrap(s) && t < |s.pcs| && s.pcs[t].AllocCas? && s.pcs[t].was == s.head
    ensures Inv(ThreadStep(s, t, false))
    ensures s.list != [] && IndexOf(s.pcs[t].was) == s.list[0]
    ensures IndexOf(ThreadStep(s, t, false).head) == Front(s.list[1..])
  {
    var s' := ThreadStep(s, t, false);
    NextHead(s, t);
    hide Total, Pack, IndexOf, TagOf, PcInv;
    PopKeepsLinks(s, s');
    PcsAfterChange(s, s', t);
    assert forall i, j :: 0 <= i < j < |s.list| ==> s.list[i] != s.list[j];
    hide Linked;
    forall index | 0 <= index < |s.nextFree| ensures OnePlace(s', index) {
      assert OnePlace(s, index);
      TotalUpdate(s.pcs, t, s'.pcs[t], index);
      InTail(s.list, index);
    }
  }

  /** What a successful exchange of the head puts there. */
  lemma NextHead(s: State, t: nat)
    requires Inv(s) && TagsDoNotWrap(s) && t < |s.pcs| && s.pcs[t].AllocCas? && s.pcs[t].was == s.head
    ensures s.list != [] && IndexOf(s.head) == s.list[0]
    ensures var head := ThreadStep(s, t, false).head;
      head == Pack(Front(s.list[1..]), s.changes + 1) && IndexOf(head) == Front(s.list[1..])
  {
    assert PcInv(s, s.pcs[t]);
    NoAba(s, t);
    assert s.nextFree[s.list[0]] % HALFWORD == Front(s.list[1..]);
    FrontSmall(s, s.list[1..]);
    hide Inv, TagsDoNotWrap, OnePlace, Linked;
    PackSame(s.pcs[t].nx, Front(s.list[1..]), s.changes);
    PackParts(s.pcs[t].nx, TagOf(s.head) + 1);
  }

  lemma InTail(list: seq<int>, x: int)
    requires list != [] && forall i, j :: 0 <= i < j < |list| ==> list[i] != list[j]
    ensures x in list[1..] <==> x in list && x != list[0]
  {
    if x in list && x != list[0] {
      var i :| 0 <= i < |list| && list[i] == x;
      assert list[1..][i - 1] == x;
    }
  }

  /** The slot being freed belongs to this thread alone. */
  lemma FreeingIsPrivate(s: State, t: nat)
    requires Inv(s) && t < |s.pcs| && (s.pcs[t].FreeStoreNext? || s.pcs[t].FreeCas?)
    ensures var index := s.pcs[t].index; 0 <= index < |s.nextFree| && index !in s.list && index !in s.owned
    ensures forall u :: 0 <= u < |s.pcs| && u != t && (s.pcs[u].FreeStoreNext? || s.pcs[u].FreeCas?)
              ==> s.pcs[u].index != s.pcs[t].index
  {
    hide Linked, SeenInv;
    var index := s.pcs[t].index;
    assert PcInv(s, s.pcs[t]) && OnePlace(s, index);
    TotalUpdate(s.pcs, t, Idle, index);
    forall u | 0 <= u < |s.pcs| && u != t && (s.pcs[u].FreeStoreNext? || s.pcs[u].FreeCas?)
      ensures s.pcs[u].index != index
    {
      if t < u { TotalTwo(s.pcs, t, u, index); } else { TotalTwo(s.pcs, u, t, index); }
    }
  }

  lemma FreeStoreKeeps(s: State, t: nat)
    requires Inv(s) && t < |s.pcs| && s.pcs[t].FreeStoreNext?
    ensures Inv(ThreadStep(s, t, false))
  {
    hide Total;
    var s' := ThreadStep(s, t, false);
    FreeingIsPrivate(s, t);
    HeadSeen(s);
    var n := s.pcs[t].index;
    assert PcInv(s, s.pcs[t]);
    forall u | 0 <= u < |s'.pcs| ensures PcInv(s', s'.pcs[u]) {
      assert PcInv(s, s.pcs[u]);
      if u != t && s.pcs[u].AllocCas? && s.pcs[u].seen == s.changes {
        assert s.list != [] && IndexOf(s.head) in s.list;
      }
    }
    forall index | 0 <= index < |s.nextFree| ensures OnePlace(s', index) {
      assert OnePlace(s, index);
      TotalUpdate(s.pcs, t, s'.pcs[t], index);
    }
  }

  lemma PushKeepsLinks(s: State, s': State, n: int)
    requires Linked(s) && 0 <= n < |s.nextFree| && n !in s.list && s.nextFree[n] % HALFWORD == Front(s.list)
    requires s'.nextFree == s.nextFree && s'.list == [n] + s.list && s'.head == Pack(n, s'.changes)
    ensures Linked(s')
  {
    hide Pack;
    assert s'.list[1..] == s.list;
    forall i | 0 <= i < |s'.list| ensures s'.nextFree[s'.list[i]] % HALFWORD == Front(s'.list[i + 1..]) {
      if i > 0 {
        assert s'.list[i] == s.list[i - 1];
        assert s'.list[i + 1..] == s.list[i..];
      }
    }
  }

  lemma FreeCasKeeps(s: State, t: nat)
    requires Inv(s) && TagsDoNotWrap(s) && t < |s.pcs| && s.pcs[t].FreeCas? && s.pcs[t].was == s.head
    ensures Inv(ThreadStep(s, t, false))
  {
    hide Total;
    var s' := ThreadStep(s, t, false);
    var p := s.pcs[t];
    assert PcInv(s, p);
    NoAba(s, t);
    FreeingIsPrivate(s, t);
    FrontSmall(s, s.list);
    PackSame(p.index, p.index, s.changes);
    PushKeepsLinks(s, s', p.index);
    PcsAfterChange(s, s', t);
    hide Pack, IndexOf, TagOf, Linked, PcInv;
    forall index | 0 <= index < |s.nextFree| ensures OnePlace(s', index) {
      assert OnePlace(s, index);
      TotalUpdate(s.pcs, t, s'.pcs[t], index);
      assert index in s'.list <==> index in s.list || index == p.index;
    }
  }

  lemma FreeCallKeeps(s: State, t: nat, index: int)
    requires Inv(s) && t < |s.pcs| && Finished(s.pcs[t]) && index in s.owned
    ensures Inv(Step(s, CallDeallocate(t, index)))
  {
    hide Total;
    var s' := Step(s, CallDeallocate(t, index));
    HeadSeen(s);
    forall u | 0 <= u < |s'.pcs| ensures PcInv(s', s'.pcs[u]) { assert PcInv(s, s.pcs[u]); }
    forall i | 0 <= i < |s.nextFree| ensures OnePlace(s', i) {
      assert OnePlace(s, i);
      TotalUpdate(s.pcs, t, s'.pcs[t], i);
    }
  }

  lemma StepInv(s: State, c: Choice)
    requires Inv(s) && TagsDoNotWrap(s)
    ensures Inv(Step(s, c))
  {
    hide OnePlace, Linked;
    if c.t < |s.pcs| {
      assert PcInv(s, s.pcs[c.t]);
      HeadSeen(s);
      ExhaustionTestNeverFires(s);
      match c
      case CallAllocate(t) => if Finished(s.pcs[t]) { LocalKeeps(s, t, AfterLoad(s)); }
      case CallDeallocate(t, index) => if Finished(s.pcs[t]) && index in s.owned { FreeCallKeeps(s, t, index); }
      case CallDeallocateNull(t) => if Finished(s.pcs[t]) { LocalKeeps(s, t, ThrewNull); }
      case Go(t, spurious) =>
        var p := ThreadStep(s, t, spurious).pcs[t];
        match s.pcs[t] {
          case AllocReadNext(_, _) => LocalKeeps(s, t, p);
          case AllocCas(was, _, _) => if !spurious && s.head == was { AllocKeeps(s, t); } else { LocalKeeps(s, t, p); }
          case FreeStoreNext(_, _, _) => FreeStoreKeeps(s, t);
          case FreeCas(_, was, _) => if !spurious && s.head == was { FreeCasKeeps(s, t); } else { LocalKeeps(s, t, p); }
          case _ =>
        }
    }
  }

  // ----- Main results over every schedule -------------------------------------------------------------

  lemma {:induction false} RunInv(slots: nat, threads: nat, schedule: seq<Choice>)
    requires slots <= 0xFFFF_FFFF && TagsNeverWrap(Init(slots, threads), schedule)
    ensures var s := Run(Init(slots, threads), schedule);
      Inv(s) && |s.nextFree| == slots && |s.pcs| == threads
    decreases |schedule|
  {
    if schedule == [] {
      InitInv(slots, threads);
    } else {
      var s := Run(Init(slots, threads), schedule[..|schedule| - 1]);
      RunInv(slots, threads, schedule[..|schedule| - 1]);
      StepInv(s, schedule[|schedule| - 1]);
      StepSizes(s, schedule[|schedule| - 1]);
    }
  }

  lemma StepSizes(s: State, c: Choice)
    ensures |Step(s, c).nextFree| == |s.nextFree| && |Step(s, c).pcs| == |s.pcs|
  {
  }

  /** No double allocation: at every moment each slot is with a caller, on the free list, or being
      freed by exactly one thread; the free list is acyclic and without repetition; no call of
      `allocate` ever returns null. */
  lemma SlotsArePartitioned(slots: nat, threads: nat, schedule: seq<Choice>)
    requires slots <= 0xFFFF_FFFF && TagsNeverWrap(Init(slots, threads), schedule)
    ensures var s := Run(Init(slots, threads), schedule);
      && (forall index :: 0 <= index < slots ==> OnePlace(s, index))
      && (forall i, j :: 0 <= i < j < |s.list| ==> s.list[i] != s.list[j])
      && (forall t :: 0 <= t < |s.pcs| ==> !s.pcs[t].AllocatedNull?)
  {
    RunInv(slots, threads, schedule);
    var s := Run(Init(slots, threads), schedule);
    forall t | 0 <= t < |s.pcs| ensures !s.pcs[t].AllocatedNull? { assert PcInv(s, s.pcs[t]); }
  }

  /** Whatever step is taken next, a slot handed out was free, and the new head is its successor. */
  lemma HandsOutTheFirstFreeSlot(slots: nat, threads: nat, schedule: seq<Choice>, c: Choice)
    requires slots <= 0xFFFF_FFFF && TagsNeverWrap(Init(slots, threads), schedule + [c])
    ensures var s := Run(Init(slots, threads), schedule);
      var s' := Run(Init(slots, threads), schedule + [c]);
      && s' == Step(s, c)
      && (forall index :: index in s'.owned && index !in s.owned ==>
            s.list != [] && index == s.list[0] && s'.list == s.list[1..] && IndexOf(s'.head) == Front(s.list[1..]))
  {
    assert (schedule + [c])[..|schedule + [c]| - 1] == schedule;
    RunInv(slots, threads, schedule);
    var s := Run(Init(slots, threads), schedule);
    if c.Go? && c.t < |s.pcs| && s.pcs[c.t].AllocCas? && !c.spurious && s.head == s.pcs[c.t].was {
      AllocKeeps(s, c.t);
    }
  }

  // ----- Exhaustion ---------------------------------------------------------------------------------

  /** How many steps the schedule had made when thread `t` last changed the state. For a thread that is
      about to read `nextFree` that step was its latest load of the head, by a call or by a retry. */
  function LatestLoad(s: State, schedule: seq<Choice>, t: nat): (k: nat)
    ensures schedule != [] ==> k < |schedule|
    decreases |schedule|
  {
    if schedule == [] then 0
    else
      var n := |schedule| - 1;
      if schedule[n].t == t && Run(s, schedule) != Run(s, schedule[..n]) then n else LatestLoad(s, schedule[..n], t)
  }

  /** A load sees the empty mark exactly when the list is empty then. */
  lemma {:induction false} LoadSawList(slots: nat, threads: nat, schedule: seq<Choice>, t: nat)
    requires slots <= 0xFFFF_FFFF && TagsNeverWrap(Init(slots, threads), schedule)
    requires t < threads
    ensures var s := Run(Init(slots, threads), schedule);
      t < |s.pcs| && (s.pcs[t].AllocReadNext? ==>
        var k := LatestLoad(Init(slots, threads), schedule, t);
        && k < |schedule|
        && (IndexOf(s.pcs[t].was) >= |s.nextFree| <==> Run(Init(slots, threads), schedule[..k]).list == []))
    decreases |schedule|
  {
    RunInv(slots, threads, schedule);
    if schedule != [] {
      var n := |schedule| - 1;
      var before := Run(Init(slots, threads), schedule[..n]);
      LoadSawList(slots, threads, schedule[..n], t);
      RunInv(slots, threads, schedule[..n]);
      StepSizes(before, schedule[n]);
      if schedule[n].t == t && Run(Init(slots, threads), schedule) != before {
        LoadStep(before, schedule[n]);
      } else {
        OthersStep(before, schedule[n], t);
        var k := LatestLoad(Init(slots, threads), schedule[..n], t);
        assert k < n ==> schedule[..n][..k] == schedule[..k];
      }
    }
  }

  lemma LoadStep(s: State, c: Choice)
    requires Inv(s) && c.t < |s.pcs| && Step(s, c) != s
    ensures Step(s, c).pcs[c.t].AllocReadNext? ==>
      (IndexOf(Step(s, c).pcs[c.t].was) >= |s.nextFree| <==> s.list == [])
  {
    HeadSeen(s);
    ExhaustionTestNeverFires(s);
  }

  lemma OthersStep(s: State, c: Choice, t: nat)
    requires t < |s.pcs| && (c.t != t || Step(s, c) == s)
    ensures t < |Step(s, c).pcs| && Step(s, c).pcs[t] == s.pcs[t]
  {
  }

  /** Because the test for exhaustion never fires, a thread comes to read past the index array exactly
      when the free list was empty at its latest load of the head, at the call or at any retry. */
  lemma ReadsPastTheArrayIffEmpty(slots: nat, threads: nat, schedule: seq<Choice>, t: nat, c: Choice)
    requires slots <= 0xFFFF_FFFF && TagsNeverWrap(Init(slots, threads), schedule)
    requires t < threads
    ensures var s := Run(Init(slots, threads), schedule);
      var k := LatestLoad(Init(slots, threads), schedule, t);
      && t < |s.pcs| && t < |Step(s, c).pcs| && k <= |schedule|
      && (!s.pcs[t].OutOfBoundsRead? && Step(s, c).pcs[t].OutOfBoundsRead? <==>
            s.pcs[t].AllocReadNext? && c.Go? && c.t == t && Run(Init(slots, threads), schedule[..k]).list == [])
  {
    RunInv(slots, threads, schedule);
    var s := Run(Init(slots, threads), schedule);
    LoadSawList(slots, threads, schedule, t);
    ExhaustionTestNeverFires(s);
    StepSizes(s, c);
    if c.t != t { OthersStep(s, c, t); }
  }

  predicate Allocating(p: Pc) {
    p.AllocReadNext? || p.AllocCas?
  }

  /** The threads inside `allocate`. */
  function Allocators(pcs: seq<Pc>): nat {
    if pcs == [] then 0 else Allocators(pcs[..|pcs| - 1]) + if Allocating(pcs[|pcs| - 1]) then 1 else 0
  }

  lemma {:induction false} AllocatorsUpdate(pcs: seq<Pc>, t: nat, p: Pc)
    requires t < |pcs|
    ensures Allocators(pcs[t := p]) ==
      Allocators(pcs) - (if Allocating(pcs[t]) then 1 else 0) + (if Allocating(p) then 1 else 0)
    ensures Allocating(pcs[t]) ==> Allocators(pcs) > 0
  {
    var k := |pcs| - 1;
    if t < k {
      AllocatorsUpdate(pcs[..k], t, p);
      assert pcs[t := p][..k] == pcs[..k][t := p];
    } else {
      assert pcs[t := p][..k] == pcs[..k];
    }
  }

  lemma {:induction false} SomeAllocator(pcs: seq<Pc>) returns (t: nat)
    requires Allocators(pcs) > 0
    ensures t < |pcs| && Allocating(pcs[t])
  {
    t := |pcs| - 1;
    if !Allocating(pcs[t]) { t := SomeAllocator(pcs[..t]); }
  }

  /** What a caller can look at before calling: more free slots than threads inside `allocate`. */
  predicate Guarded(s: State, c: Choice) {
    c.CallAllocate? && c.t < |s.pcs| && Finished(s.pcs[c.t]) ==> Allocators(s.pcs) < |s.list|
  }

  predicate GuardedRun(s: State, schedule: seq<Choice>)
    decreases |schedule|
  {
    schedule == []
    || (&& GuardedRun(s, schedule[..|schedule| - 1])
        && Guarded(Run(s, schedule[..|schedule| - 1]), schedule[|schedule| - 1]))
  }

  /** There is a free slot for every thread inside `allocate`, and none has read past the array. */
  predicate Reserved(s: State) {
    && Allocators(s.pcs) <= |s.list|
    && (forall t :: 0 <= t < |s.pcs| ==> !s.pcs[t].OutOfBoundsRead?)
    && (forall t :: 0 <= t < |s.pcs| && s.pcs[t].AllocReadNext? ==> IndexOf(s.pcs[t].was) < |s.nextFree|)
  }

  lemma StepKeepsReserved(s: State, c: Choice)
    requires Inv(s) && TagsDoNotWrap(s) && Reserved(s) && Guarded(s, c)
    ensures Reserved(Step(s, c))
  {
    if c.t < |s.pcs| && Step(s, c) != s {
      var s' := Step(s, c);
      HeadSeen(s);
      ExhaustionTestNeverFires(s);
      AllocatorsUpdate(s.pcs, c.t, s'.pcs[c.t]);
      if s.pcs[c.t].AllocCas? && s'.pcs[c.t].Allocated? { AllocKeeps(s, c.t); }
      FrontInArray(s);
      hide Allocators, OnePlace, Linked;
      assert s'.pcs == s.pcs[c.t := s'.pcs[c.t]];
    }
  }

  lemma FrontInArray(s: State)
    requires Inv(s)
    ensures s.list != [] ==> IndexOf(s.head) < |s.nextFree|
  {
    HeadSeen(s);
  }

  /** Guarded calls never read past the array, on any schedule and with any number of retries. */
  lemma {:induction false} GuardedCallsStayInside(slots: nat, threads: nat, schedule: seq<Choice>)
    requires slots <= 0xFFFF_FFFF && TagsNeverWrap(Init(slots, threads), schedule)
    requires GuardedRun(Init(slots, threads), schedule)
    ensures Reserved(Run(Init(slots, threads), schedule))
    decreases |schedule|
  {
    if schedule == [] {
      NoAllocators(Init(slots, threads).pcs);
    } else {
      var n := |schedule| - 1;
      GuardedCallsStayInside(slots, threads, schedule[..n]);
      RunInv(slots, threads, schedule[..n]);
      StepKeepsReserved(Run(Init(slots, threads), schedule[..n]), schedule[n]);
    }
  }

  lemma {:induction false} NoAllocators(pcs: seq<Pc>)
    requires forall t :: 0 <= t < |pcs| ==> !Allocating(pcs[t])
    ensures Allocators(pcs) == 0
  {
    if pcs != [] { NoAllocators(pcs[..|pcs| - 1]); }
  }

  lemma {:induction false} RunAppend(s: State, a: seq<Choice>, b: seq<Choice>)
    ensures Run(s, a + b) == Run(Run(s, a), b)
    decreases |b|
  {
    if b == [] {
      assert a + b == a;
    } else {
      RunAppend(s, a, b[..|b| - 1]);
      assert (a + b)[..|a + b| - 1] == a + b[..|b| - 1];
    }
  }

  lemma RunOne(s: State, c: Choice)
    ensures Run(s, [c]) == Step(s, c)
  {
    assert [c][..0] == [];
    assert Run(s, []) == s;
  }

  predicate OnlyGo(schedule: seq<Choice>) {
    forall i :: 0 <= i < |schedule| ==> schedule[i].Go?
  }

  /** A thread inside `allocate` on a linked free list. */
  predicate Drivable(s: State, t: nat) {
    Linked(s) && |s.nextFree| <= NIL && t < |s.pcs| && Allocating(s.pcs[t])
  }

  lemma HeadIsFront(s: State)
    requires Linked(s) && |s.nextFree| <= NIL
    ensures IndexOf(s.head) == Front(s.list) && (IndexOf(s.head) >= |s.nextFree| <==> s.list == [])
  {
    PackParts(Front(s.list), s.changes);
  }

  lemma PopLinked(s: State, s': State)
    requires Linked(s) && |s.nextFree| <= NIL && s.list != [] && s'.nextFree == s.nextFree && s'.list == s.list[1..]
    requires s'.changes == s.changes + 1 && s'.head == Pack(s.nextFree[s.list[0]], TagOf(s.head) + 1)
    ensures Linked(s')
  {
    PackParts(Front(s.list), s.changes);
    FrontSmall(s, s.list[1..]);
    assert s.nextFree[s.list[0]] % HALFWORD == Front(s.list[1..]);
    PackSame(s.nextFree[s.list[0]], Front(s.list[1..]), s.changes);
    PopKeepsLinks(s, s');
  }

  /** Any thread inside `allocate` gets to its exchange, or past the array. */
  lemma DriveToExchange(s: State, t: nat) returns (rest: seq<Choice>)
    requires Drivable(s, t)
    ensures OnlyGo(rest)
    ensures var s' := Run(s, rest);
      t < |s'.pcs| && (s'.pcs[t].OutOfBoundsRead? || (s'.pcs[t].AllocCas? && s' == At(s, t, s'.pcs[t])))
  {
    if s.pcs[t].AllocCas? {
      rest := [];
      assert s.pcs[t := s.pcs[t]] == s.pcs;
    } else {
      rest := [Go(t, false)];
      RunOne(s, Go(t, false));
    }
  }

  /** From the exchange on: it fails, the head is loaded again and the successor read. */
  lemma Retry(s: State, t: nat)
    requires Drivable(s, t) && s.pcs[t].AllocCas?
    ensures var s' := Step(Step(s, Go(t, true)), Go(t, false));
      t < |s'.pcs| && if s.list == [] then s'.pcs[t].OutOfBoundsRead?
      else 0 <= s.list[0] < |s.nextFree| && s' == At(s, t, AllocCas(s.head, s.nextFree[s.list[0]], s.changes))
  {
    HeadIsFront(s);
    ExhaustionTestNeverFires(s);
    var p := AllocReadNext(s.head, s.changes);
    assert Step(s, Go(t, true)) == At(s, t, p);
    assert s.list != [] ==> 0 <= s.list[0] < |s.nextFree|;
    hide Linked, Pack, IndexOf;
    if s.list != [] {
      var q := AllocCas(s.head, s.nextFree[s.list[0]], s.changes);
      assert s.pcs[t := p][t := q] == s.pcs[t := q];
    }
  }

  /** An exchange against the head just loaded succeeds and takes the first free slot. */
  lemma Exchange(s: State, t: nat)
    requires Drivable(s, t) && s.list != []
    ensures 0 <= s.list[0] < |s.nextFree|
    ensures s.pcs[t] == AllocCas(s.head, s.nextFree[s.list[0]], s.changes) ==>
      var s' := Step(s, Go(t, false));
      && Linked(s') && s'.nextFree == s.nextFree && s'.list == s.list[1..]
      && t < |s'.pcs| && s'.pcs == s.pcs[t := s'.pcs[t]] && s'.pcs[t].Allocated?
  {
    if s.pcs[t] == AllocCas(s.head, s.nextFree[s.list[0]], s.changes) {
      PopLinked(s, Step(s, Go(t, false)));
    }
  }

  /** Alone, a thread inside `allocate` takes the first free slot, or reads past the array if there is none. */
  lemma DriveThrough(s: State, t: nat) returns (rest: seq<Choice>)
    requires Drivable(s, t)
    ensures OnlyGo(rest)
    ensures var s' := Run(s, rest);
      && t < |s'.pcs|
      && (s'.pcs[t].OutOfBoundsRead? ||
          (s.list != [] && Linked(s') && s'.nextFree == s.nextFree && s'.list == s.list[1..] &&
           s'.pcs == s.pcs[t := s'.pcs[t]] && s'.pcs[t].Allocated?))
  {
    hide Linked, Pack, IndexOf, TagOf;
    rest := DriveToExchange(s, t);
    var s1 := Run(s, rest);
    if !s1.pcs[t].OutOfBoundsRead? {
      LinkedHere(s, t, s1.pcs[t]);
      Retry(s1, t);
      var s2 := Step(Step(s1, Go(t, true)), Go(t, false));
      RunTwoMore(s, rest, Go(t, true), Go(t, false));
      rest := rest + [Go(t, true)] + [Go(t, false)];
      hide Run;
      if s.list != [] {
        LinkedHere(s1, t, s2.pcs[t]);
        Exchange(s2, t);
        RunAppend(s, rest, [Go(t, false)]);
        RunOne(s2, Go(t, false));
        rest := rest + [Go(t, false)];
        var p, q := s2.pcs[t], Step(s2, Go(t, false)).pcs[t];
        assert s.pcs[t := s1.pcs[t]][t := p][t := q] == s.pcs[t := q];
      }
    }
  }

  lemma LinkedHere(s: State, t: nat, p: Pc)
    requires Linked(s) && t < |s.pcs|
    ensures Linked(At(s, t, p))
  {
  }

  lemma RunTwoMore(s: State, before: seq<Choice>, a: Choice, b: Choice)
    ensures Run(s, before + [a] + [b]) == Step(Step(Run(s, before), a), b)
  {
    RunAppend(s, before, [a]);
    RunAppend(s, before + [a], [b]);
    RunOne(Run(s, before), a);
    RunOne(Step(Run(s, before), a), b);
  }

  /** The guard is not too strict: with more threads inside `allocate` than free slots, the threads that
      are there need only go on for one of them to read past the array. */
  lemma {:induction false} ShortageOverruns(s: State) returns (rest: seq<Choice>)
    requires Linked(s) && |s.nextFree| <= NIL && Allocators(s.pcs) > |s.list|
    ensures OnlyGo(rest)
    ensures exists t :: 0 <= t < |Run(s, rest).pcs| && Run(s, rest).pcs[t].OutOfBoundsRead?
    decreases |s.list|
  {
    var t := SomeAllocator(s.pcs);
    rest := DriveThrough(s, t);
    var s' := Run(s, rest);
    if !s'.pcs[t].OutOfBoundsRead? {
      AllocatorsUpdate(s.pcs, t, s'.pcs[t]);
      var more := ShortageOverruns(s');
      RunAppend(s, rest, more);
      rest := rest + more;
    }
  }

  /** So a call made without a free slot to spare can go wrong, whatever happened before. */
  lemma UnguardedCallCanOverrun(slots: nat, threads: nat, schedule: seq<Choice>, t: nat) returns (rest: seq<Choice>)
    requires slots <= 0xFFFF_FFFF && TagsNeverWrap(Init(slots, threads), schedule)
    requires t < |Run(Init(slots, threads), schedule).pcs|
    requires !Guarded(Run(Init(slots, threads), schedule), CallAllocate(t))
    ensures OnlyGo(rest)
    ensures var s := Run(Init(slots, threads), schedule + [CallAllocate(t)] + rest);
      exists u :: 0 <= u < |s.pcs| && s.pcs[u].OutOfBoundsRead?
  {
    RunInv(slots, threads, schedule);
    var s := Run(Init(slots, threads), schedule);
    ExhaustionTestNeverFires(s);
    AllocatorsUpdate(s.pcs, t, AfterLoad(s));
    rest := ShortageOverruns(Step(s, CallAllocate(t)));
    RunOne(s, CallAllocate(t));
    RunAppend(Init(slots, threads), schedule, [CallAllocate(t)]);
    RunAppend(Init(slots, threads), schedule + [CallAllocate(t)], rest);
  }

  /** A free slot at the call is not enough: two threads ask for the only slot, and the one that asked
      first retries on an empty list. */
  lemma RetryOverrunsWithASlotAtTheCall()
    ensures var s := Init(1, 2);
      var schedule := [CallAllocate(0), Go(0, false), CallAllocate(1),
                       Go(1, false), Go(1, false), Go(0, false), Go(0, false)];
      s.list == [0] && Run(s, schedule).pcs == [OutOfBoundsRead, Allocated(0)]
  {
    var s := Init(1, 2);
    assert Countdown(1) == [0] by { assert Countdown(0) == []; }
    var empty := Pack(WORD - 1, 1);
    assert s == State(0, [WORD - 1], [Idle, Idle], {}, [0], 0);
    assert IndexOf(empty) == NIL && empty != 0 && IndexOf(0) == 0 && TagOf(0) == 0;
    var c1, c2, c3, c4 := CallAllocate(0), Go(0, false), CallAllocate(1), Go(1, false);
    var p := AllocCas(0, WORD - 1, 0);
    RunTwoMore(s, [], c1, c2);
    assert [] + [c1] + [c2] == [c1, c2];
    assert Run(s, [c1, c2]) == State(0, [WORD - 1], [p, Idle], {}, [0], 0);
    RunTwoMore(s, [c1, c2], c3, c4);
    assert [c1, c2] + [c3] + [c4] == [c1, c2, c3, c4];
    assert Run(s, [c1, c2, c3, c4]) == State(0, [WORD - 1], [p, p], {}, [0], 0);
    RunTwoMore(s, [c1, c2, c3, c4], c4, c2);
    assert [c1, c2, c3, c4] + [c4] + [c2] == [c1, c2, c3, c4, c4, c2];
    assert Run(s, [c1, c2, c3, c4, c4, c2]) ==
      State(empty, [WORD - 1], [AllocReadNext(empty, 1), Allocated(0)], {0}, [], 1);
    RunAppend(s, [c1, c2, c3, c4, c4, c2], [c2]);
    RunOne(Run(s, [c1, c2, c3, c4, c4, c2]), c2);
    assert [c1, c2, c3, c4, c4, c2] + [c2] == [c1, c2, c3, c4, c4, c2, c2];
  }

  // ----- How calls end ----------------------------------------------------------------------------

  predicate Freeing(p: Pc) {
    p.FreeStoreNext? || p.FreeCas?
  }

  /** Over every schedule: a step takes a thread out of `allocate` only with the first free slot, which it
      removes, or past the array; and out of `deallocate` only by putting its slot in front. Deallocating
      null throws and changes nothing. */
  lemma CallsEndOnly(slots: nat, threads: nat, schedule: seq<Choice>, t: nat, c: Choice)
    requires slots <= 0xFFFF_FFFF && TagsNeverWrap(Init(slots, threads), schedule + [c])
    requires t < threads
    ensures var s, s' := Run(Init(slots, threads), schedule), Run(Init(slots, threads), schedule + [c]);
      && |s.pcs| == |s'.pcs| == threads
      && (Allocating(s.pcs[t]) && !Allocating(s'.pcs[t]) && !s'.pcs[t].OutOfBoundsRead? ==>
            && s.list != [] && s'.pcs[t] == Allocated(s.list[0])
            && s'.list == s.list[1..] && s'.owned == s.owned + {s.list[0]})
      && (Freeing(s.pcs[t]) && !Freeing(s'.pcs[t]) ==>
            s'.pcs[t] == Freed && s'.list == [s.pcs[t].index] + s.list && s'.owned == s.owned)
      && (c == CallDeallocateNull(t) && Finished(s.pcs[t]) ==> s' == s.(pcs := s.pcs[t := ThrewNull]))
  {
    assert (schedule + [c])[..|schedule + [c]| - 1] == schedule;
    RunInv(slots, threads, schedule);
    StepEnds(Run(Init(slots, threads), schedule), t, c);
  }

  lemma StepEnds(s: State, t: nat, c: Choice)
    requires Inv(s) && TagsDoNotWrap(s) && t < |s.pcs|
    ensures var s' := Step(s, c);
      && |s.pcs| == |s'.pcs|
      && (Allocating(s.pcs[t]) && !Allocating(s'.pcs[t]) && !s'.pcs[t].OutOfBoundsRead? ==>
            && s.list != [] && s'.pcs[t] == Allocated(s.list[0])
            && s'.list == s.list[1..] && s'.owned == s.owned + {s.list[0]})
      && (Freeing(s.pcs[t]) && !Freeing(s'.pcs[t]) ==>
            s'.pcs[t] == Freed && s'.list == [s.pcs[t].index] + s.list && s'.owned == s.owned)
  {
    ExhaustionTestNeverFires(s);
    if c == Go(t, false) && s.pcs[t].AllocCas? && s.head == s.pcs[t].was {
      assert PcInv(s, s.pcs[t]);
      NoAba(s, t);
    }
    hide Inv, TagsDoNotWrap;
  }

  /** A bound on the steps a thread still needs if the others stand still. */
  function StepsLeft(s: State, p: Pc): nat {
    match p
    case AllocReadNext(was, _) => if was == s.head then 2 else 4
    case AllocCas(was, _, _) => if was == s.head then 1 else 3
    case FreeStoreNext(_, was, _) => if was == s.head then 2 else 4
    case FreeCas(_, was, _) => if was == s.head then 1 else 3
    case _ => 0
  }

  /** From any reachable state every call ends after at most four steps if it is left alone. */
  lemma AloneEnds(slots: nat, threads: nat, schedule: seq<Choice>, t: nat)
    requires slots <= 0xFFFF_FFFF && TagsNeverWrap(Init(slots, threads), schedule) && t < threads
    ensures var s := Alone(Run(Init(slots, threads), schedule), t, 4);
      t < |s.pcs| && !Allocating(s.pcs[t]) && !Freeing(s.pcs[t])
  {
    RunInv(slots, threads, schedule);
    var s := Run(Init(slots, threads), schedule);
    assert PcInv(s, s.pcs[t]);
    hide Run, Init, Step, Inv;
    StaysWithin(s, t, 4, 4);
  }

  function Alone(s: State, t: nat, k: nat): State {
    if k == 0 then s else Step(Alone(s, t, k - 1), Go(t, false))
  }

  /** Thread `t` ends within `k` steps of its own. */
  predicate Within(s: State, t: nat, k: nat) {
    t < |s.pcs| && StepsLeft(s, s.pcs[t]) <= k && (Freeing(s.pcs[t]) ==> 0 <= s.pcs[t].index < |s.nextFree|)
  }

  lemma {:induction false} StaysWithin(s: State, t: nat, left: nat, k: nat)
    requires Within(s, t, left) && k <= left
    ensures Within(Alone(s, t, k), t, left - k)
  {
    hide Within, Step;
    if k > 0 {
      StaysWithin(s, t, left, k - 1);
      OneStepLess(Alone(s, t, k - 1), t, left - k);
    }
  }

  lemma OneStepLess(s: State, t: nat, left: nat)
    requires Within(s, t, left + 1)
    ensures Within(Step(s, Go(t, false)), t, left)
  {
  }

  /** Without interference, `deallocate` puts the slot in front and the next `allocate` gives it back,
      leaving the free list as it was. */
  lemma FreeThenAllocateRoundTrip(s: State, t: nat, index: int)
    requires Inv(s) && t < |s.pcs| && Finished(s.pcs[t]) && index in s.owned
    ensures var go := Go(t, false);
      var freed := Step(Step(Step(s, CallDeallocate(t, index)), go), go);
      && freed.list == [index] + s.list && freed.owned == s.owned - {index} && freed.pcs[t] == Freed
      && var back := Step(Step(Step(freed, CallAllocate(t)), go), go);
         back.list == s.list && back.owned == s.owned && back.pcs[t] == Allocated(index)
  {
    hide Linked, OnePlace;
    HeadSeen(s);
    var go := Go(t, false);
    var s1 := Step(s, CallDeallocate(t, index));
    assert s1.pcs[t] == FreeStoreNext(index, s.head, s.changes);
    var s2 := Step(s1, go);
    assert s2.pcs[t] == FreeCas(index, s.head, s.changes);
    var freed := Step(s2, go);
    PackParts(index, TagOf(s.head) + 1);
    assert IndexOf(freed.head) == index;
    ExhaustionTestNeverFires(freed);
    hide Inv;
    var s4 := Step(freed, CallAllocate(t));
    assert s4.pcs[t] == AllocReadNext(freed.head, freed.changes);
    var s5 := Step(s4, go);
    assert s5.pcs[t].AllocCas?;
    var back := Step(s5, go);
    assert back.owned == s.owned;
  }
}
