/** The feed's gap recovery: the message store and snapshot server on one side, the sequencer with
    its recovery manager on the other. Sockets are channels: the multicast side is any sequence of
    stored messages, the recovery side delivers the server's reply in order. */
module Sequencer {
  import opened Words

  datatype Option<T> = None | Some(value: T)

  datatype Msg = Msg(seqno: nat, body: int)

  const INT_MAX: int := 0x7FFF_FFFF

  /** A store numbers its messages from zero. */
  predicate Numbered(store: seq<Msg>) {
    forall i :: 0 <= i < |store| ==> store[i].seqno == i
  }

  /** Conversion of a 64-bit sequence number to the loop counter's type `int`. */
  function ToInt(x: nat): int {
    var r := x % 0x1_0000_0000;
    if r <= INT_MAX then r else r - 0x1_0000_0000
  }

  class TradeMsgStore {
    var vec: seq<Msg>

    ghost predicate Valid()
      reads this
    {
      Numbered(vec)
    }

    constructor ()
      ensures Valid() && vec == []
    {
      vec := [];
    }

    /** One parsed line. */
    method ParseTrade(body: int)
      requires Valid()
      modifies this
      ensures Valid() && vec == old(vec) + [Msg(|old(vec)|, body)]
    {
      vec := vec + [Msg(|vec|, body)];
    }

    function Get(index: nat): (r: Option<Msg>)
      requires Numbered(vec)
      reads this
      ensures r.Some? <==> index < |vec|
      ensures r.Some? ==> r.value == vec[index] && r.value.seqno == index
    {
      if index >= |vec| then None else Some(vec[index])
    }
  }

  lemma ToIntExact(x: nat)
    requires x < 0x1_0000_0000
    ensures ToInt(x) == if x <= INT_MAX then x else x - 0x1_0000_0000
  {
  }

  lemma WordOfInt(i: int)
    requires -INT_MAX - 1 <= i <= INT_MAX
    ensures Word(i) == if i >= 0 then i else i + WORD
  {
  }

  /** The stored messages from `lo` up to but not including `hi`. */
  function Clip(vec: seq<Msg>, lo: nat, hi: nat): (slice: seq<Msg>) {
    var top := if hi < |vec| then hi else |vec|;
    if lo < top then vec[lo..top] else []
  }

  /** The counter runs past the largest `int`: from a non-negative start to an end it cannot pass, or from
      a negative one to the largest word. */
  predicate CounterOverflows(start: nat, end: nat) {
    if ToInt(start) >= 0 then ToInt(start) <= end && INT_MAX <= end else end == WORD - 1
  }

  /** What the counter finds if it does not overflow: a negative one is compared as a huge word, and
      nothing is stored there. */
  function Served(vec: seq<Msg>, start: nat, end: nat): seq<Msg> {
    if ToInt(start) >= 0 then Clip(vec, ToInt(start), end + 1) else []
  }

  /** The snapshot server's reply to a gap request, which counts with an `int`. The last clause says when a
      sensible request is answered: exactly when its end is below the largest `int`. */
  method ServeGapRequest(store: TradeMsgStore, start: nat, end: nat) returns (reply: seq<Msg>, overflowed: bool)
    requires store.Valid() && start < WORD && end < WORD && |store.vec| <= HALF
    ensures overflowed <==> CounterOverflows(start, end)
    ensures !overflowed ==> reply == Served(store.vec, start, end)
    ensures start <= end < |store.vec| ==> (reply == store.vec[start..end + 1] && !overflowed <==> end < INT_MAX)
  {
    reply := [];
    overflowed := false;
    var i := ToInt(start);
    ghost var first := i;
    if start <= end < |store.vec| { ServedIff(store.vec, start, end); }
    ToIntRange(start);
    if first >= 0 { ClipStep(store.vec, first, first); }
    hide ToInt, Word, Clip;
    WordOfInt(i);
    while Word(i) <= end
      invariant first <= i <= INT_MAX && Word(i) == if i >= 0 then i else i + WORD
      invariant first >= 0 && first <= end ==> i <= end + 1
      invariant first >= 0 && first > end ==> i == first
      invariant first < 0 ==> if i < 0 then reply == [] else end == WORD - 1
      invariant first >= 0 ==> reply == Clip(store.vec, first, i)
      decreases INT_MAX - i
    {
      if first >= 0 { ClipStep(store.vec, first, i); }
      var m := store.Get(Word(i));
      if m.Some? {
        reply := reply + [m.value];
      }
      if i == INT_MAX {
        overflowed := true;
        return;
      }
      i := i + 1;
      WordOfInt(i);
    }
  }

  lemma ClipStep(vec: seq<Msg>, lo: nat, i: nat)
    requires lo <= i
    ensures Clip(vec, lo, lo) == [] && Clip(vec, lo, i + 1) == Clip(vec, lo, i) + if i < |vec| then [vec[i]] else []
  {
  }

  lemma ToIntRange(x: nat)
    ensures -INT_MAX - 1 <= ToInt(x) <= INT_MAX && ToInt(x) <= x
  {
  }

  /** Only a request that stays below the largest `int` is served its slice. */
  lemma ServedIff(vec: seq<Msg>, start: nat, end: nat)
    requires start <= end < |vec| <= HALF
    ensures Served(vec, start, end) == vec[start..end + 1] && !CounterOverflows(start, end) <==> end < 0x7FFF_FFFF
  {
    ToIntRange(start);
    if start <= INT_MAX { ToIntExact(start); }
  }

  // ----- The sequencer on values --------------------------------------------------------------

  /** `nextSequence_` and everything offered to the send queue so far. */
  datatype Stream = Stream(next: nat, sent: seq<Msg>)

  /** What one wait on the recovery socket yields. */
  datatype Event = Timeout | Message(m: Msg) | Partial | Closed | Failed

  /** How `receiveRecoveryMessages` ends: all messages, an early break, the exception for a
      wrong sequence number, or still waiting when no more events are given. */
  datatype Outcome = Completed | Broken | Threw | Waiting

  function Offer(s: Stream, m: Msg): Stream {
    Stream(s.next + 1, s.sent + [m])
  }

  function Receive(s: Stream, events: seq<Event>, missing: nat): (Outcome, Stream)
    decreases |events|
  {
    if missing == 0 then (Completed, s)
    else if events == [] then (Waiting, s)
    else
      match events[0]
      case Timeout => Receive(s, events[1..], missing)
      case Partial => Receive(s, events[1..], missing)
      case Closed => (Broken, s)
      case Failed => (Broken, s)
      case Message(m) =>
        if m.seqno != s.next then (Threw, s) else Receive(Offer(s, m), events[1..], missing - 1)
  }

  /** One message taken from the receive queue; `events` is what the recovery socket yields if needed. */
  function Handle(s: Stream, m: Msg, events: seq<Event>): (Outcome, Stream) {
    if m.seqno > s.next then
      var (outcome, s') := Receive(s, events, m.seqno - s.next);
      if outcome == Completed || outcome == Broken then (outcome, Offer(s', m)) else (outcome, s')
    else if m.seqno < s.next then (Completed, s)
    else (Completed, Offer(s, m))
  }

  /** The server's reply with `delays[i]` timeouts before message i. */
  function Delayed(reply: seq<Msg>, delays: seq<nat>): seq<Event> {
    if reply == [] then []
    else
      Timeouts(if delays == [] then 0 else delays[0]) + [Message(reply[0])]
      + Delayed(reply[1..], if delays == [] then [] else delays[1..])
  }

  function Timeouts(n: nat): (events: seq<Event>)
    ensures |events| == n && forall i :: 0 <= i < n ==> events[i] == Timeout
  {
    if n == 0 then [] else [Timeout] + Timeouts(n - 1)
  }

  function Reply(store: seq<Msg>, start: nat, end: nat): seq<Msg> {
    if start <= end < |store| then store[start..end + 1] else []
  }

  /** One message handled against a live snapshot server. */
  function Round(store: seq<Msg>, s: Stream, m: Msg, delays: seq<nat>): (Outcome, Stream) {
    Handle(s, m, if m.seqno > s.next then Delayed(Reply(store, s.next, m.seqno - 1), delays) else [])
  }

  /** The receive loop over a finite part of the queue; `None` is an empty queue. The network chooses
      the timeouts of each recovery. */
  function RunOn(store: seq<Msg>, s: Stream, queue: seq<Option<Msg>>, delays: seq<seq<nat>>): (Outcome, Stream)
    requires |delays| == |queue|
    decreases |queue|
  {
    if queue == [] then (Completed, s)
    else if queue[0] == None then RunOn(store, s, queue[1..], delays[1..])
    else
      var (outcome, s') := Round(store, s, queue[0].value, delays[0]);
      if outcome == Completed || outcome == Broken then RunOn(store, s', queue[1..], delays[1..]) else (outcome, s')
  }

  /** The stream offered so far is the store up to the next expected number. */
  predicate GapFree(store: seq<Msg>, s: Stream) {
    s.next <= |store| && s.sent == store[..s.next]
  }

  /** The multicast side delivers stored messages, in any order, any number of times, or not at all. */
  predicate FromStore(store: seq<Msg>, queue: seq<Option<Msg>>) {
    forall i :: 0 <= i < |queue| && queue[i].Some? ==>
      queue[i].value.seqno < |store| && queue[i].value == store[queue[i].value.seqno]
  }

  /** One past the largest delivered number, or where the stream already was. */
  function Frontier(next: nat, queue: seq<Option<Msg>>): (f: nat)
    ensures next <= f
    ensures forall i :: 0 <= i < |queue| && queue[i].Some? ==> queue[i].value.seqno < f
    ensures f == next || exists i :: 0 <= i < |queue| && queue[i].Some? && f == queue[i].value.seqno + 1
    decreases |queue|
  {
    if queue == [] then next
    else
      var here := if queue[0].Some? && queue[0].value.seqno >= next then queue[0].value.seqno + 1 else next;
      var f := Frontier(here, queue[1..]);
      assert forall i :: 0 < i < |queue| ==> queue[i] == queue[1..][i - 1];
      f
  }

  lemma {:induction false} ReceiveSkipsTimeouts(s: Stream, n: nat, events: seq<Event>, missing: nat)
    requires missing > 0
    ensures Receive(s, Timeouts(n) + events, missing) == Receive(s, events, missing)
  {
    if n == 0 {
      assert Timeouts(0) + events == events;
    } else {
      assert (Timeouts(n) + events)[1..] == Timeouts(n - 1) + events;
      ReceiveSkipsTimeouts(s, n - 1, events, missing);
    }
  }

  /** A recovery that completes brings in exactly the missing slice, whatever the delays. */
  lemma {:induction false} CompleteRecovery(store: seq<Msg>, s: Stream, end: nat, delays: seq<nat>)
    requires Numbered(store) && GapFree(store, s) && s.next <= end <= |store|
    ensures Receive(s, Delayed(store[s.next..end], delays), end - s.next) == (Completed, Stream(end, store[..end]))
    decreases end - s.next
  {
    var reply := store[s.next..end];
    if s.next == end {
      assert reply == [];
    } else {
      var rest := Delayed(reply[1..], if delays == [] then [] else delays[1..]);
      var n := if delays == [] then 0 else delays[0];
      assert Timeouts(n) + [Message(reply[0])] + rest == Timeouts(n) + ([Message(reply[0])] + rest);
      ReceiveSkipsTimeouts(s, n, [Message(reply[0])] + rest, end - s.next);
      assert ([Message(reply[0])] + rest)[1..] == rest;
      assert store[..s.next] + [store[s.next]] == store[..s.next + 1];
      assert reply[1..] == store[s.next + 1..end];
      CompleteRecovery(store, Offer(s, reply[0]), end, if delays == [] then [] else delays[1..]);
    }
  }

  /** That is every sequence of events in which only timeouts come before or between the messages. */
  lemma {:induction false} EveryDelayIsOne(reply: seq<Msg>, events: seq<Event>) returns (delays: seq<nat>)
    requires Arrived(events) == reply && forall i :: 0 <= i < |events| ==> events[i].Timeout? || events[i].Message?
    requires events != [] ==> events[|events| - 1].Message?
    ensures |delays| == |reply| && Delayed(reply, delays) == events
    decreases |events|
  {
    if events == [] {
      delays := [];
    } else {
      assert events == [events[0]] + events[1..];
      assert forall i :: 0 <= i < |events[1..]| ==> events[1..][i] == events[i + 1];
      if events[0].Message? {
        var rest := EveryDelayIsOne(reply[1..], events[1..]);
        delays := [0] + rest;
        assert delays[1..] == rest && Timeouts(0) == [];
      } else {
        var rest := EveryDelayIsOne(reply, events[1..]);
        if reply == [] {
          delays := [];
        } else {
          delays := [rest[0] + 1] + rest[1..];
          assert delays[1..] == rest[1..];
          assert Timeouts(rest[0] + 1) == [Timeout] + Timeouts(rest[0]);
        }
      }
    }
  }

  lemma RoundIsGapFree(store: seq<Msg>, s: Stream, m: Msg, delays: seq<nat>)
    requires Numbered(store) && GapFree(store, s) && m.seqno < |store| && m == store[m.seqno]
    ensures var f := if m.seqno < s.next then s.next else m.seqno + 1;
      Round(store, s, m, delays) == (Completed, Stream(f, store[..f]))
  {
    if m.seqno > s.next {
      CompleteRecovery(store, s, m.seqno, delays);
      assert store[..m.seqno] + [m] == store[..m.seqno + 1];
    } else if m.seqno == s.next {
      assert store[..s.next] + [m] == store[..s.next + 1];
    }
  }

  lemma IsFromStore(store: seq<Msg>, queue: seq<Option<Msg>>, k: nat)
    requires FromStore(store, queue) && k < |queue| && queue[k].Some?
    ensures queue[k].value.seqno < |store| && queue[k].value == store[queue[k].value.seqno]
  {
  }

  /** Gap-free, exactly-once order: for any lossy, duplicated or reordered delivery of stored
      messages and completing recoveries, the stream offered is the store up to the next expected
      number, which ends just past the largest number delivered. */
  lemma {:induction false} RunIsGapFree(store: seq<Msg>, s: Stream, queue: seq<Option<Msg>>, delays: seq<seq<nat>>)
    requires Numbered(store) && GapFree(store, s) && FromStore(store, queue) && |delays| == |queue|
    ensures var f := Frontier(s.next, queue);
      f <= |store| && RunOn(store, s, queue, delays) == (Completed, Stream(f, store[..f]))
    decreases |queue|
  {
    hide Round;
    if queue != [] {
      assert FromStore(store, queue[1..]) by {
        assert forall i :: 0 <= i < |queue[1..]| ==> queue[1..][i] == queue[i + 1];
      }
      hide FromStore;
      if queue[0] == None {
        RunIsGapFree(store, s, queue[1..], delays[1..]);
      } else {
        var m := queue[0].value;
        assert m.seqno < |store| && m == store[m.seqno] by { IsFromStore(store, queue, 0); }
        RoundIsGapFree(store, s, m, delays[0]);
        var f := if m.seqno < s.next then s.next else m.seqno + 1;
        RunIsGapFree(store, Stream(f, store[..f]), queue[1..], delays[1..]);
      }
    }
  }

  /** One round of the loop with a message at hand. */
  lemma MessageRound(store: seq<Msg>, s: Stream, m: Msg, rest: seq<Option<Msg>>, ds: seq<nat>, delays: seq<seq<nat>>)
    requires Numbered(store) && GapFree(store, s) && m.seqno < |store| && m == store[m.seqno] && |delays| == |rest|
    ensures var f := if m.seqno < s.next then s.next else m.seqno + 1;
      RunOn(store, s, [Some(m)] + rest, [ds] + delays) == RunOn(store, Stream(f, store[..f]), rest, delays)
  {
    hide Round, Numbered;
    RoundIsGapFree(store, s, m, ds);
    assert ([Some(m)] + rest)[1..] == rest && ([ds] + delays)[1..] == delays;
  }

  /** One round of the loop with an empty queue. */
  lemma IdleRound(store: seq<Msg>, s: Stream, rest: seq<Option<Msg>>, ds: seq<nat>, delays: seq<seq<nat>>)
    requires |delays| == |rest|
    ensures RunOn(store, s, [None] + rest, [ds] + delays) == RunOn(store, s, rest, delays)
  {
    hide Round;
    assert ([None] + rest)[1..] == rest && ([ds] + delays)[1..] == delays;
  }

  // ----- Recoveries that break off --------------------------------------------------------------

  predicate Breaks(event: Event) {
    event.Closed? || event.Failed?
  }

  /** The messages that arrive before the connection breaks, if it does. */
  function Arrived(events: seq<Event>): seq<Msg> {
    if events == [] || Breaks(events[0]) then []
    else (if events[0].Message? then [events[0].m] else []) + Arrived(events[1..])
  }

  predicate BreaksOff(events: seq<Event>) {
    exists i :: 0 <= i < |events| && Breaks(events[i])
  }

  /** The first k messages carry the numbers from `next` on. */
  predicate InOrder(arrived: seq<Msg>, next: nat, k: nat) {
    k <= |arrived| && forall i :: 0 <= i < k ==> arrived[i].seqno == next + i
  }

  /** The connection breaks after fewer than `missing` messages, all of them the right ones. */
  predicate TooShort(events: seq<Event>, next: nat, missing: nat) {
    BreaksOff(events) && |Arrived(events)| < missing && InOrder(Arrived(events), next, |Arrived(events)|)
  }

  /** A message other than the expected one arrives while some are missing. */
  predicate OutOfOrder(arrived: seq<Msg>, next: nat, missing: nat) {
    exists k :: 0 <= k < |arrived| && k < missing && arrived[k].seqno != next + k
  }

  /** How the recovery ends, read off the events the socket will yield. */
  lemma {:induction false} ReceiveEnds(s: Stream, events: seq<Event>, missing: nat)
    ensures var (outcome, s') := Receive(s, events, missing);
      && (outcome == Completed <==> InOrder(Arrived(events), s.next, missing))
      && (outcome == Broken <==> TooShort(events, s.next, missing))
      && (outcome == Threw <==> OutOfOrder(Arrived(events), s.next, missing))
    decreases |events|
  {
    var arrived := Arrived(events);
    if missing > 0 && events != [] {
      var rest := events[1..];
      if Breaks(events[0]) {
        assert BreaksOff(events);
      } else {
        BreaksLater(events);
        if events[0].Message? {
          var m := events[0].m;
          OrderFirst(m, Arrived(rest), s.next, missing - 1);
          OrderFirst(m, Arrived(rest), s.next, |Arrived(rest)|);
          WrongFirst(m, Arrived(rest), s.next, missing);
          if m.seqno == s.next { ReceiveEnds(Offer(s, m), rest, missing - 1); }
        } else {
          ReceiveEnds(s, rest, missing);
          assert arrived == Arrived(rest);
        }
      }
    }
  }

  lemma BreaksLater(events: seq<Event>)
    requires events != [] && !Breaks(events[0])
    ensures BreaksOff(events) <==> BreaksOff(events[1..])
  {
    if i :| 0 <= i < |events| && Breaks(events[i]) { assert Breaks(events[1..][i - 1]); }
    if i :| 0 <= i < |events[1..]| && Breaks(events[1..][i]) { assert Breaks(events[i + 1]); }
  }

  lemma OrderFirst(m: Msg, rest: seq<Msg>, next: nat, k: nat)
    ensures InOrder([m] + rest, next, k + 1) <==> m.seqno == next && InOrder(rest, next + 1, k)
  {
    var arrived := [m] + rest;
    assert forall i :: 0 <= i < |rest| ==> arrived[i + 1] == rest[i];
    if InOrder(arrived, next, k + 1) {
      assert arrived[0].seqno == next + 0;
      forall i | 0 <= i < k ensures rest[i].seqno == next + 1 + i { assert arrived[i + 1].seqno == next + (i + 1); }
    }
  }

  lemma WrongFirst(m: Msg, rest: seq<Msg>, next: nat, missing: nat)
    requires missing > 0
    ensures OutOfOrder([m] + rest, next, missing) <==> m.seqno != next || OutOfOrder(rest, next + 1, missing - 1)
  {
    var arrived := [m] + rest;
    if m.seqno != next {
      assert arrived[0].seqno != next + 0;
    }
    if k :| 0 <= k < |rest| && k < missing - 1 && rest[k].seqno != next + 1 + k {
      assert arrived[k + 1].seqno != next + (k + 1);
    }
    if k :| 0 <= k < |arrived| && k < missing && arrived[k].seqno != next + k {
      if k > 0 { assert rest[k - 1].seqno != next + 1 + (k - 1); }
    }
  }

  /** The recovery side sends stored messages only. */
  predicate Stored(store: seq<Msg>, events: seq<Event>) {
    forall i :: 0 <= i < |events| && events[i].Message? ==>
      events[i].m.seqno < |store| && events[i].m == store[events[i].m.seqno]
  }

  /** Why completion is assumed. A gap is closed, and the message that revealed it offered in its place,
      exactly when the missing messages come in order before the connection breaks. The stream is lost
      exactly when the connection breaks too early: then that message is offered under a wrong number. */
  lemma StreamSurvivesIffRecoveryCompletes(store: seq<Msg>, s: Stream, m: Msg, events: seq<Event>)
    requires Numbered(store) && GapFree(store, s) && s.next < m.seqno < |store| && m == store[m.seqno]
    requires Stored(store, events)
    ensures var after, missing := Handle(s, m, events).1, m.seqno - s.next;
      && (after == Stream(m.seqno + 1, store[..m.seqno + 1]) <==> InOrder(Arrived(events), s.next, missing))
      && (GapFree(store, after) <==> !TooShort(events, s.next, missing))
  {
    var missing := m.seqno - s.next;
    ReceiveStaysInOrder(store, s, events, missing);
    ReceiveEnds(s, events, missing);
    var (outcome, s') := Receive(s, events, missing);
    assert Handle(s, m, events) ==
      if outcome == Completed || outcome == Broken then (outcome, Offer(s', m)) else (outcome, s');
    hide InOrder, TooShort, OutOfOrder, Receive, Handle, Arrived, Numbered, GapFree, Stored, Offer;
    if outcome == Completed || outcome == Broken {
      OfferedOutOfStep(store, s', m);
    }
  }

  /** A stored message keeps the stream the store's exactly when it is the next one. */
  lemma OfferedOutOfStep(store: seq<Msg>, s: Stream, m: Msg)
    requires Numbered(store) && GapFree(store, s) && s.next <= m.seqno < |store| && m == store[m.seqno]
    ensures GapFree(store, Offer(s, m)) <==> s.next == m.seqno
    ensures Offer(s, m) == Stream(m.seqno + 1, store[..m.seqno + 1]) <==> s.next == m.seqno
  {
    assert Offer(s, m).sent[s.next] == m;
    if s.next == m.seqno { assert store[..m.seqno] + [m] == store[..m.seqno + 1]; }
  }

  /** The receive loop over a finite part of the queue, whatever each recovery's socket yields. */
  function RunWith(s: Stream, queue: seq<Option<Msg>>, recoveries: seq<seq<Event>>): (Outcome, Stream)
    requires |recoveries| == |queue|
    decreases |queue|
  {
    if queue == [] then (Completed, s)
    else if queue[0] == None then RunWith(s, queue[1..], recoveries[1..])
    else
      var (outcome, s') := Handle(s, queue[0].value, recoveries[0]);
      if outcome == Completed || outcome == Broken then RunWith(s', queue[1..], recoveries[1..]) else (outcome, s')
  }

  /** Some recovery of the run breaks off with too few messages, all of them the right ones. Recoveries
      whose gap was closed lead on to later ones; one that throws or never ends is the last. */
  predicate BreaksShort(next: nat, queue: seq<Option<Msg>>, recoveries: seq<seq<Event>>)
    requires |recoveries| == |queue|
    decreases |queue|
  {
    if queue == [] then false
    else if queue[0] == None || queue[0].value.seqno < next then BreaksShort(next, queue[1..], recoveries[1..])
    else
      var missing := queue[0].value.seqno - next;
      || TooShort(recoveries[0], next, missing)
      || (InOrder(Arrived(recoveries[0]), next, missing)
          && BreaksShort(queue[0].value.seqno + 1, queue[1..], recoveries[1..]))
  }

  /** A wrong message has been offered. */
  predicate Strayed(store: seq<Msg>, sent: seq<Msg>) {
    exists k :: 0 <= k < |sent| && k < |store| && sent[k] != store[k]
  }

  lemma {:induction false} ReceiveExtends(s: Stream, events: seq<Event>, missing: nat)
    ensures s.sent <= Receive(s, events, missing).1.sent
    decreases |events|
  {
    if missing > 0 && events != [] {
      match events[0] {
        case Message(m) => if m.seqno == s.next { ReceiveExtends(Offer(s, m), events[1..], missing - 1); }
        case _ => ReceiveExtends(s, events[1..], missing);
      }
    }
  }

  /** What was offered stays offered. */
  lemma {:induction false} RunExtends(s: Stream, queue: seq<Option<Msg>>, recoveries: seq<seq<Event>>)
    requires |recoveries| == |queue|
    ensures s.sent <= RunWith(s, queue, recoveries).1.sent
    decreases |queue|
  {
    if queue != [] {
      if queue[0] == None {
        RunExtends(s, queue[1..], recoveries[1..]);
      } else {
        var m := queue[0].value;
        if m.seqno > s.next { ReceiveExtends(s, recoveries[0], m.seqno - s.next); }
        RunExtends(Handle(s, m, recoveries[0]).1, queue[1..], recoveries[1..]);
      }
    }
  }

  lemma StrayedForGood(store: seq<Msg>, sent: seq<Msg>, s': Stream)
    requires Strayed(store, sent) && sent <= s'.sent
    ensures !GapFree(store, s')
  {
    var k :| 0 <= k < |sent| && k < |store| && sent[k] != store[k];
    assert s'.sent[k] == sent[k];
  }

  /** One message off the queue keeps the stream, or makes it stray. */
  lemma HandleKeepsIff(store: seq<Msg>, s: Stream, m: Msg, events: seq<Event>)
    requires Numbered(store) && GapFree(store, s) && m.seqno < |store| && m == store[m.seqno] && Stored(store, events)
    ensures var (outcome, after) := Handle(s, m, events);
      if m.seqno < s.next then outcome == Completed && after == s
      else
        var missing := m.seqno - s.next;
        && (TooShort(events, s.next, missing) ==> outcome == Broken && Strayed(store, after.sent))
        && (InOrder(Arrived(events), s.next, missing) ==>
              outcome == Completed && after.next == m.seqno + 1 && GapFree(store, after))
        && (!TooShort(events, s.next, missing) && !InOrder(Arrived(events), s.next, missing) ==>
              (outcome == Threw || outcome == Waiting) && GapFree(store, after))
  {
    if m.seqno >= s.next {
      var missing := m.seqno - s.next;
      ReceiveStaysInOrder(store, s, events, missing);
      ReceiveEnds(s, events, missing);
      var (outcome, s') := Receive(s, events, missing);
      hide InOrder, TooShort, OutOfOrder, Arrived, Stored, Receive;
      if outcome == Completed || outcome == Broken {
        OfferedOutOfStep(store, s', m);
        assert Offer(s', m).sent[s'.next] == m;
      }
      if missing == 0 { NothingMissing(s, events); }
    }
  }

  lemma NothingMissing(s: Stream, events: seq<Event>)
    ensures Receive(s, events, 0) == (Completed, s) && !TooShort(events, s.next, 0)
    ensures InOrder(Arrived(events), s.next, 0)
  {
  }

  /** Over whole runs: the stream offered is still the store's exactly when no recovery broke off short. */
  lemma {:induction false} RunSurvivesIff(store: seq<Msg>, s: Stream, queue: seq<Option<Msg>>,
                                          recoveries: seq<seq<Event>>)
    requires Numbered(store) && GapFree(store, s) && FromStore(store, queue) && |recoveries| == |queue|
    requires forall i :: 0 <= i < |recoveries| ==> Stored(store, recoveries[i])
    ensures GapFree(store, RunWith(s, queue, recoveries).1) <==> !BreaksShort(s.next, queue, recoveries)
    decreases |queue|
  {
    if queue != [] {
      hide Handle, Stored, InOrder, TooShort, Arrived, Numbered;
      assert FromStore(store, queue[1..]) by {
        assert forall i :: 0 <= i < |queue[1..]| ==> queue[1..][i] == queue[i + 1];
      }
      assert forall i :: 0 <= i < |recoveries[1..]| ==> recoveries[1..][i] == recoveries[i + 1];
      if queue[0] == None {
        RunSurvivesIff(store, s, queue[1..], recoveries[1..]);
      } else {
        var m := queue[0].value;
        IsFromStore(store, queue, 0);
        HandleKeepsIff(store, s, m, recoveries[0]);
        var (outcome, after) := Handle(s, m, recoveries[0]);
        if outcome == Broken {
          RunExtends(after, queue[1..], recoveries[1..]);
          StrayedForGood(store, after.sent, RunWith(after, queue[1..], recoveries[1..]).1);
        } else if outcome == Completed {
          RunSurvivesIff(store, after, queue[1..], recoveries[1..]);
        }
      }
    }
  }

  /** The number expected after a message of the queue whose recovery, if it needs one, ends. */
  function Expected(next: nat, m: Msg, events: seq<Event>): nat {
    if m.seqno < next then next
    else if InOrder(Arrived(events), next, m.seqno - next) then m.seqno + 1
    else next + |Arrived(events)| + 1
  }

  /** Some recovery of the run brings a message out of order, and all before it end. */
  predicate MeetsWrongMessage(next: nat, queue: seq<Option<Msg>>, recoveries: seq<seq<Event>>)
    requires |recoveries| == |queue|
    decreases |queue|
  {
    if queue == [] then false
    else if queue[0] == None || queue[0].value.seqno < next then MeetsWrongMessage(next, queue[1..], recoveries[1..])
    else
      var missing := queue[0].value.seqno - next;
      || OutOfOrder(Arrived(recoveries[0]), next, missing)
      || ((InOrder(Arrived(recoveries[0]), next, missing) || TooShort(recoveries[0], next, missing))
          && MeetsWrongMessage(Expected(next, queue[0].value, recoveries[0]), queue[1..], recoveries[1..]))
  }

  /** Every recovery of the run ends, with the missing messages or with a break. */
  predicate AllEnd(next: nat, queue: seq<Option<Msg>>, recoveries: seq<seq<Event>>)
    requires |recoveries| == |queue|
    decreases |queue|
  {
    if queue == [] then true
    else if queue[0] == None || queue[0].value.seqno < next then AllEnd(next, queue[1..], recoveries[1..])
    else
      var missing := queue[0].value.seqno - next;
      && (InOrder(Arrived(recoveries[0]), next, missing) || TooShort(recoveries[0], next, missing))
      && AllEnd(Expected(next, queue[0].value, recoveries[0]), queue[1..], recoveries[1..])
  }

  /** How a run ends, read off the messages and the recoveries: it throws exactly when a recovery brings a
      message out of order, and comes to the end of the queue exactly when every recovery ends; unless one
      broke off short, the number then expected is the frontier. */
  lemma {:induction false} RunEnds(s: Stream, queue: seq<Option<Msg>>, recoveries: seq<seq<Event>>)
    requires |recoveries| == |queue|
    ensures var (outcome, after) := RunWith(s, queue, recoveries);
      && outcome != Broken
      && (outcome == Threw <==> MeetsWrongMessage(s.next, queue, recoveries))
      && (outcome == Completed <==> AllEnd(s.next, queue, recoveries))
      && (outcome == Completed && !BreaksShort(s.next, queue, recoveries) ==> after.next == Frontier(s.next, queue))
    decreases |queue|
  {
    if queue != [] {
      hide InOrder, TooShort, OutOfOrder, Arrived;
      if queue[0] == None {
        RunEnds(s, queue[1..], recoveries[1..]);
      } else {
        HandleEnds(s, queue[0].value, recoveries[0]);
        var (outcome, after) := Handle(s, queue[0].value, recoveries[0]);
        hide Handle, Expected;
        if outcome == Completed || outcome == Broken { RunEnds(after, queue[1..], recoveries[1..]); }
      }
    }
  }

  lemma HandleEnds(s: Stream, m: Msg, events: seq<Event>)
    ensures var (outcome, after) := Handle(s, m, events);
      var missing := m.seqno - s.next;
      if m.seqno < s.next then outcome == Completed && after == s
      else
        && (outcome == Completed <==> InOrder(Arrived(events), s.next, missing))
        && (outcome == Broken <==> TooShort(events, s.next, missing))
        && (outcome == Threw <==> OutOfOrder(Arrived(events), s.next, missing))
        && (outcome == Completed ==> after.next == m.seqno + 1)
        && (outcome == Completed || outcome == Broken ==> after.next == Expected(s.next, m, events))
  {
    if m.seqno >= s.next {
      ReceiveEnds(s, events, m.seqno - s.next);
      ReceiveCounts(s, events, m.seqno - s.next);
      hide InOrder, TooShort, OutOfOrder, Arrived, Receive;
      if m.seqno == s.next { NothingMissing(s, events); }
    }
  }

  lemma {:induction false} ReceiveCounts(s: Stream, events: seq<Event>, missing: nat)
    ensures var (outcome, s') := Receive(s, events, missing);
      && (outcome == Completed ==> s'.next == s.next + missing)
      && (outcome == Broken ==> s'.next == s.next + |Arrived(events)|)
    decreases |events|
  {
    if missing > 0 && events != [] {
      match events[0] {
        case Message(m) => if m.seqno == s.next { ReceiveCounts(Offer(s, m), events[1..], missing - 1); }
        case _ => ReceiveCounts(s, events[1..], missing);
      }
    }
  }

  /** The shortest failing input: one message missing, and the server closes the connection. */
  lemma ClosedRecoveryLosesTheStream(first: int, second: int)
    ensures var store := [Msg(0, first), Msg(1, second)];
      var after := Handle(Stream(0, []), store[1], [Closed]).1;
      after == Stream(1, [store[1]]) && !GapFree(store, after)
  {
    var store := [Msg(0, first), Msg(1, second)];
    assert store[..1] == [store[0]];
  }

  lemma {:induction false} ReceiveStaysInOrder(store: seq<Msg>, s: Stream, events: seq<Event>, missing: nat)
    requires Numbered(store) && GapFree(store, s) && s.next + missing <= |store|
    requires Stored(store, events)
    ensures var (outcome, s') := Receive(s, events, missing);
      && GapFree(store, s') && s.next <= s'.next <= s.next + missing
      && (outcome == Completed <==> s'.next == s.next + missing)
    decreases |events|
  {
    if missing > 0 && events != [] {
      assert forall i :: 0 <= i < |events[1..]| ==> events[1..][i] == events[i + 1];
      match events[0] {
        case Timeout => ReceiveStaysInOrder(store, s, events[1..], missing);
        case Partial => ReceiveStaysInOrder(store, s, events[1..], missing);
        case Closed =>
        case Failed =>
        case Message(m) =>
          if m.seqno == s.next {
            assert store[..s.next] + [m] == store[..s.next + 1];
            ReceiveStaysInOrder(store, Offer(s, m), events[1..], missing - 1);
          }
      }
    }
  }

  // ----- The sequencer itself -------------------------------------------------------------------

  class TradeDataSequencer {
    var nextSequence: nat
    /** Everything offered to the send queue, and every old message given back to the pool. */
    var sendQueue: seq<Msg>
    var deallocated: seq<Msg>

    function State(): Stream
      reads this
    {
      Stream(nextSequence, sendQueue)
    }

    constructor ()
      ensures State() == Stream(0, []) && deallocated == []
    {
      nextSequence := 0;
      sendQueue := [];
      deallocated := [];
    }

    /** The recovery callback; false stands for the exception. */
    method OnRecoveredMsg(m: Msg) returns (ok: bool)
      modifies this`nextSequence, this`sendQueue
      ensures ok <==> m.seqno == old(nextSequence)
      ensures State() == if ok then Offer(old(State()), m) else old(State())
    {
      if m.seqno != nextSequence {
        return false;
      }
      sendQueue := sendQueue + [m];
      nextSequence := nextSequence + 1;
      return true;
    }

    method ReceiveRecoveryMessages(start: nat, end: nat, events: seq<Event>) returns (outcome: Outcome)
      requires start <= end
      modifies this`nextSequence, this`sendQueue
      ensures (outcome, State()) == Receive(old(State()), events, end - start + 1)
    {
      var received := 0;
      var numMessages := end - start + 1;
      var k := 0;
      while received < numMessages
        invariant 0 <= received <= numMessages && 0 <= k <= |events|
        invariant Receive(old(State()), events, numMessages) == Receive(State(), events[k..], numMessages - received)
        decreases |events| - k
      {
        if k == |events| {
          return Waiting;
        }
        var event := events[k];
        assert events[k..][1..] == events[k + 1..];
        k := k + 1;
        match event {
          case Timeout =>
          case Partial =>
          case Closed => return Broken;
          case Failed => return Broken;
          case Message(m) =>
            var ok := OnRecoveredMsg(m);
            if !ok {
              return Threw;
            }
            received := received + 1;
        }
      }
      return Completed;
    }

    /** The body of the receive loop for one dequeued message. */
    method OnMessage(m: Msg, events: seq<Event>) returns (outcome: Outcome)
      modifies this
      ensures (outcome, State()) == Handle(old(State()), m, events)
      ensures deallocated == old(deallocated) + if m.seqno < old(nextSequence) then [m] else []
    {
      outcome := Completed;
      if m.seqno > nextSequence {
        outcome := ReceiveRecoveryMessages(nextSequence, m.seqno - 1, events);
        if outcome == Threw || outcome == Waiting {
          return;
        }
      } else if m.seqno < nextSequence {
        deallocated := deallocated + [m];
        return;
      }
      sendQueue := sendQueue + [m];
      nextSequence := nextSequence + 1;
    }

    /** The receive loop, whatever the recoveries' sockets yield. */
    method RunAgainst(queue: seq<Option<Msg>>, recoveries: seq<seq<Event>>) returns (outcome: Outcome)
      requires |recoveries| == |queue|
      modifies this
      ensures (outcome, State()) == RunWith(old(State()), queue, recoveries)
    {
      hide Handle;
      var k := 0;
      while k < |queue|
        invariant 0 <= k <= |queue|
        invariant RunWith(old(State()), queue, recoveries) == RunWith(State(), queue[k..], recoveries[k..])
      {
        assert queue[k..][1..] == queue[k + 1..] && recoveries[k..][1..] == recoveries[k + 1..];
        if queue[k].Some? {
          outcome := OnMessage(queue[k].value, recoveries[k]);
          if outcome == Threw || outcome == Waiting {
            return;
          }
        }
        k := k + 1;
      }
      return Completed;
    }

    /** The receive loop against a live snapshot server. */
    method Run(store: TradeMsgStore, queue: seq<Option<Msg>>, delays: seq<seq<nat>>)
      requires store.Valid() && |store.vec| <= INT_MAX + 1 && |delays| == |queue|
      requires GapFree(store.vec, State()) && FromStore(store.vec, queue)
      modifies this
      ensures store.Valid() && store.vec == old(store.vec)
      ensures nextSequence == Frontier(old(nextSequence), queue) <= |store.vec|
      ensures sendQueue == store.vec[..nextSequence]
    {
      hide Delayed, Handle, Receive, Frontier, FromStore, RunOn, Numbered;
      ghost var s0 := State();
      RunIsGapFree(store.vec, s0, queue, delays);
      var k := 0;
      while k < |queue|
        invariant 0 <= k <= |queue| && store.vec == old(store.vec)
        invariant GapFree(store.vec, State())
        invariant RunOn(store.vec, s0, queue, delays) == RunOn(store.vec, State(), queue[k..], delays[k..])
      {
        assert queue[k..] == [queue[k]] + queue[k + 1..] && delays[k..] == [delays[k]] + delays[k + 1..];
        if queue[k] == None {
          IdleRound(store.vec, State(), queue[k + 1..], delays[k], delays[k + 1..]);
        } else {
          var m := queue[k].value;
          IsFromStore(store.vec, queue, k);
          MessageRound(store.vec, State(), m, queue[k + 1..], delays[k], delays[k + 1..]);
          var events := [];
          if m.seqno > nextSequence {
            var reply, overflowed := ServeGapRequest(store, nextSequence, m.seqno - 1);
            events := Delayed(reply, delays[k]);
          }
          RoundIsGapFree(store.vec, State(), m, delays[k]);
          var outcome := OnMessage(m, events);
        }
        k := k + 1;
      }
      RunNothing(store.vec, State());
    }
  }

  lemma RunNothing(store: seq<Msg>, s: Stream)
    ensures RunOn(store, s, [], []) == (Completed, s)
  {
  }
}
