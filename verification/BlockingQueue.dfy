/** BoundedBlockingQueue: a mutex, two condition variables and their wait sets. Every section run under
    the mutex is one step: it ends by returning or by going to sleep. Woken threads compete for the
    mutex with threads that just call, and may wake without a notification. */
module BlockingQueue {
  datatype Job = Put(x: int) | Take

  /** A signalled thread has left its wait set, notified or not, and must get the mutex back. */
  datatype Pc = Outside | Entering(job: Job) | Waiting(job: Job) | Signalled(job: Job)

  /** `dequeued` are the values returned, in the order of the sections; no step reads it. */
  datatype State = State(capacity: int, q: seq<int>, pcs: seq<Pc>, dequeued: seq<int>)

  /** The scheduler: a thread calls, gets the mutex (`wake` is the sleeper a notification would like to
      reach), or wakes up for no reason. */
  datatype Choice = Call(t: nat, job: Job) | Lock(t: nat, wake: nat) | Spurious(t: nat)

  /** `q.size() < capacity` compares with the capacity converted to 64 unsigned bits. */
  function Limit(capacity: int): int {
    if capacity < 0 then capacity + 0x1_0000_0000_0000_0000 else capacity
  }

  predicate IsInt(capacity: int) {
    -0x8000_0000 <= capacity < 0x8000_0000
  }

  predicate Sleeps(pc: Pc, take: bool) {
    pc.Waiting? && pc.job.Take? == take
  }

  predicate Contends(pc: Pc, take: bool) {
    pc.Signalled? && pc.job.Take? == take
  }

  /** The lowest sleeper of a kind, or the number of threads. */
  function FirstSleeper(pcs: seq<Pc>, take: bool): (t: nat)
    ensures t <= |pcs| && (t < |pcs| ==> Sleeps(pcs[t], take))
    ensures t == |pcs| ==> forall u :: 0 <= u < |pcs| ==> !Sleeps(pcs[u], take)
  {
    if pcs == [] || Sleeps(pcs[0], take) then 0 else 1 + FirstSleeper(pcs[1..], take)
  }

  /** Wakes one sleeper if there is any; the scheduler decides which. */
  function NotifyOne(pcs: seq<Pc>, take: bool, wake: nat): (after: seq<Pc>)
    ensures |after| == |pcs|
  {
    var t := if wake < |pcs| && Sleeps(pcs[wake], take) then wake else FirstSleeper(pcs, take);
    if t < |pcs| then pcs[t := Signalled(pcs[t].job)] else pcs
  }

  /** One section: the waiting loop's test, then either the operation and its notification, or sleep. */
  function Section(s: State, t: nat, job: Job, wake: nat): (after: State)
    requires t < |s.pcs|
  {
    match job
    case Put(x) =>
      if |s.q| < Limit(s.capacity) then
        s.(q := s.q + [x], pcs := NotifyOne(s.pcs[t := Outside], true, wake))
      else s.(pcs := s.pcs[t := Waiting(job)])
    case Take =>
      if s.q != [] then
        s.(q := s.q[1..], dequeued := s.dequeued + [s.q[0]], pcs := NotifyOne(s.pcs[t := Outside], false, wake))
      else s.(pcs := s.pcs[t := Waiting(job)])
  }

  function Step(s: State, choice: Choice): (after: State)
    ensures |after.pcs| == |s.pcs| && after.capacity == s.capacity
  {
    if choice.t >= |s.pcs| then s
    else
      var pc := s.pcs[choice.t];
      match choice
      case Call(t, job) => if pc.Outside? then s.(pcs := s.pcs[t := Entering(job)]) else s
      case Lock(t, wake) => if pc.Entering? || pc.Signalled? then Section(s, t, pc.job, wake) else s
      case Spurious(t) => if pc.Waiting? then s.(pcs := s.pcs[t := Signalled(pc.job)]) else s
  }

  function Run(s: State, schedule: seq<Choice>): State {
    if schedule == [] then s else Step(Run(s, schedule[..|schedule| - 1]), schedule[|schedule| - 1])
  }

  function Init(capacity: int, threads: nat): State {
    State(capacity, [], seq(threads, _ => Outside), [])
  }

  function Count(pcs: seq<Pc>, take: bool): nat {
    if pcs == [] then 0
    else Count(pcs[..|pcs| - 1], take) + if Contends(pcs[|pcs| - 1], take) then 1 else 0
  }

  function One(pc: Pc, take: bool): nat {
    if Contends(pc, take) then 1 else 0
  }

  lemma {:induction false} CountUpdate(pcs: seq<Pc>, t: nat, pc: Pc, take: bool)
    requires t < |pcs|
    ensures Count(pcs[t := pc], take) == Count(pcs, take) - One(pcs[t], take) + One(pc, take)
  {
    var k := |pcs| - 1;
    if t < k {
      CountUpdate(pcs[..k], t, pc, take);
      assert pcs[t := pc][..k] == pcs[..k][t := pc];
    } else {
      assert pcs[t := pc][..k] == pcs[..k];
    }
  }

  lemma {:induction false} CountZero(pcs: seq<Pc>, take: bool)
    ensures Count(pcs, take) == 0 <==> forall t :: 0 <= t < |pcs| ==> !Contends(pcs[t], take)
  {
    if pcs != [] {
      CountZero(pcs[..|pcs| - 1], take);
    }
  }

  predicate SomeoneSleeps(pcs: seq<Pc>, take: bool) {
    exists t :: 0 <= t < |pcs| && Sleeps(pcs[t], take)
  }

  /** The waiting loop's test. */
  predicate CanProceed(s: State, job: Job) {
    match job
    case Put(_) => |s.q| < Limit(s.capacity)
    case Take => s.q != []
  }

  /** What a side could still do: elements to take, or free places to fill. */
  function Supply(s: State, take: bool): int {
    if take then |s.q| else Limit(s.capacity) - |s.q|
  }

  /** Nobody sleeps through more than the threads already woken can use up. */
  predicate NoneForgotten(s: State, take: bool) {
    SomeoneSleeps(s.pcs, take) ==> Supply(s, take) <= Count(s.pcs, take)
  }

  predicate Inv(s: State) {
    && |s.q| <= (if Limit(s.capacity) > 0 then Limit(s.capacity) else 0)
    && NoneForgotten(s, true) && NoneForgotten(s, false)
  }

  /** A notification wakes exactly one sleeper of its kind, if there is one, and touches no other thread. */
  lemma NotifyOneWakes(pcs: seq<Pc>, take: bool, wake: nat)
    ensures var after := NotifyOne(pcs, take, wake);
      && Count(after, take) == Count(pcs, take) + (if SomeoneSleeps(pcs, take) then 1 else 0)
      && Count(after, !take) == Count(pcs, !take)
      && (SomeoneSleeps(after, take) ==> SomeoneSleeps(pcs, take))
      && (SomeoneSleeps(after, !take) <==> SomeoneSleeps(pcs, !take))
  {
    var t := if wake < |pcs| && Sleeps(pcs[wake], take) then wake else FirstSleeper(pcs, take);
    if t < |pcs| {
      var after := NotifyOne(pcs, take, wake);
      CountUpdate(pcs, t, Signalled(pcs[t].job), take);
      CountUpdate(pcs, t, Signalled(pcs[t].job), !take);
      assert forall u :: 0 <= u < |pcs| && u != t ==> after[u] == pcs[u];
      if u :| 0 <= u < |pcs| && Sleeps(pcs[u], !take) { assert Sleeps(after[u], !take); }
    }
  }

  lemma MoveCounts(pcs: seq<Pc>, t: nat, pc: Pc, take: bool)
    requires t < |pcs| && !Sleeps(pcs[t], take)
    ensures Count(pcs[t := pc], take) == Count(pcs, take) - One(pcs[t], take) + One(pc, take)
    ensures SomeoneSleeps(pcs[t := pc], take) <==> SomeoneSleeps(pcs, take) || Sleeps(pc, take)
  {
    CountUpdate(pcs, t, pc, take);
    assert forall u :: 0 <= u < |pcs| && u != t ==> pcs[t := pc][u] == pcs[u];
    assert pcs[t := pc][t] == pc;
  }

  lemma SleepKeepsInv(s: State, t: nat)
    requires Inv(s) && t < |s.pcs| && (s.pcs[t].Entering? || s.pcs[t].Signalled?) && !CanProceed(s, s.pcs[t].job)
    ensures Inv(s.(pcs := s.pcs[t := Waiting(s.pcs[t].job)]))
  {
    MoveCounts(s.pcs, t, Waiting(s.pcs[t].job), true);
    MoveCounts(s.pcs, t, Waiting(s.pcs[t].job), false);
    hide Count, SomeoneSleeps;
  }

  lemma PutKeepsInv(s: State, t: nat, wake: nat)
    requires Inv(s) && t < |s.pcs| && (s.pcs[t].Entering? || s.pcs[t].Signalled?)
    requires s.pcs[t].job.Put? && |s.q| < Limit(s.capacity)
    ensures Inv(Section(s, t, s.pcs[t].job, wake))
  {
    MoveCounts(s.pcs, t, Outside, true);
    MoveCounts(s.pcs, t, Outside, false);
    NotifyOneWakes(s.pcs[t := Outside], true, wake);
    hide Count, SomeoneSleeps, NotifyOne;
  }

  lemma TakeKeepsInv(s: State, t: nat, wake: nat)
    requires Inv(s) && t < |s.pcs| && (s.pcs[t].Entering? || s.pcs[t].Signalled?)
    requires s.pcs[t].job.Take? && s.q != []
    ensures Inv(Section(s, t, s.pcs[t].job, wake))
  {
    MoveCounts(s.pcs, t, Outside, true);
    MoveCounts(s.pcs, t, Outside, false);
    hide Count, SomeoneSleeps, NotifyOne, FirstSleeper, Limit;
    NotifyOneWakes(s.pcs[t := Outside], false, wake);
    var after := Section(s, t, s.pcs[t].job, wake);
    assert |after.q| == |s.q| - 1 && after.capacity == s.capacity;
    hide Section;
    assert NoneForgotten(after, true);
    assert NoneForgotten(after, false);
  }

  lemma FrontMoves(a: seq<int>, b: seq<int>)
    requires b != []
    ensures a + [b[0]] + b[1..] == a + b
  {
  }

  lemma SectionKeepsInv(s: State, t: nat, wake: nat)
    requires Inv(s) && t < |s.pcs| && (s.pcs[t].Entering? || s.pcs[t].Signalled?)
    ensures Inv(Section(s, t, s.pcs[t].job, wake))
  {
    hide Inv, NotifyOne;
    if !CanProceed(s, s.pcs[t].job) {
      SleepKeepsInv(s, t);
    } else if s.pcs[t].job.Put? {
      PutKeepsInv(s, t, wake);
    } else {
      TakeKeepsInv(s, t, wake);
    }
  }

  lemma StepKeepsInv(s: State, choice: Choice)
    requires Inv(s)
    ensures Inv(Step(s, choice))
  {
    if choice.t < |s.pcs| {
      var pc := s.pcs[choice.t];
      match choice
      case Call(t, job) =>
        if pc.Outside? {
          MoveCounts(s.pcs, t, Entering(job), true);
          MoveCounts(s.pcs, t, Entering(job), false);
        }
      case Lock(t, wake) =>
        if pc.Entering? || pc.Signalled? { SectionKeepsInv(s, t, wake); }
      case Spurious(t) =>
        if pc.Waiting? {
          var after := s.pcs[t := Signalled(pc.job)];
          CountUpdate(s.pcs, t, Signalled(pc.job), true);
          CountUpdate(s.pcs, t, Signalled(pc.job), false);
          assert forall u :: 0 <= u < |after| && after[u].Waiting? ==> s.pcs[u] == after[u];
        }
    }
  }

  lemma {:induction false} RunInv(capacity: int, threads: nat, schedule: seq<Choice>)
    requires IsInt(capacity)
    ensures Inv(Run(Init(capacity, threads), schedule))
  {
    if schedule != [] {
      RunInv(capacity, threads, schedule[..|schedule| - 1]);
      StepKeepsInv(Run(Init(capacity, threads), schedule[..|schedule| - 1]), schedule[|schedule| - 1]);
    }
  }

  // ----- The jobs called and the order they complete in ---------------------------------------------

  /** The job of the latest call by thread t, read off the schedule. */
  function LatestJob(s: State, schedule: seq<Choice>, t: nat): Job {
    if schedule == [] then Take
    else
      var before, last := schedule[..|schedule| - 1], schedule[|schedule| - 1];
      if last.Call? && last.t == t && t < |Run(s, before).pcs| && Run(s, before).pcs[t].Outside? then last.job
      else LatestJob(s, before, t)
  }

  /** The thread gets the mutex with this choice and has returned after it. */
  predicate Completes(s: State, choice: Choice) {
    && choice.Lock? && choice.t < |s.pcs| && (s.pcs[choice.t].Entering? || s.pcs[choice.t].Signalled?)
    && Step(s, choice).pcs[choice.t].Outside?
  }

  /** The jobs of the calls that have returned, in the order of their sections. */
  function Completed(s: State, schedule: seq<Choice>): seq<Job> {
    if schedule == [] then []
    else
      var before, last := schedule[..|schedule| - 1], schedule[|schedule| - 1];
      Completed(s, before) + if Completes(Run(s, before), last) then [LatestJob(s, before, last.t)] else []
  }

  function ValuesPut(jobs: seq<Job>): seq<int> {
    if jobs == [] then []
    else ValuesPut(jobs[..|jobs| - 1]) + match jobs[|jobs| - 1] case Put(x) => [x] case Take => []
  }

  function Takes(jobs: seq<Job>): nat {
    if jobs == [] then 0 else Takes(jobs[..|jobs| - 1]) + if jobs[|jobs| - 1].Take? then 1 else 0
  }

  lemma OneMore(jobs: seq<Job>, job: Job)
    ensures ValuesPut(jobs + [job]) == ValuesPut(jobs) + match job case Put(x) => [x] case Take => []
    ensures Takes(jobs + [job]) == Takes(jobs) + if job.Take? then 1 else 0
  {
    assert (jobs + [job])[..|jobs|] == jobs;
  }

  /** Waiting, being woken and trying again change nothing about the job a thread was called with. */
  lemma {:induction false} CarriesItsJob(capacity: int, threads: nat, schedule: seq<Choice>, t: nat)
    requires t < threads
    ensures var s := Run(Init(capacity, threads), schedule);
      |s.pcs| == threads && (s.pcs[t].Outside? || s.pcs[t].job == LatestJob(Init(capacity, threads), schedule, t))
  {
    if schedule != [] {
      CarriesItsJob(capacity, threads, schedule[..|schedule| - 1], t);
      hide Init, Run;
      StepCarriesJob(Run(Init(capacity, threads), schedule[..|schedule| - 1]), schedule[|schedule| - 1], t);
    }
  }

  lemma StepCarriesJob(s: State, choice: Choice, t: nat)
    requires t < |s.pcs|
    ensures var p, p' := s.pcs[t], Step(s, choice).pcs[t];
      p'.Outside? || (if choice.Call? && choice.t == t && p.Outside? then p'.job == choice.job
                      else !p.Outside? && p'.job == p.job)
  {
    hide FirstSleeper;
  }

  /** One section: it goes through exactly when its job can, and then does the whole of it. */
  lemma SectionDoesTheJob(s: State, t: nat, wake: nat)
    requires t < |s.pcs| && (s.pcs[t].Entering? || s.pcs[t].Signalled?)
    ensures var after := Step(s, Lock(t, wake));
      if !Completes(s, Lock(t, wake)) then
        !CanProceed(s, s.pcs[t].job) && after == s.(pcs := s.pcs[t := Waiting(s.pcs[t].job)])
      else
        && CanProceed(s, s.pcs[t].job)
        && match s.pcs[t].job
           case Put(x) => after.q == s.q + [x] && after.dequeued == s.dequeued
           case Take => s.q != [] && after.q == s.q[1..] && after.dequeued == s.dequeued + [s.q[0]]
  {
    hide FirstSleeper;
  }

  /** What a job is to do: a put appends its value unless the queue is at its limit, a take removes the
      oldest value unless there is none; otherwise the thread sleeps and the queue is as it was. */
  predicate DoesTheJob(s: State, t: nat, job: Job, after: State) {
    && |after.pcs| == |s.pcs| && t < |s.pcs|
    && match job
       case Put(x) =>
         if |s.q| < (if s.capacity < 0 then s.capacity + 0x1_0000_0000_0000_0000 else s.capacity)
         then after.q == s.q + [x] && after.dequeued == s.dequeued && after.pcs[t].Outside?
         else after.q == s.q && after.dequeued == s.dequeued && after.pcs[t] == Waiting(job)
       case Take =>
         if |s.q| > 0
         then after.q == s.q[1..] && after.dequeued == s.dequeued + [s.q[0]] && after.pcs[t].Outside?
         else after.q == s.q && after.dequeued == s.dequeued && after.pcs[t] == Waiting(job)
  }

  /** In any reachable state, with the jobs read off the schedule: a thread that calls, and a sleeper that
      wakes for no reason, does its whole job in its next section or sleeps. */
  lemma EverySectionDoesTheJob(capacity: int, threads: nat, schedule: seq<Choice>, t: nat, job: Job, wake: nat)
    requires t < threads
    ensures var s := Run(Init(capacity, threads), schedule);
      && s.capacity == capacity && |s.pcs| == threads
      && (s.pcs[t].Outside? ==> DoesTheJob(s, t, job, Step(Step(s, Call(t, job)), Lock(t, wake))))
      && (s.pcs[t].Waiting? ==>
            DoesTheJob(s, t, LatestJob(Init(capacity, threads), schedule, t),
                       Step(Step(s, Spurious(t)), Lock(t, wake))))
  {
    RunCapacity(Init(capacity, threads), schedule);
    CarriesItsJob(capacity, threads, schedule, t);
    var s := Run(Init(capacity, threads), schedule);
    hide Run, Section, NotifyOne, LatestJob;
    if s.pcs[t].Outside? {
      assert Step(s, Call(t, job)) == s.(pcs := s.pcs[t := Entering(job)]);
      SectionDoesTheJob(s.(pcs := s.pcs[t := Entering(job)]), t, wake);
    }
    if s.pcs[t].Waiting? {
      assert Step(s, Spurious(t)) == s.(pcs := s.pcs[t := Signalled(s.pcs[t].job)]);
      SectionDoesTheJob(s.(pcs := s.pcs[t := Signalled(s.pcs[t].job)]), t, wake);
    }
  }

  /** First in, first out, within capacity, under any schedule: the values taken, as many as takes have
      returned, and those still in the queue are the values of the puts that have returned, in that order. */
  lemma {:induction false} BoundedFifo(capacity: int, threads: nat, schedule: seq<Choice>)
    requires IsInt(capacity)
    ensures var s, jobs := Run(Init(capacity, threads), schedule), Completed(Init(capacity, threads), schedule);
      && ValuesPut(jobs) == s.dequeued + s.q && |s.dequeued| == Takes(jobs)
      && |s.q| <= if capacity < 0 then capacity + 0x1_0000_0000_0000_0000 else capacity
  {
    RunInv(capacity, threads, schedule);
    RunCapacity(Init(capacity, threads), schedule);
    if schedule != [] {
      var before, last := schedule[..|schedule| - 1], schedule[|schedule| - 1];
      BoundedFifo(capacity, threads, before);
      RunCapacity(Init(capacity, threads), before);
      if last.t < threads { CarriesItsJob(capacity, threads, before, last.t); }
      assert Completes(Run(Init(capacity, threads), before), last) ==>
        last.t < threads &&
        Run(Init(capacity, threads), before).pcs[last.t].job == LatestJob(Init(capacity, threads), before, last.t);
      OneMore(Completed(Init(capacity, threads), before), LatestJob(Init(capacity, threads), before, last.t));
      assert Completed(Init(capacity, threads), schedule) ==
        if !Completes(Run(Init(capacity, threads), before), last) then Completed(Init(capacity, threads), before)
        else Completed(Init(capacity, threads), before) + [LatestJob(Init(capacity, threads), before, last.t)];
      assert Run(Init(capacity, threads), schedule) == Step(Run(Init(capacity, threads), before), last);
      hide Run, Init, Inv, Step, Completes, LatestJob, Completed;
      StepMoves(Run(Init(capacity, threads), before), last);
      assert forall vs: seq<int> :: vs + [] == vs;
    }
  }

  /** What one choice does to the queue and to what was taken. */
  lemma StepMoves(s: State, choice: Choice)
    ensures var after := Step(s, choice);
      if Completes(s, choice) then
        match s.pcs[choice.t].job
        case Put(x) => after.dequeued + after.q == s.dequeued + s.q + [x] && after.dequeued == s.dequeued
        case Take => after.dequeued + after.q == s.dequeued + s.q && |after.dequeued| == |s.dequeued| + 1
      else after.q == s.q && after.dequeued == s.dequeued
  {
    if choice.Lock? && choice.t < |s.pcs| && (s.pcs[choice.t].Entering? || s.pcs[choice.t].Signalled?) {
      SectionDoesTheJob(s, choice.t, choice.wake);
      if s.q != [] { FrontMoves(s.dequeued, s.q); }
      hide Section, NotifyOne, Step;
    }
  }

  lemma {:induction false} RunCapacity(s: State, schedule: seq<Choice>)
    ensures Run(s, schedule).capacity == s.capacity && |Run(s, schedule).pcs| == |s.pcs|
  {
    if schedule != [] {
      RunCapacity(s, schedule[..|schedule| - 1]);
    }
  }

  /** A sleeper that could proceed is covered: a woken thread of its kind is on its way to the mutex. With k
      elements to take (places to fill) and someone asleep for them, k such threads are. */
  lemma SleepersAreCovered(capacity: int, threads: nat, schedule: seq<Choice>, t: nat)
    requires IsInt(capacity)
    requires var s := Run(Init(capacity, threads), schedule); t < |s.pcs| && s.pcs[t].Waiting?
    ensures var s := Run(Init(capacity, threads), schedule);
      var take := s.pcs[t].job.Take?;
      && Supply(s, take) <= Count(s.pcs, take)
      && (CanProceed(s, s.pcs[t].job) ==> exists u :: 0 <= u < |s.pcs| && Contends(s.pcs[u], take))
  {
    RunInv(capacity, threads, schedule);
    var s := Run(Init(capacity, threads), schedule);
    var take := s.pcs[t].job.Take?;
    assert Sleeps(s.pcs[t], take);
    CountZero(s.pcs, take);
  }

  predicate NobodyAwake(s: State) {
    forall t :: 0 <= t < |s.pcs| ==> s.pcs[t].Outside? || s.pcs[t].Waiting?
  }

  /** No lost wake-up: when everyone inside is asleep, no one of them could proceed, and with a positive
      limit they all sleep for the same reason. */
  lemma NoLostWakeups(capacity: int, threads: nat, schedule: seq<Choice>)
    requires IsInt(capacity) && NobodyAwake(Run(Init(capacity, threads), schedule))
    ensures var s := Run(Init(capacity, threads), schedule);
      && (forall t :: 0 <= t < |s.pcs| && s.pcs[t].Waiting? ==> !CanProceed(s, s.pcs[t].job))
      && (Limit(capacity) > 0 ==> !(SomeoneSleeps(s.pcs, true) && SomeoneSleeps(s.pcs, false)))
  {
    RunInv(capacity, threads, schedule);
    RunCapacity(Init(capacity, threads), schedule);
    var s := Run(Init(capacity, threads), schedule);
    CountZero(s.pcs, true);
    CountZero(s.pcs, false);
    forall t | 0 <= t < |s.pcs| && s.pcs[t].Waiting? ensures !CanProceed(s, s.pcs[t].job) {
      assert Sleeps(s.pcs[t], s.pcs[t].job.Take?);
    }
  }
}
