/** The bounded queue between benchmark threads, in every interleaving. A thread that holds the
    mutex takes several steps, because Close sets the flag and notifies without the mutex. */
module ConcurrentQueue {
  import opened Outcomes

  type Tid = nat

  datatype Pc =
    | Idle
    | PushWant(v: int, woken: bool) // wants the mutex, fresh or after a wakeup
    | PushSleepy(v: int)            // has the mutex and found no room
    | PushAsleep(v: int)            // blocked on cv_push_
    | PushReady(v: int, woken: bool)  // has the mutex and may go on; has not read closed_ yet
    | PushPassed(v: int, woken: bool) // has the mutex and has read closed_ as false
    | PushNotify                    // has pushed and released the mutex; about to notify cv_pop_
    | PopWant(woken: bool)
    | PopSleepy
    | PopAsleep
    | TryWant                       // TryPop wants the mutex
    | PopReady(woken: bool)
    | PopPassed(woken: bool)
    | ClosePush                     // closed_ is set; about to notify all of cv_push_
    | ClosePop                      // about to notify all of cv_pop_

  datatype State = State(q: seq<int>, capacity: int, closed: bool, mutex: Option<Tid>, pc: map<Tid, Pc>,
                         pushed: seq<int>, popped: seq<int>)

  datatype Step =
    | CallPush(t: Tid, v: int) | TestRoom(t: Tid) | BlockPush(t: Tid) | ReadClosedPush(t: Tid)
    | Enqueue(t: Tid) | NotifyPop(t: Tid, wake: Option<Tid>)
    | CallPop(t: Tid) | CallTryPop(t: Tid) | TestItems(t: Tid) | BlockPop(t: Tid) | ReadClosedPop(t: Tid)
    | Dequeue(t: Tid, wake: Option<Tid>)
    | CallClose(t: Tid) | NotifyAllPush(t: Tid) | NotifyAllPop(t: Tid)
    | SpuriousWakeup(t: Tid)

  predicate Holding(p: Pc) {
    p.PushSleepy? || p.PushReady? || p.PushPassed? || p.PopSleepy? || p.PopReady? || p.PopPassed?
  }

  /** The test of Push before it waits; a negative capacity is huge when compared as unsigned. */
  predicate Room(s: State) { s.capacity <= 0 || |s.q| < s.capacity }

  /** notify_one wakes some blocked thread if there is one. */
  ghost predicate WakesOne(s: State, wake: Option<Tid>, blocked: Pc -> bool) {
    match wake
    case Some(u) => u in s.pc && blocked(s.pc[u])
    case None => forall u :: u in s.pc ==> !blocked(s.pc[u])
  }

  ghost predicate Enabled(s: State, step: Step) {
    step.t in s.pc &&
    var p := s.pc[step.t];
    match step
    case CallPush(t, v) => p == Idle
    case TestRoom(t) => p.PushWant? && s.mutex == None
    case BlockPush(t) => p.PushSleepy?
    case ReadClosedPush(t) => p.PushReady?
    case Enqueue(t) => p.PushPassed?
    case NotifyPop(t, wake) => p == PushNotify && WakesOne(s, wake, (c: Pc) => c.PopAsleep?)
    case CallPop(t) => p == Idle
    case CallTryPop(t) => p == Idle
    case TestItems(t) => (p.PopWant? || p == TryWant) && s.mutex == None
    case BlockPop(t) => p == PopSleepy
    case ReadClosedPop(t) => p.PopReady?
    case Dequeue(t, wake) => p.PopPassed? && WakesOne(s, wake, (c: Pc) => c.PushAsleep?)
    case CallClose(t) => p == Idle
    case NotifyAllPush(t) => p == ClosePush
    case NotifyAllPop(t) => p == ClosePop
    case SpuriousWakeup(t) => p.PushAsleep? || p.PopAsleep?
  }

  /** A blocked thread that is woken competes for the mutex again. */
  function Woken(p: Pc): Pc {
    if p.PushAsleep? then PushWant(p.v, true) else if p.PopAsleep? then PopWant(true) else p
  }

  function Wake(pc: map<Tid, Pc>, wake: Option<Tid>): map<Tid, Pc> {
    if wake.Some? && wake.value in pc then pc[wake.value := Woken(pc[wake.value])] else pc
  }

  ghost function Do(s: State, step: Step): State
    requires Enabled(s, step)
  {
    var t, p := step.t, s.pc[step.t];
    match step
    case CallPush(_, v) => s.(pc := s.pc[t := PushWant(v, false)])
    case TestRoom(_) =>
      var p' := if Room(s) || s.closed then PushReady(p.v, p.woken) else PushSleepy(p.v);
      s.(mutex := Some(t), pc := s.pc[t := p'])
    case BlockPush(_) => s.(mutex := None, pc := s.pc[t := PushAsleep(p.v)])
    case ReadClosedPush(_) =>
      if s.closed then s.(mutex := None, pc := s.pc[t := Idle])
      else s.(pc := s.pc[t := PushPassed(p.v, p.woken)])
    case Enqueue(_) => s.(q := s.q + [p.v], pushed := s.pushed + [p.v], mutex := None, pc := s.pc[t := PushNotify])
    case NotifyPop(_, wake) => s.(pc := Wake(s.pc, wake)[t := Idle])
    case CallPop(_) => s.(pc := s.pc[t := PopWant(false)])
    case CallTryPop(_) => s.(pc := s.pc[t := TryWant])
    case TestItems(_) =>
      if p == TryWant then
        if s.q == [] then s.(pc := s.pc[t := Idle]) else s.(mutex := Some(t), pc := s.pc[t := PopReady(false)])
      else
        s.(mutex := Some(t), pc := s.pc[t := if s.q != [] || s.closed then PopReady(p.woken) else PopSleepy])
    case BlockPop(_) => s.(mutex := None, pc := s.pc[t := PopAsleep])
    case ReadClosedPop(_) =>
      if s.closed then s.(mutex := None, pc := s.pc[t := Idle]) else s.(pc := s.pc[t := PopPassed(p.woken)])
    case Dequeue(_, wake) =>
      if s.q == [] then s
      else s.(q := s.q[1..], popped := s.popped + [s.q[0]], mutex := None, pc := Wake(s.pc, wake)[t := Idle])
    case CallClose(_) => s.(closed := true, pc := s.pc[t := ClosePush])
    case NotifyAllPush(_) =>
      s.(pc := map u | u in s.pc ::
           if u == t then ClosePop else if s.pc[u].PushAsleep? then Woken(s.pc[u]) else s.pc[u])
    case NotifyAllPop(_) =>
      s.(pc := map u | u in s.pc ::
           if u == t then Idle else if s.pc[u].PopAsleep? then Woken(s.pc[u]) else s.pc[u])
    case SpuriousWakeup(_) => s.(pc := s.pc[t := Woken(p)])
  }

  function Initial(capacity: int, threads: set<Tid>): State {
    State([], capacity, false, None, map t | t in threads :: Idle, [], [])
  }

  // ----- invariants -----

  /** The mutex is held by exactly the thread that is in a critical section. */
  ghost predicate Exclusive(s: State) {
    forall t :: t in s.pc ==> (Holding(s.pc[t]) <==> s.mutex == Some(t))
  }

  /** What a thread found under the mutex still holds while it has the mutex. */
  ghost predicate Local(s: State, p: Pc) {
    match p
    case PushSleepy(_) => !Room(s)
    case PushAsleep(_) => 0 < s.capacity
    case PushReady(_, _) => Room(s) || s.closed
    case PushPassed(_, _) => Room(s)
    case PopSleepy => s.q == []
    case PopReady(_) => s.q != [] || s.closed
    case PopPassed(_) => s.q != []
    case ClosePush => s.closed
    case ClosePop => s.closed
    case _ => true
  }

  ghost predicate AllLocal(s: State) { forall t :: t in s.pc ==> Local(s, s.pc[t]) }

  /** First in, first out, with nothing lost or invented, and never more than the capacity. */
  ghost predicate Contents(s: State) {
    s.pushed == s.popped + s.q && (s.capacity > 0 ==> |s.q| <= s.capacity)
  }

  ghost predicate Inv(s: State) { Exclusive(s) && AllLocal(s) && Contents(s) && Wakeups(s) }

  function Having(pc: map<Tid, Pc>, f: Pc -> bool): set<Tid> { set t | t in pc && f(pc[t]) }

  function Count(pc: map<Tid, Pc>, f: Pc -> bool): nat { |Having(pc, f)| }

  /** Woken consumers, and producers about to notify one. */
  function HelpsPop(): Pc -> bool {
    (p: Pc) => ((p.PopWant? || p.PopReady? || p.PopPassed?) && p.woken) || p == PushNotify
  }

  /** Woken producers. */
  function HelpsPush(): Pc -> bool {
    (p: Pc) => (p.PushWant? || p.PushReady? || p.PushPassed?) && p.woken
  }

  ghost predicate SomePopAsleep(pc: map<Tid, Pc>) { exists t :: t in pc && pc[t].PopAsleep? }

  ghost predicate SomePushAsleep(pc: map<Tid, Pc>) { exists t :: t in pc && pc[t].PushAsleep? }

  /** Before Close: while a consumer is blocked, queued items do not outnumber the woken
      consumers and pending notifications; and the same for producers and free slots. */
  ghost predicate Wakeups(s: State) {
    !s.closed ==> PopBalance(s.q, s.pc) && PushBalance(s.q, s.capacity, s.pc)
  }

  ghost predicate PopBalance(q: seq<int>, pc: map<Tid, Pc>) {
    SomePopAsleep(pc) ==> |q| <= Count(pc, HelpsPop())
  }

  ghost predicate PushBalance(q: seq<int>, capacity: int, pc: map<Tid, Pc>) {
    capacity > 0 && SomePushAsleep(pc) ==> capacity - |q| <= Count(pc, HelpsPush())
  }

  lemma InitialInv(capacity: int, threads: set<Tid>)
    ensures Inv(Initial(capacity, threads))
  {
  }

  lemma ExclusiveKept(s: State, step: Step)
    requires Exclusive(s) && Enabled(s, step)
    ensures Exclusive(Do(s, step))
  {
  }

  lemma OwnLocal(s: State, step: Step)
    requires AllLocal(s) && Enabled(s, step)
    ensures step.t in Do(s, step).pc && Local(Do(s, step), Do(s, step).pc[step.t])
  {
    assert Local(s, s.pc[step.t]);
  }

  lemma OtherLocal(s: State, step: Step, u: Tid)
    requires Exclusive(s) && AllLocal(s) && Enabled(s, step) && u in Do(s, step).pc && u != step.t
    ensures Local(Do(s, step), Do(s, step).pc[u])
  {
    assert Local(s, s.pc[u]) && Local(s, s.pc[step.t]);
  }

  lemma LocalKept(s: State, step: Step)
    requires Exclusive(s) && AllLocal(s) && Enabled(s, step)
    ensures AllLocal(Do(s, step))
  {
    hide Do, Enabled, Local, Exclusive;
    OwnLocal(s, step);
    forall u | u in Do(s, step).pc && u != step.t ensures Local(Do(s, step), Do(s, step).pc[u]) {
      OtherLocal(s, step, u);
    }
  }

  lemma ContentsKept(s: State, step: Step)
    requires AllLocal(s) && Contents(s) && Enabled(s, step)
    ensures Contents(Do(s, step))
  {
    assert Local(s, s.pc[step.t]);
    if step.Dequeue? { assert s.q == [s.q[0]] + s.q[1..]; }
  }

  lemma CountUpdate(pc: map<Tid, Pc>, t: Tid, p: Pc, f: Pc -> bool)
    requires t in pc
    ensures Count(pc[t := p], f) == Count(pc, f) - (if f(pc[t]) then 1 else 0) + (if f(p) then 1 else 0)
  {
    HavingUpdate(pc, t, p, f);
    WithOrWithout(Having(pc, f), t);
    WithOrWithout(Having(pc[t := p], f), t);
  }

  lemma HavingUpdate(pc: map<Tid, Pc>, t: Tid, p: Pc, f: Pc -> bool)
    requires t in pc
    ensures Having(pc, f) - {t} == Having(pc[t := p], f) - {t}
    ensures (t in Having(pc, f) <==> f(pc[t])) && (t in Having(pc[t := p], f) <==> f(p))
  {
  }

  lemma WithOrWithout(a: set<Tid>, t: Tid)
    ensures |a| == |a - {t}| + if t in a then 1 else 0
  {
    if t in a { assert a == (a - {t}) + {t}; } else { assert a == a - {t}; }
  }

  /** The same when t wakes another thread, if any, and is done. */
  lemma CountWake(pc: map<Tid, Pc>, wake: Option<Tid>, t: Tid, f: Pc -> bool)
    requires t in pc && !f(Idle) && (wake.Some? ==> wake.value in pc && wake.value != t)
    ensures Count(Wake(pc, wake)[t := Idle], f)
      == Count(pc, f) - (if f(pc[t]) then 1 else 0)
         + (if wake.None? then 0
            else (if f(Woken(pc[wake.value])) then 1 else 0) - (if f(pc[wake.value]) then 1 else 0))
  {
    hide Count, Woken;
    if wake.Some? { CountUpdate(pc, wake.value, Woken(pc[wake.value]), f); }
    CountUpdate(Wake(pc, wake), t, Idle, f);
  }

  /** Steps that neither move items nor wake anyone. */
  predicate Quiet(step: Step) {
    !step.Enqueue? && !step.Dequeue? && !step.NotifyPop? && !step.NotifyAllPush? && !step.NotifyAllPop?
  }

  /** One thread moves from p to p'. A consumer falls asleep, or gives up a wakeup, only when
      the queue is empty; a producer, only when it is full. */
  ghost predicate QuietMove(s: State, p: Pc, p': Pc) {
    && ((p'.PopAsleep? && !p.PopAsleep?) || (HelpsPop()(p) && !HelpsPop()(p')) ==> s.q == [])
    && ((p'.PushAsleep? && !p.PushAsleep?) || (HelpsPush()(p) && !HelpsPush()(p')) ==> !Room(s))
  }

  lemma QuietEffect(s: State, step: Step) returns (p': Pc)
    requires AllLocal(s) && Enabled(s, step) && Quiet(step)
    ensures step.t in s.pc
    ensures var s' := Do(s, step);
      s'.q == s.q && s'.capacity == s.capacity && s'.pc == s.pc[step.t := p'] &&
      (!s'.closed ==> !s.closed && QuietMove(s, s.pc[step.t], p'))
  {
    p' := Do(s, step).pc[step.t];
    assert Local(s, s.pc[step.t]);
  }

  lemma WakeupsQuiet(s: State, step: Step)
    requires AllLocal(s) && Wakeups(s) && Enabled(s, step) && Quiet(step)
    ensures Wakeups(Do(s, step))
  {
    hide Count, Do, Enabled, AllLocal, HelpsPop, HelpsPush;
    var p' := QuietEffect(s, step);
    CountUpdate(s.pc, step.t, p', HelpsPop());
    CountUpdate(s.pc, step.t, p', HelpsPush());
  }

  lemma EnqueueEffect(s: State, step: Step)
    requires AllLocal(s) && Enabled(s, step) && step.Enqueue?
    ensures step.t in s.pc && s.pc[step.t].PushPassed?
    ensures var s' := Do(s, step);
      |s'.q| == |s.q| + 1 && s'.capacity == s.capacity && s'.closed == s.closed && s'.pc == s.pc[step.t := PushNotify]
  {
  }

  lemma WakeupsEnqueue(s: State, step: Step)
    requires AllLocal(s) && Wakeups(s) && Enabled(s, step) && step.Enqueue?
    ensures Wakeups(Do(s, step))
  {
    hide Count, Do, Enabled, AllLocal;
    EnqueueEffect(s, step);
    CountUpdate(s.pc, step.t, PushNotify, HelpsPop());
    CountUpdate(s.pc, step.t, PushNotify, HelpsPush());
  }

  /** notify_one by t: the woken thread helps from now on, and if there is none, nobody sleeps. */
  lemma NotifyPopEffect(s: State, step: Step)
    requires Enabled(s, step) && step.NotifyPop?
    ensures step.t in s.pc && s.pc[step.t] == PushNotify
    ensures var s' := Do(s, step);
      && s'.q == s.q && s'.capacity == s.capacity && s'.closed == s.closed
      && s'.pc == Wake(s.pc, step.wake)[step.t := Idle]
    ensures match step.wake
            case Some(u) => u in s.pc && u != step.t && s.pc[u].PopAsleep?
            case None => !SomePopAsleep(s.pc)
  {
  }

  lemma WakeupsNotifyPop(s: State, step: Step)
    requires Wakeups(s) && Enabled(s, step) && step.NotifyPop?
    ensures Wakeups(Do(s, step))
  {
    hide Count, Do, Enabled;
    NotifyPopEffect(s, step);
    CountWake(s.pc, step.wake, step.t, HelpsPop());
    CountWake(s.pc, step.wake, step.t, HelpsPush());
  }

  lemma DequeueEffect(s: State, step: Step)
    requires AllLocal(s) && Enabled(s, step) && step.Dequeue?
    ensures step.t in s.pc && s.pc[step.t].PopPassed?
    ensures var s' := Do(s, step);
      && |s'.q| == |s.q| - 1 && s'.capacity == s.capacity && s'.closed == s.closed
      && s'.pc == Wake(s.pc, step.wake)[step.t := Idle]
    ensures match step.wake
            case Some(u) => u in s.pc && u != step.t && s.pc[u].PushAsleep?
            case None => !SomePushAsleep(s.pc)
  {
    assert Local(s, s.pc[step.t]);
  }

  lemma WakeupsDequeue(s: State, step: Step)
    requires AllLocal(s) && Wakeups(s) && Enabled(s, step) && step.Dequeue?
    ensures Wakeups(Do(s, step))
  {
    hide Count, Do, Enabled, AllLocal;
    DequeueEffect(s, step);
    CountWake(s.pc, step.wake, step.t, HelpsPop());
    CountWake(s.pc, step.wake, step.t, HelpsPush());
  }

  /** Every step of every thread keeps the invariant. */
  lemma StepKeepsInv(s: State, step: Step)
    requires Inv(s) && Enabled(s, step)
    ensures Inv(Do(s, step))
  {
    hide Exclusive, AllLocal, Contents, Wakeups;
    ExclusiveKept(s, step);
    LocalKept(s, step);
    ContentsKept(s, step);
    match step
    case Enqueue(_) => WakeupsEnqueue(s, step);
    case NotifyPop(_, _) => WakeupsNotifyPop(s, step);
    case Dequeue(_, _) => WakeupsDequeue(s, step);
    case NotifyAllPush(_) => ClosedNeedsNone(s, step);
    case NotifyAllPop(_) => ClosedNeedsNone(s, step);
    case _ => WakeupsQuiet(s, step);
  }

  lemma ClosedNeedsNone(s: State, step: Step)
    requires AllLocal(s) && Enabled(s, step) && (step.NotifyAllPush? || step.NotifyAllPop?)
    ensures Wakeups(Do(s, step))
  {
    assert Local(s, s.pc[step.t]);
  }

  // ----- whole runs -----

  ghost predicate IsRun(states: seq<State>, steps: seq<Step>) {
    && |states| == |steps| + 1
    && forall i :: 0 <= i < |steps| ==> Enabled(states[i], steps[i]) && states[i + 1] == Do(states[i], steps[i])
  }

  /** In every run from an empty queue, with any threads and any interleaving, everything
      popped and still queued is what was pushed, in order; the capacity is respected; nobody
      takes from an empty queue; and no wakeup is lost. */
  lemma {:induction false} RunInv(states: seq<State>, steps: seq<Step>, capacity: int, threads: set<Tid>, n: nat)
    requires IsRun(states, steps) && states[0] == Initial(capacity, threads) && n < |states|
    ensures Inv(states[n])
  {
    hide Inv;
    if n == 0 {
      InitialInv(capacity, threads);
    } else {
      RunInv(states, steps, capacity, threads, n - 1);
      StepKeepsInv(states[n - 1], steps[n - 1]);
    }
  }

  /** Before Close, a consumer is not left blocked beside an item, nor a producer beside a free
      slot, without a thread on its way to put that right. */
  lemma NobodyForgotten(s: State)
    requires Inv(s) && !s.closed
    ensures SomePopAsleep(s.pc) && s.q != [] ==> exists t :: t in s.pc && HelpsPop()(s.pc[t])
    ensures SomePushAsleep(s.pc) && 0 < s.capacity && |s.q| < s.capacity ==>
      exists t :: t in s.pc && HelpsPush()(s.pc[t])
  {
    if SomePopAsleep(s.pc) && s.q != [] {
      var t :| t in Having(s.pc, HelpsPop());
    }
    if SomePushAsleep(s.pc) && 0 < s.capacity && |s.q| < s.capacity {
      var t :| t in Having(s.pc, HelpsPush());
    }
  }

  /** Whoever is about to block has found the queue full or empty; an unbounded queue blocks no
      producer. */
  lemma BlocksOnlyThen(s: State, t: Tid)
    requires Inv(s) && t in s.pc
    ensures s.pc[t].PushSleepy? ==> 0 < s.capacity && |s.q| == s.capacity
    ensures s.pc[t].PushAsleep? ==> 0 < s.capacity
    ensures s.pc[t].PopSleepy? ==> s.q == []
  {
    assert Local(s, s.pc[t]);
  }

  // ----- what a call does -----

  datatype Call = NoCall | PushCall(v: int) | PopCall | TryPopCall | CloseCall

  /** The last call that t has made. */
  function LastCall(steps: seq<Step>, t: Tid): Call {
    if steps == [] then NoCall else
      match steps[|steps| - 1]
      case CallPush(u, v) => if u == t then PushCall(v) else LastCall(steps[..|steps| - 1], t)
      case CallPop(u) => if u == t then PopCall else LastCall(steps[..|steps| - 1], t)
      case CallTryPop(u) => if u == t then TryPopCall else LastCall(steps[..|steps| - 1], t)
      case CallClose(u) => if u == t then CloseCall else LastCall(steps[..|steps| - 1], t)
      case _ => LastCall(steps[..|steps| - 1], t)
  }

  /** A thread at p is in a call of this kind, in Push with this argument. */
  predicate Serves(p: Pc, call: Call) {
    match p
    case Idle => true
    case PushWant(v, _) => call == PushCall(v)
    case PushSleepy(v) => call == PushCall(v)
    case PushAsleep(v) => call == PushCall(v)
    case PushReady(v, _) => call == PushCall(v)
    case PushPassed(v, _) => call == PushCall(v)
    case PushNotify => call.PushCall?
    case PopWant(_) => call == PopCall
    case PopSleepy => call == PopCall
    case PopAsleep => call == PopCall
    case TryWant => call == TryPopCall
    case PopReady(_) => call == PopCall || call == TryPopCall
    case PopPassed(_) => call == PopCall || call == TryPopCall
    case ClosePush => call == CloseCall
    case ClosePop => call == CloseCall
  }

  lemma StepServes(s: State, step: Step, steps: seq<Step>, t: Tid)
    requires Enabled(s, step) && t in s.pc && Serves(s.pc[t], LastCall(steps, t))
    ensures t in Do(s, step).pc && Serves(Do(s, step).pc[t], LastCall(steps + [step], t))
  {
    assert (steps + [step])[..|steps|] == steps;
  }

  lemma {:induction false} RunServes(states: seq<State>, steps: seq<Step>, capacity: int, threads: set<Tid>,
                                     n: nat, t: Tid)
    requires IsRun(states, steps) && states[0] == Initial(capacity, threads) && n < |states| && t in threads
    ensures t in states[n].pc && Serves(states[n].pc[t], LastCall(steps[..n], t))
  {
    hide Enabled, Do, Serves, LastCall;
    if n == 0 {
      FreshServes(capacity, threads, steps, t);
    } else {
      RunServes(states, steps, capacity, threads, n - 1, t);
      StepServes(states[n - 1], steps[n - 1], steps[..n - 1], t);
      assert steps[..n] == steps[..n - 1] + [steps[n - 1]];
    }
  }

  lemma FreshServes(capacity: int, threads: set<Tid>, steps: seq<Step>, t: Tid)
    requires t in threads
    ensures t in Initial(capacity, threads).pc && Serves(Initial(capacity, threads).pc[t], LastCall(steps[..0], t))
  {
  }

  /** In every run: what Push puts into the queue is its argument, however long it was blocked. */
  lemma PushesArgument(states: seq<State>, steps: seq<Step>, capacity: int, threads: set<Tid>, n: nat, t: Tid)
    requires IsRun(states, steps) && states[0] == Initial(capacity, threads) && n < |steps| && t in threads
    requires steps[n] == Enqueue(t)
    ensures LastCall(steps[..n], t).PushCall?
    ensures states[n + 1].pushed == states[n].pushed + [LastCall(steps[..n], t).v]
  {
    RunServes(states, steps, capacity, threads, n, t);
  }

  /** In every run: TryPop never blocks. */
  lemma TryPopNeverBlocks(states: seq<State>, steps: seq<Step>, capacity: int, threads: set<Tid>, n: nat, t: Tid)
    requires IsRun(states, steps) && states[0] == Initial(capacity, threads) && n < |states| && t in threads
    requires LastCall(steps[..n], t) == TryPopCall
    ensures t in states[n].pc && !GoesToPopSleep(states[n].pc[t]) && !GoesToPushSleep(states[n].pc[t])
  {
    RunServes(states, steps, capacity, threads, n, t);
  }

  // ----- after Close -----

  /** A thread that has read closed_ as false and is about to push or pop. */
  predicate Passed(p: Pc) { p.PushPassed? || p.PopPassed? }

  predicate SomePassed(s: State) { s.mutex.Some? && s.mutex.value in s.pc && Passed(s.pc[s.mutex.value]) }

  /** Items moved so far. */
  function Moves(s: State): nat { |s.pushed| + |s.popped| }

  function MovesDue(s: State): nat { if SomePassed(s) then 1 else 0 }

  lemma StepAfterClose(s: State, step: Step)
    requires Exclusive(s) && AllLocal(s) && s.closed && Enabled(s, step)
    ensures Do(s, step).closed && Moves(s) <= Moves(Do(s, step))
    ensures Moves(Do(s, step)) + MovesDue(Do(s, step)) == Moves(s) + MovesDue(s)
  {
    assert Local(s, s.pc[step.t]);
    assert Holding(s.pc[step.t]) <==> s.mutex == Some(step.t);
  }

  /** After Close, what has moved and what is due to move add up to the same in every state. */
  lemma {:induction false} AfterClose(states: seq<State>, steps: seq<Step>, m: nat, n: nat)
    requires IsRun(states, steps) && m <= n < |states| && Inv(states[m]) && states[m].closed
    ensures states[n].closed && Inv(states[n]) && Moves(states[m]) <= Moves(states[n])
    ensures Moves(states[n]) + MovesDue(states[n]) == Moves(states[m]) + MovesDue(states[m])
  {
    hide Exclusive, AllLocal, Contents, Wakeups, MovesDue, Moves;
    if m < n {
      AfterClose(states, steps, m, n - 1);
      StepAfterClose(states[n - 1], steps[n - 1]);
      StepKeepsInv(states[n - 1], steps[n - 1]);
    }
  }

  ghost predicate Leads(s: State, step: Step, s': State) { Enabled(s, step) && s' == Do(s, step) }

  lemma SomeoneToWake(s: State, blocked: Pc -> bool) returns (wake: Option<Tid>)
    ensures WakesOne(s, wake, blocked)
  {
    if u :| u in s.pc && blocked(s.pc[u]) { wake := Some(u); } else { wake := None; }
  }

  /** A thread that has passed the test can always make its move. */
  lemma DueMoves(s: State) returns (step: Step)
    requires AllLocal(s) && SomePassed(s)
    ensures Enabled(s, step) && Moves(Do(s, step)) == Moves(s) + 1
  {
    var t := s.mutex.value;
    assert Local(s, s.pc[t]);
    if s.pc[t].PushPassed? {
      step := Enqueue(t);
    } else {
      var wake := SomeoneToWake(s, (c: Pc) => c.PushAsleep?);
      step := Dequeue(t, wake);
    }
  }

  /** In some continuation of s the state s' is reached. */
  ghost predicate Reaches(s: State, s': State) {
    exists states: seq<State>, steps: seq<Step> ::
      IsRun(states, steps) && states[0] == s && states[|steps|] == s'
  }

  lemma OneStep(s: State, step: Step)
    requires Enabled(s, step)
    ensures Reaches(s, Do(s, step))
  {
    var states, steps := [s, Do(s, step)], [step];
    assert IsRun(states, steps) && states[0] == s && states[|steps|] == Do(s, step);
  }

  /** From a state after Close, an item can still enter or leave if and only if a thread holds
      the mutex and has already read closed_ as false; and then never more than one. */
  lemma LateMoveIff(s: State)
    requires Inv(s) && s.closed
    ensures (exists s' :: Reaches(s, s') && Moves(s') != Moves(s)) <==> SomePassed(s)
    ensures forall s' :: Reaches(s, s') ==> Moves(s) <= Moves(s') <= Moves(s) + 1
  {
    hide Exclusive, AllLocal, Contents, Wakeups, Moves, SomePassed;
    forall s' | Reaches(s, s') ensures Moves(s) <= Moves(s') && Moves(s') + MovesDue(s') == Moves(s) + MovesDue(s) {
      var states, steps :| IsRun(states, steps) && states[0] == s && states[|steps|] == s';
      AfterClose(states, steps, 0, |steps|);
    }
    if SomePassed(s) {
      var step := DueMoves(s);
      OneStep(s, step);
      assert Moves(Do(s, step)) != Moves(s);
    }
  }

  /** A producer has the mutex and has read closed_ as false. */
  function AboutToPush(): State {
    Initial(0, {0, 1}).(mutex := Some(0), pc := map[0 := PushPassed(7, false), 1 := Idle])
  }

  lemma ToAboutToPush(s1: State, s2: State)
    requires s1 == Initial(0, {0, 1}).(pc := map[0 := PushWant(7, false), 1 := Idle])
    requires s2 == s1.(mutex := Some(0), pc := map[0 := PushReady(7, false), 1 := Idle])
    ensures Leads(Initial(0, {0, 1}), CallPush(0, 7), s1) && Leads(s1, TestRoom(0), s2)
    ensures Leads(s2, ReadClosedPush(0), AboutToPush())
  {
    assert Do(Initial(0, {0, 1}), CallPush(0, 7)).pc == s1.pc;
    assert Do(s1, TestRoom(0)).pc == s2.pc;
    assert Do(s2, ReadClosedPush(0)).pc == AboutToPush().pc;
  }

  lemma PushedAfterClose(s4: State, s5: State)
    requires s4 == AboutToPush().(closed := true, pc := map[0 := PushPassed(7, false), 1 := ClosePush])
    requires s5 == s4.(q := [7], pushed := [7], mutex := None, pc := map[0 := PushNotify, 1 := ClosePush])
    ensures Leads(AboutToPush(), CallClose(1), s4) && Leads(s4, Enqueue(0), s5)
  {
    assert Do(AboutToPush(), CallClose(1)).pc == s4.pc;
    assert Do(s4, Enqueue(0)).pc == s5.pc;
  }

  /** Close promises no quiet: a push that has read closed_ as false goes through after it. */
  lemma LatePush() returns (states: seq<State>, steps: seq<Step>)
    ensures IsRun(states, steps) && states[0] == Initial(0, {0, 1})
    ensures |states| == 6 && states[4].closed && states[4].q == [] && states[5].q == [7]
  {
    hide Do, Enabled;
    steps := [CallPush(0, 7), TestRoom(0), ReadClosedPush(0), CallClose(1), Enqueue(0)];
    var s0, s3 := Initial(0, {0, 1}), AboutToPush();
    var s1 := s0.(pc := map[0 := PushWant(7, false), 1 := Idle]);
    var s2 := s1.(mutex := Some(0), pc := map[0 := PushReady(7, false), 1 := Idle]);
    var s4 := s3.(closed := true, pc := map[0 := PushPassed(7, false), 1 := ClosePush]);
    var s5 := s4.(q := [7], pushed := [7], mutex := None, pc := map[0 := PushNotify, 1 := ClosePush]);
    ToAboutToPush(s1, s2);
    PushedAfterClose(s4, s5);
    states := [s0, s1, s2, s3, s4, s5];
  }

  /** A consumer has the mutex and found the queue empty. */
  function Falling(): State { Initial(0, {0, 1}).(mutex := Some(0), pc := map[0 := PopSleepy, 1 := Idle]) }

  lemma ToFalling(s1: State)
    requires s1 == Initial(0, {0, 1}).(pc := map[0 := PopWant(false), 1 := Idle])
    ensures Leads(Initial(0, {0, 1}), CallPop(0), s1) && Leads(s1, TestItems(0), Falling())
  {
    assert Do(Initial(0, {0, 1}), CallPop(0)).pc == s1.pc;
    assert Do(s1, TestItems(0)).pc == Falling().pc;
  }

  lemma ClosedMeanwhile(s3: State, s4: State, s5: State, s6: State)
    requires s3 == Falling().(closed := true, pc := map[0 := PopSleepy, 1 := ClosePush])
    requires s4 == s3.(pc := map[0 := PopSleepy, 1 := ClosePop]) && s5 == s3.(pc := map[0 := PopSleepy, 1 := Idle])
    requires s6 == s5.(mutex := None, pc := map[0 := PopAsleep, 1 := Idle])
    ensures Leads(Falling(), CallClose(1), s3) && Leads(s3, NotifyAllPush(1), s4)
    ensures Leads(s4, NotifyAllPop(1), s5) && Leads(s5, BlockPop(0), s6)
  {
    assert Do(Falling(), CallClose(1)).pc == s3.pc;
    assert Do(s3, NotifyAllPush(1)).pc == s4.pc;
    assert Do(s4, NotifyAllPop(1)).pc == s5.pc;
    assert Do(s5, BlockPop(0)).pc == s6.pc;
  }

  /** Nor does it promise to wake everyone: a consumer between its test and its sleep misses
      both notifications. */
  lemma MissedClose() returns (states: seq<State>, steps: seq<Step>)
    ensures IsRun(states, steps) && states[0] == Initial(0, {0, 1})
    ensures |states| == 7 && states[6].closed && states[6].pc == map[0 := PopAsleep, 1 := Idle]
  {
    hide Do, Enabled;
    steps := [CallPop(0), TestItems(0), CallClose(1), NotifyAllPush(1), NotifyAllPop(1), BlockPop(0)];
    var s0, s2 := Initial(0, {0, 1}), Falling();
    var s1 := s0.(pc := map[0 := PopWant(false), 1 := Idle]);
    var s3 := s2.(closed := true, pc := map[0 := PopSleepy, 1 := ClosePush]);
    var s4 := s3.(pc := map[0 := PopSleepy, 1 := ClosePop]);
    var s5 := s3.(pc := map[0 := PopSleepy, 1 := Idle]);
    var s6 := s5.(mutex := None, pc := map[0 := PopAsleep, 1 := Idle]);
    ToFalling(s1);
    ClosedMeanwhile(s3, s4, s5, s6);
    states := [s0, s1, s2, s3, s4, s5, s6];
  }

  // ----- who stays blocked after Close -----

  /** On the way to sleep, or asleep, on cv_pop_. */
  predicate GoesToPopSleep(p: Pc) { p.PopSleepy? || p.PopAsleep? }

  predicate GoesToPushSleep(p: Pc) { p.PushSleepy? || p.PushAsleep? }

  /** Once closed_ is set, no thread sets out to sleep any more. */
  lemma NobodySetsOut(s: State, step: Step, t: Tid)
    requires Exclusive(s) && s.closed && Enabled(s, step) && t in Do(s, step).pc
    ensures t in s.pc
    ensures GoesToPopSleep(Do(s, step).pc[t]) ==> GoesToPopSleep(s.pc[t])
    ensures GoesToPushSleep(Do(s, step).pc[t]) ==> GoesToPushSleep(s.pc[t])
    ensures Do(s, step).pc[t].PopSleepy? ==> s.pc[t].PopSleepy?
    ensures Do(s, step).pc[t].PushSleepy? ==> s.pc[t].PushSleepy?
  {
  }

  lemma {:induction false} NobodySetsOutLater(states: seq<State>, steps: seq<Step>, m: nat, n: nat, t: Tid)
    requires IsRun(states, steps) && m <= n < |states| && Inv(states[m]) && states[m].closed
    requires t in states[n].pc
    ensures t in states[m].pc
    ensures GoesToPopSleep(states[n].pc[t]) ==> GoesToPopSleep(states[m].pc[t])
    ensures GoesToPushSleep(states[n].pc[t]) ==> GoesToPushSleep(states[m].pc[t])
    ensures states[n].pc[t].PopSleepy? ==> states[m].pc[t].PopSleepy?
    ensures states[n].pc[t].PushSleepy? ==> states[m].pc[t].PushSleepy?
  {
    hide Contents, AllLocal, Wakeups, Do, Enabled, GoesToPopSleep, GoesToPushSleep;
    if m < n {
      AfterClose(states, steps, m, n - 1);
      NobodySetsOut(states[n - 1], steps[n - 1], t);
      NobodySetsOutLater(states, steps, m, n - 1, t);
    }
  }

  lemma AllPopWoken(s: State, step: Step, t: Tid)
    requires Inv(s) && Enabled(s, step) && step.NotifyAllPop? && t in s.pc
    ensures var s' := Do(s, step);
      Inv(s') && s'.closed && t in s'.pc && !s'.pc[t].PopAsleep? &&
      (s'.pc[t].PopSleepy? <==> s.pc[t].PopSleepy?) && s'.mutex == s.mutex
  {
    StepKeepsInv(s, step);
    assert Local(s, s.pc[step.t]);
  }

  lemma AllPushWoken(s: State, step: Step, t: Tid)
    requires Inv(s) && Enabled(s, step) && step.NotifyAllPush? && t in s.pc
    ensures var s' := Do(s, step);
      Inv(s') && s'.closed && t in s'.pc && !s'.pc[t].PushAsleep? &&
      (s'.pc[t].PushSleepy? <==> s.pc[t].PushSleepy?) && s'.mutex == s.mutex
  {
    StepKeepsInv(s, step);
    assert Local(s, s.pc[step.t]);
  }

  /** A consumer that has found the queue empty goes on to sleep, whatever happens meanwhile. */
  lemma BlockPopStep(s: State, t: Tid)
    requires t in s.pc && s.pc[t].PopSleepy?
    ensures Enabled(s, BlockPop(t)) && t in Do(s, BlockPop(t)).pc && Do(s, BlockPop(t)).pc[t].PopAsleep?
  {
  }

  lemma BlockPushStep(s: State, t: Tid)
    requires t in s.pc && s.pc[t].PushSleepy?
    ensures Enabled(s, BlockPush(t)) && t in Do(s, BlockPush(t)).pc && Do(s, BlockPush(t)).pc[t].PushAsleep?
  {
  }

  /** In every run: a thread that is a blocked consumer at any time after Close has notified them
      was about to sleep, with the mutex, when it did; so there is at most one. */
  lemma BlockedConsumer(states: seq<State>, steps: seq<Step>, m: nat, n: nat, t: Tid)
    requires IsRun(states, steps) && m < n < |states| && Inv(states[m]) && steps[m].NotifyAllPop?
    requires t in states[n].pc && states[n].pc[t].PopAsleep?
    ensures t in states[m].pc && states[m].pc[t].PopSleepy? && states[m].mutex == Some(t)
  {
    hide Contents, Wakeups, Do, Enabled;
    var s := states[m];
    StepKeepsInv(s, steps[m]);
    ClosedAtNotify(s, steps[m]);
    NobodySetsOutLater(states, steps, m + 1, n, t);
    NobodySetsOut(s, steps[m], t);
    AllPopWoken(s, steps[m], t);
  }

  lemma BlockedProducer(states: seq<State>, steps: seq<Step>, m: nat, n: nat, t: Tid)
    requires IsRun(states, steps) && m < n < |states| && Inv(states[m]) && steps[m].NotifyAllPush?
    requires t in states[n].pc && states[n].pc[t].PushAsleep?
    ensures t in states[m].pc && states[m].pc[t].PushSleepy? && states[m].mutex == Some(t)
  {
    hide Contents, Wakeups, Do, Enabled;
    var s := states[m];
    StepKeepsInv(s, steps[m]);
    ClosedAtNotify(s, steps[m]);
    NobodySetsOutLater(states, steps, m + 1, n, t);
    NobodySetsOut(s, steps[m], t);
    AllPushWoken(s, steps[m], t);
  }

  lemma ClosedAtNotify(s: State, step: Step)
    requires AllLocal(s) && Enabled(s, step) && (step.NotifyAllPop? || step.NotifyAllPush?)
    ensures s.closed && Do(s, step).closed
  {
    assert Local(s, s.pc[step.t]);
  }

  predicate AsleepPop(s: State, t: Tid) { t in s.pc && s.pc[t].PopAsleep? }

  predicate AsleepPush(s: State, t: Tid) { t in s.pc && s.pc[t].PushAsleep? }

  /** In some continuation of s, the thread c notifies all consumers, and t is a blocked consumer
      at the end. */
  ghost predicate MissesPopNotice(s: State, c: Tid, t: Tid) {
    exists states, steps :: IsRun(states, steps) && states[0] == s && NotifyAllPop(c) in steps &&
      AsleepPop(states[|steps|], t)
  }

  ghost predicate MissesPushNotice(s: State, c: Tid, t: Tid) {
    exists states, steps :: IsRun(states, steps) && states[0] == s && NotifyAllPush(c) in steps &&
      AsleepPush(states[|steps|], t)
  }

  /** The states of a Close by c alone, after which t, about to sleep before it, goes to sleep. */
  lemma CloseAround(s: State, c: Tid, t: Tid) returns (s1: State, s2: State, s3: State)
    requires Inv(s) && Enabled(s, CallClose(c)) && t in s.pc && (s.pc[t].PopSleepy? || s.pc[t].PushSleepy?)
    ensures Leads(s, CallClose(c), s1) && Leads(s1, NotifyAllPush(c), s2) && Leads(s2, NotifyAllPop(c), s3)
    ensures Inv(s1) && s1.closed && t in s2.pc && t in s3.pc && s.pc[t] == s2.pc[t] == s3.pc[t]
  {
    StepKeepsInv(s, CallClose(c));
    s1 := Do(s, CallClose(c));
    s2 := Do(s1, NotifyAllPush(c));
    s3 := Do(s2, NotifyAllPop(c));
  }

  /** A Close by c can leave the consumer t blocked, although it notifies all consumers, if and
      only if at the call t has found the queue empty and holds the mutex, but does not sleep
      yet. So there is at most one such t, and none if no consumer is between test and sleep. */
  lemma CloseMissesConsumerIff(s: State, c: Tid, t: Tid)
    requires Inv(s) && Enabled(s, CallClose(c)) && t in s.pc
    ensures MissesPopNotice(Do(s, CallClose(c)), c, t) <==> s.pc[t].PopSleepy?
    ensures s.pc[t].PopSleepy? ==> s.mutex == Some(t)
  {
    hide Contents, AllLocal, Wakeups, Do, Enabled;
    StepKeepsInv(s, CallClose(c));
    var s1 := Do(s, CallClose(c));
    ClosedByCall(s, c, t);
    if s.pc[t].PopSleepy? {
      var r1, s2, s3 := CloseAround(s, c, t);
      BlockPopStep(s3, t);
      var states, steps := [s1, s2, s3, Do(s3, BlockPop(t))], [NotifyAllPush(c), NotifyAllPop(c), BlockPop(t)];
      assert IsRun(states, steps) && states[0] == s1 && steps[1] == NotifyAllPop(c);
    }
    if MissesPopNotice(s1, c, t) {
      var states, steps :|
        IsRun(states, steps) && states[0] == s1 && NotifyAllPop(c) in steps && AsleepPop(states[|steps|], t);
      var k :| 0 <= k < |steps| && steps[k] == NotifyAllPop(c);
      AfterClose(states, steps, 0, k);
      BlockedConsumer(states, steps, k, |steps|, t);
      NobodySetsOutLater(states, steps, 0, k, t);
    }
  }

  lemma ClosedByCall(s: State, c: Tid, t: Tid)
    requires Enabled(s, CallClose(c)) && t in s.pc
    ensures var s1 := Do(s, CallClose(c));
      s1.closed && t in s1.pc && (s1.pc[t].PopSleepy? <==> s.pc[t].PopSleepy?) &&
        (s1.pc[t].PushSleepy? <==> s.pc[t].PushSleepy?)
  {
  }

  /** The same for a producer that has found no room. */
  lemma CloseMissesProducerIff(s: State, c: Tid, t: Tid)
    requires Inv(s) && Enabled(s, CallClose(c)) && t in s.pc
    ensures MissesPushNotice(Do(s, CallClose(c)), c, t) <==> s.pc[t].PushSleepy?
    ensures s.pc[t].PushSleepy? ==> s.mutex == Some(t)
  {
    hide Contents, AllLocal, Wakeups, Do, Enabled;
    StepKeepsInv(s, CallClose(c));
    var s1 := Do(s, CallClose(c));
    ClosedByCall(s, c, t);
    if s.pc[t].PushSleepy? {
      var r1, s2, s3 := CloseAround(s, c, t);
      BlockPushStep(s2, t);
      var states, steps := [s1, s2, Do(s2, BlockPush(t))], [NotifyAllPush(c), BlockPush(t)];
      assert IsRun(states, steps) && states[0] == s1 && steps[0] == NotifyAllPush(c);
    }
    if MissesPushNotice(s1, c, t) {
      var states, steps :|
        IsRun(states, steps) && states[0] == s1 && NotifyAllPush(c) in steps && AsleepPush(states[|steps|], t);
      var k :| 0 <= k < |steps| && steps[k] == NotifyAllPush(c);
      AfterClose(states, steps, 0, k);
      BlockedProducer(states, steps, k, |steps|, t);
      NobodySetsOutLater(states, steps, 0, k, t);
    }
  }
}
