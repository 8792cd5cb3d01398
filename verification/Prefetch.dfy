/** The prefetching reader as a protocol between the caller of next_line and the worker
    thread, in every interleaving. Everything done under the mutex without waiting is one
    step; the worker keeps the mutex while it reads, byte by byte; the caller copies the third
    block, byte by byte, without the mutex. Of the window the positions are kept; its lines may
    end anywhere. */
module Prefetch {
  import opened Integers

  datatype Client =
    | Idle              // outside the reader, with a read requested
    | Finishing         // in finish_read, about to test for a finished or failed read
    | FinishAsleep      // in finish_read, waiting to be notified
    | Copying(k: nat)   // finish_read has returned; k bytes of the third block are copied
    | Restarting        // about to call start_read
    | Joining           // the destructor has requested termination and joins the worker

  datatype Worker =
    | Checking          // about to test for a request
    | Asleep            // waiting to be notified of a request
    | Reading(k: nat)   // k bytes are read into the third block
    | Exited

  datatype State = State(
    client: Client, worker: Worker,
    desired: int, readCount: int, error: bool, terminate: bool,
    dataBegin: int, dataEnd: int,
    rest: string,             // what the byte source still has
    third: string,            // the block the worker writes
    second: string,           // the block the caller copies it to
    handed: seq<string>)      // what each finish_read so far has returned

  datatype Step =
    | TakeLine(lineEnd: int)
    | CallFinish | TestFinished | FinishWakes | CopyByte | CopyDone | CallStart | Terminate
    | TestRequest | RequestWakes | ReadByte | ReadDone | ReadFails

  /** The worker holds the mutex. */
  predicate Locked(s: State) { s.worker.Reading? }

  /** The last finish_read has returned 0. */
  predicate Ended(s: State) { s.handed != [] && s.handed[|s.handed| - 1] == "" }

  predicate Enabled(s: State, step: Step, b: nat) {
    match step
    case TakeLine(lineEnd) =>                              // next_line with its window in place
      s.client == Idle && s.dataBegin < b && s.dataBegin < s.dataEnd &&
      s.dataBegin <= lineEnd <= s.dataEnd && lineEnd - s.dataBegin < b
    case CallFinish => s.client == Idle && b <= s.dataBegin && s.dataBegin != s.dataEnd
    case TestFinished => s.client == Finishing && !Locked(s)
    case FinishWakes => s.client == FinishAsleep           // a spurious wakeup
    case CopyByte => s.client.Copying? && s.client.k < b
    case CopyDone => s.client == Copying(b)
    case CallStart => s.client == Restarting && !Locked(s)
    case Terminate => s.client == Idle && !Locked(s)
    case TestRequest => s.worker == Checking
    case RequestWakes => s.worker == Asleep                // a spurious wakeup
    case ReadByte => s.worker.Reading? && s.worker.k < Min(b, |s.rest|)
    case ReadDone => s.worker.Reading? && s.worker.k == Min(b, |s.rest|)
    case ReadFails => s.worker.Reading?                    // the byte source throws
  }

  function Notified(w: Worker): Worker { if w == Asleep then Checking else w }

  ghost predicate WellFormed(s: State, b: nat) {
    |s.third| == b && |s.second| == b && -1 <= s.readCount <= b
  }

  function Do(s: State, step: Step, b: nat): State
    requires WellFormed(s, b) && Enabled(s, step, b)
  {
    match step
    case TakeLine(lineEnd) =>
      s.(dataBegin := lineEnd + 1, dataEnd := if lineEnd == s.dataEnd then s.dataEnd + 1 else s.dataEnd)
    case CallFinish => s.(client := Finishing, dataBegin := s.dataBegin - b, dataEnd := s.dataEnd - b)
    case TestFinished =>
      if s.error then s.(client := Idle)                   // rethrown through next_line
      else if s.readCount == -1 then s.(client := FinishAsleep)
      else s.(client := Copying(0), handed := s.handed + [s.third[..s.readCount]], dataEnd := s.dataEnd + s.readCount)
    case FinishWakes => s.(client := Finishing)
    case CopyByte => s.(client := Copying(s.client.k + 1), second := s.second[s.client.k := s.third[s.client.k]])
    case CopyDone => s.(client := Restarting)
    case CallStart => s.(client := Idle, desired := b, readCount := -1, worker := Notified(s.worker))
    case Terminate => s.(client := Joining, terminate := true, worker := Notified(s.worker))
    case TestRequest =>
      if s.terminate then s.(worker := Exited)
      else if s.desired != -1 then s.(worker := Reading(0))
      else s.(worker := Asleep)
    case RequestWakes => s.(worker := Checking)
    case ReadByte => s.(worker := Reading(s.worker.k + 1), third := s.third[s.worker.k := s.rest[s.worker.k]])
    case ReadDone =>
      var n := Min(b, |s.rest|);
      s.(worker := if n == 0 then Exited else Asleep, desired := -1, readCount := n, rest := s.rest[n..],
         client := if s.client == FinishAsleep then Finishing else s.client)
    case ReadFails =>
      s.(worker := Exited, error := true, client := if s.client == FinishAsleep then Finishing else s.client)
  }

  /** The state when LineReader.init has filled two blocks and is about to make its first
      start_read. */
  function Initial(content: string, third: string, second: string, begin: int, b: nat): State {
    State(Restarting, Checking, -1, -1, false, false, begin, 2 * b, content, third, second, [])
  }

  // ----- the synchronous reader -----

  /** What the byte source still has after k reads of b bytes, and what the next one returns. */
  function SyncRest(content: string, b: nat, k: nat): string {
    if k == 0 then content else
      var r := SyncRest(content, b, k - 1);
      r[Min(b, |r|)..]
  }

  function SyncRead(content: string, b: nat, k: nat): string {
    var r := SyncRest(content, b, k);
    r[..Min(b, |r|)]
  }

  /** These are the input's blocks, one after the other, and nothing from its end on. */
  lemma {:induction false} SyncReadIs(content: string, b: nat, k: nat)
    ensures SyncRest(content, b, k) == content[Min(k * b, |content|)..]
    ensures SyncRead(content, b, k) == content[Min(k * b, |content|)..Min(k * b + b, |content|)]
  {
    if k > 0 {
      SyncReadIs(content, b, k - 1);
      assert k * b == (k - 1) * b + b;
    }
    var n := Min(k * b, |content|);
    assert SyncRest(content, b, k) == content[n..];
    assert content[n..][..Min(b, |content| - n)] == content[n..Min(k * b + b, |content|)];
  }

  // ----- the invariant -----

  /** A read is finished whose bytes no finish_read has returned yet. */
  predicate Fetched(s: State) { s.readCount != -1 && !s.client.Copying? && !s.client.Restarting? }

  /** The number of reads the worker has finished. */
  function Reads(s: State): nat { |s.handed| + if Fetched(s) then 1 else 0 }

  ghost predicate Waiting(s: State) { s.client == Finishing || s.client == FinishAsleep }

  /** Who may be where: a request is outstanding exactly until its read is done; the worker
      reads only on request; it has exited only after termination, a failed read or one of no
      bytes. */
  ghost predicate Phases(s: State, b: nat) {
    && WellFormed(s, b) && 0 < b
    && (s.client.Copying? ==> s.client.k <= b)
    && (s.client.Copying? || s.client.Restarting? ==> s.desired == -1)
    && (s.client.Copying? ==> s.readCount != -1)
    && (!s.client.Copying? && !s.client.Restarting? ==>
      (s.readCount == -1 <==> s.desired == b) && (s.desired == -1 || s.desired == b))
    && (s.worker.Reading? ==> s.desired == b && s.readCount == -1 && s.worker.k <= Min(b, |s.rest|) && !s.terminate)
    && (s.worker == Asleep ==> s.desired == -1 && !s.terminate)
    && (s.worker == Exited ==>
      s.terminate || s.error || (s.rest == "" && (Ended(s) || (Fetched(s) && s.readCount == 0))))
    && (s.terminate <==> s.client == Joining)
    && (s.client == FinishAsleep ==> s.readCount == -1 && !s.error)
    && (s.error ==> s.worker == Exited && s.desired == b)
    && (Waiting(s) ==> !Ended(s))
  }

  /** The window stays within the first two blocks, and once a read has returned nothing, no
      line begins in the second. This is why finish_read is never called again. */
  ghost predicate Window(s: State, b: nat) {
    && 0 <= s.dataBegin <= s.dataEnd <= 2 * b
    && (Waiting(s) ==> s.dataBegin < s.dataEnd <= b)
    && (Ended(s) ==> s.dataEnd <= b || s.dataBegin == s.dataEnd)
  }

  /** The data: what has been returned is what the synchronous reader returns. */
  ghost predicate Data(s: State, content: string, b: nat) {
    && s.rest == SyncRest(content, b, Reads(s))
    && (forall k :: 0 <= k < |s.handed| ==> s.handed[k] == SyncRead(content, b, k))
    && (Fetched(s) ==> 0 <= s.readCount <= |s.third| && s.third[..s.readCount] == SyncRead(content, b, |s.handed|))
    && (s.worker.Reading? ==>
      s.worker.k <= Min(b, |s.rest|) && s.worker.k <= |s.third| && s.third[..s.worker.k] == s.rest[..s.worker.k])
    && (s.client.Copying? ==>
      s.handed != [] && 0 <= s.readCount <= |s.third| && s.handed[|s.handed| - 1] == s.third[..s.readCount])
    && (s.client.Copying? ==> s.client.k <= |s.second| == |s.third| && s.second[..s.client.k] == s.third[..s.client.k])
    && (s.client.Restarting? && s.handed != [] ==> s.handed[|s.handed| - 1] <= s.second)
  }

  /** By how much the blocks handed over fall short of full ones. */
  function Shortfall(handed: seq<string>, b: nat): int {
    if handed == [] then 0 else Shortfall(handed[..|handed| - 1], b) + b - |handed[|handed| - 1]|
  }

  /** Unless a read has failed, the window reaches to the end of what has been handed over: every
      byte handed over extends it, every slide moves it down by a block. Only the line that the
      input ends with, if it lacks its newline, takes it one further. */
  ghost predicate Reach(s: State, b: nat) {
    !s.error ==>
      var end := 2 * b - Shortfall(s.handed, b) - if Waiting(s) then b else 0;
      s.dataEnd == end || (s.dataEnd == end + 1 && s.dataBegin == s.dataEnd)
  }

  ghost predicate Inv(s: State, content: string, b: nat) {
    Phases(s, b) && Window(s, b) && Reach(s, b) && Data(s, content, b)
  }

  lemma InitialInv(content: string, third: string, second: string, begin: int, b: nat)
    requires 0 < b && |third| == |second| == b && 0 <= begin <= 2 * b
    ensures Inv(Initial(content, third, second, begin, b), content, b)
  {
  }

  lemma PhasesKept(s: State, step: Step, b: nat)
    requires Phases(s, b) && Window(s, b) && Enabled(s, step, b)
    ensures Phases(Do(s, step, b), b)
  {
  }

  lemma WindowKept(s: State, step: Step, b: nat)
    requires Phases(s, b) && Window(s, b) && Enabled(s, step, b)
    ensures Window(Do(s, step, b), b)
  {
  }

  lemma ReachKept(s: State, step: Step, b: nat)
    requires Phases(s, b) && Window(s, b) && Reach(s, b) && Enabled(s, step, b)
    ensures Reach(Do(s, step, b), b)
  {
    hide Shortfall;
    if step == TestFinished && !s.error && s.readCount != -1 { OneMoreBlock(s.handed, s.third[..s.readCount], b); }
  }

  lemma OneMoreBlock(handed: seq<string>, block: string, b: nat)
    ensures Shortfall(handed + [block], b) == Shortfall(handed, b) + b - |block|
  {
    assert (handed + [block])[..|handed|] == handed;
  }

  predicate MovesData(step: Step) {
    step.TestFinished? || step.CopyByte? || step.CopyDone? || step.ReadByte? || step.ReadDone?
  }

  lemma DataUntouched(s: State, step: Step, content: string, b: nat)
    requires Inv(s, content, b) && Enabled(s, step, b) && !MovesData(step)
    ensures Data(Do(s, step, b), content, b)
  {
    hide SyncRest, SyncRead;
  }

  lemma DataHanded(s: State, content: string, b: nat)
    requires Inv(s, content, b) && Enabled(s, TestFinished, b)
    ensures Data(Do(s, TestFinished, b), content, b)
  {
    hide SyncRest, SyncRead;
  }

  lemma DataCopied(s: State, content: string, b: nat)
    requires Inv(s, content, b) && Enabled(s, CopyByte, b)
    ensures Data(Do(s, CopyByte, b), content, b)
  {
    hide SyncRest, SyncRead;
  }

  lemma DataCopyDone(s: State, content: string, b: nat)
    requires Inv(s, content, b) && Enabled(s, CopyDone, b)
    ensures Data(Do(s, CopyDone, b), content, b)
  {
    hide SyncRest, SyncRead;
    assert s.third[..b] == s.third && s.second[..b] == s.second;
  }

  lemma DataReadByte(s: State, content: string, b: nat)
    requires Inv(s, content, b) && Enabled(s, ReadByte, b)
    ensures Data(Do(s, ReadByte, b), content, b)
  {
    hide SyncRest, SyncRead;
  }

  lemma DataReadDone(s: State, content: string, b: nat)
    requires Inv(s, content, b) && Enabled(s, ReadDone, b)
    ensures Data(Do(s, ReadDone, b), content, b)
  {
    var n := Min(b, |s.rest|);
    assert Reads(s) == |s.handed|;
    assert SyncRest(content, b, |s.handed| + 1) == s.rest[n..];
    assert SyncRead(content, b, |s.handed|) == s.rest[..n];
  }

  /** Every step of either thread keeps the invariant. */
  lemma StepKeepsInv(s: State, step: Step, content: string, b: nat)
    requires Inv(s, content, b) && Enabled(s, step, b)
    ensures Inv(Do(s, step, b), content, b)
  {
    hide Data, Phases, Window, Reach;
    PhasesKept(s, step, b);
    WindowKept(s, step, b);
    ReachKept(s, step, b);
    match step
    case TestFinished => DataHanded(s, content, b);
    case CopyByte => DataCopied(s, content, b);
    case CopyDone => DataCopyDone(s, content, b);
    case ReadByte => DataReadByte(s, content, b);
    case ReadDone => DataReadDone(s, content, b);
    case _ => DataUntouched(s, step, content, b);
  }

  // ----- whole runs -----

  ghost predicate IsRun(states: seq<State>, steps: seq<Step>, content: string, b: nat) {
    && |states| == |steps| + 1 && 0 < b
    && |states[0].third| == |states[0].second| == b
    && 0 <= states[0].dataBegin <= 2 * b
    && states[0] == Initial(content, states[0].third, states[0].second, states[0].dataBegin, b)
    && forall i :: 0 <= i < |steps| ==>
         WellFormed(states[i], b) && Enabled(states[i], steps[i], b) && states[i + 1] == Do(states[i], steps[i], b)
  }

  lemma {:induction false} RunInv(states: seq<State>, steps: seq<Step>, content: string, b: nat, n: nat)
    requires IsRun(states, steps, content, b) && n < |states|
    ensures Inv(states[n], content, b)
  {
    hide Inv;
    if n == 0 {
      InitialInv(content, states[0].third, states[0].second, states[0].dataBegin, b);
    } else {
      RunInv(states, steps, content, b, n - 1);
      StepKeepsInv(states[n - 1], steps[n - 1], content, b);
    }
  }

  /** In every interleaving the k-th finish_read returns what the k-th synchronous read would,
      which is the k-th block of the input; the window reaches over all of it;
      the worker never writes the third block while it is being copied; the copy is exact; the
      window stays within the buffer; and after a finish_read has returned 0 the caller is never
      in it again. */
  lemma PrefetchRefinesSync(states: seq<State>, steps: seq<Step>, content: string, b: nat, n: nat)
    requires IsRun(states, steps, content, b) && n < |states|
    ensures forall k :: 0 <= k < |states[n].handed| ==> states[n].handed[k] == SyncRead(content, b, k)
    ensures forall k :: 0 <= k < |states[n].handed| ==>
      states[n].handed[k] == content[Min(k * b, |content|)..Min(k * b + b, |content|)]
    ensures Reach(states[n], b)
    ensures !(states[n].worker.Reading? && states[n].client.Copying?)
    ensures states[n].client.Restarting? && states[n].handed != [] ==>
      states[n].handed[|states[n].handed| - 1] <= states[n].second
    ensures 0 <= states[n].dataBegin <= states[n].dataEnd <= 2 * b
    ensures Ended(states[n]) ==> !Waiting(states[n]) && !Enabled(states[n], CallFinish, b)
  {
    RunInv(states, steps, content, b, n);
    forall k | 0 <= k < |states[n].handed|
      ensures states[n].handed[k] == content[Min(k * b, |content|)..Min(k * b + b, |content|)]
    {
      SyncReadIs(content, b, k);
    }
  }

  // ----- waiting ends -----

  predicate Spurious(step: Step) { step == FinishWakes || step == RequestWakes }

  /** Whoever waits in finish_read can go on, or the worker can, without a spurious wakeup; in
      particular the worker has not exited with the read outstanding, or it has left an exception
      that finish_read throws. Likewise for the join. */
  lemma NoDeadlock(s: State, content: string, b: nat)
    requires Inv(s, content, b) && (Waiting(s) || s.client == Joining)
    ensures (s.client == Joining && s.worker == Exited) || exists step :: !Spurious(step) && Enabled(s, step, b)
    ensures s.error && Waiting(s) ==> Enabled(s, TestFinished, b) && Do(s, TestFinished, b) == s.(client := Idle)
  {
    if s.worker == Checking {
      assert Enabled(s, TestRequest, b);
    } else if s.worker.Reading? {
      if s.worker.k < Min(b, |s.rest|) { assert Enabled(s, ReadByte, b); } else { assert Enabled(s, ReadDone, b); }
    } else if Waiting(s) {
      assert Enabled(s, TestFinished, b);
    }
  }

  /** How many more steps a wait can last. */
  function Patience(s: State, b: nat): nat {
    (match s.worker
     case Checking => if s.desired == -1 then 1 else b + 4
     case Reading(k) => if k <= b then b + 3 - k else 0
     case _ => 0)
    + (if s.client == Finishing && s.readCount == -1 then 1 else 0)
  }

  /** Every step brings a wait in finish_read closer to its end, but for spurious wakeups, each
      of which costs at most one step more. */
  lemma WaitStep(s: State, step: Step, content: string, b: nat)
    requires Inv(s, content, b) && Enabled(s, step, b) && Waiting(s)
    ensures Waiting(Do(s, step, b)) ==>
      Patience(Do(s, step, b), b) <= Patience(s, b) + if Spurious(step) then 1 else -1
  {
  }

  function SpuriousCount(steps: seq<Step>): nat {
    if steps == [] then 0
    else SpuriousCount(steps[..|steps| - 1]) + if Spurious(steps[|steps| - 1]) then 1 else 0
  }

  /** In every run: a wait that is under way from state m to state n has taken no more steps than
      its patience at m, and two for each spurious wakeup. */
  lemma {:induction false} WaitEnds(states: seq<State>, steps: seq<Step>, content: string, b: nat, m: nat, n: nat)
    requires IsRun(states, steps, content, b) && m <= n < |states|
    requires forall i :: m <= i <= n ==> Waiting(states[i])
    ensures Patience(states[n], b) + (n - m) <= Patience(states[m], b) + 2 * SpuriousCount(steps[m..n])
    ensures n - m <= b + 5 + 2 * SpuriousCount(steps[m..n])
  {
    hide Enabled, Do, Data, Phases, Window, Reach;
    if m < n {
      WaitEnds(states, steps, content, b, m, n - 1);
      RunInv(states, steps, content, b, n - 1);
      WaitStep(states[n - 1], steps[n - 1], content, b);
      assert steps[m..n][..n - 1 - m] == steps[m..n - 1];
    }
  }
}
