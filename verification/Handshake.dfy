/** The asynchronous remote search: any number of searches on node 0, each with a record it
    waits on, and one background thread that handles the replies of node 1, in every
    interleaving and for every order in which calls complete. What is done under a record's
    mutex without waiting is one step. Records are never freed. */
module Handshake {
  import opened Billing
  import opened KeywordIndex
  import opened Ranking
  import opened Recall
  import opened RowParser
  import opened SearchResults
  import opened SearchService
  import opened Shards
  import opened TwoNodes

  type Id = nat

  datatype Waiter =
    | NotStarted
    | Local                               // its own search, before AyncSearchResult::wait
    | Glancing                            // in wait, about to look at the flags without the mutex
    | Testing                             // in wait, about to test the flags with the mutex
    | Asleep                              // blocked on the condition variable
    | Returned(seen: seq<SearchResult>)   // wait has returned, with these results to be merged

  datatype Call =
    | NoCall
    | InFlight                // started; the network has it
    | Completed(ok: bool)     // in the completion queue
    | Taken(ok: bool)         // the background thread is handling it
    | Deleted(ok: bool)

  /** One search: its request, its AyncSearchResult and its remote call. `settled` counts the
      calls of Finish and Cancel. */
  datatype SearchRecord = SearchRecord(request: Request, finish: bool, faild: bool, results: seq<SearchResult>,
                           settled: nat, waiter: Waiter, call: Call)

  datatype Background =
    | Next                     // about to wait for a completed call
    | Copying(i: Id, k: nat)   // k results of the reply are in the record
    | Cancelling(i: Id)
    | Notifying(i: Id)         // the flag is set and the mutex released; about to notify

  datatype State = State(searches: map<Id, SearchRecord>, bg: Background)

  type Server = Request -> SearchResponse

  function Part(q: Request): Request { q.(keywords := RemoteKeywords(q.keywords, 2)) }

  /** The full reply of node 1 to this search. */
  function FullReply(serve: Server, q: Request): seq<SearchResult> { Received(serve(Part(q))) }

  datatype Step =
    | Start(i: Id) | LocalDone(i: Id) | Glance(i: Id) | Test(i: Id) | Spurious(i: Id)
    | Deliver(i: Id, ok: bool)
    | TakeCall(i: Id) | CopyResult | FinishRecord | CancelRecord | Notify

  predicate Flag(s: SearchRecord) { s.finish || s.faild }

  predicate Enabled(s: State, step: Step, serve: Server) {
    match step
    case Start(i) => i in s.searches && s.searches[i].waiter == NotStarted
    case LocalDone(i) => i in s.searches && s.searches[i].waiter == Local
    case Glance(i) => i in s.searches && s.searches[i].waiter == Glancing
    case Test(i) => i in s.searches && s.searches[i].waiter == Testing
    case Spurious(i) => i in s.searches && s.searches[i].waiter == Asleep
    case Deliver(i, _) => i in s.searches && s.searches[i].call == InFlight
    case TakeCall(i) => s.bg == Next && i in s.searches && s.searches[i].call.Completed?
    case CopyResult => s.bg.Copying? && s.bg.i in s.searches && s.bg.k < |FullReply(serve, s.searches[s.bg.i].request)|
    case FinishRecord => s.bg.Copying? && s.bg.i in s.searches &&
      s.bg.k == |FullReply(serve, s.searches[s.bg.i].request)|
    case CancelRecord => s.bg.Cancelling? && s.bg.i in s.searches
    case Notify => s.bg.Notifying? && s.bg.i in s.searches && s.searches[s.bg.i].call.Taken?
  }

  function Do(s: State, step: Step, serve: Server): State
    requires Enabled(s, step, serve)
  {
    match step
    case Start(i) =>
      var e := s.searches[i];
      s.(searches := s.searches[i :=
        if RemoteKeywords(e.request.keywords, 2) == [] then
          e.(finish := true, settled := e.settled + 1, waiter := Local)
        else e.(waiter := Local, call := InFlight)])
    case LocalDone(i) => s.(searches := s.searches[i := s.searches[i].(waiter := Glancing)])
    case Glance(i) =>
      var e := s.searches[i];
      s.(searches := s.searches[i := e.(waiter := if Flag(e) then Returned(e.results) else Testing)])
    case Test(i) =>
      var e := s.searches[i];
      s.(searches := s.searches[i := e.(waiter := if Flag(e) then Returned(e.results) else Asleep)])
    case Spurious(i) => s.(searches := s.searches[i := s.searches[i].(waiter := Testing)])
    case Deliver(i, ok) => s.(searches := s.searches[i := s.searches[i].(call := Completed(ok))])
    case TakeCall(i) =>
      var e := s.searches[i];
      State(s.searches[i := e.(call := Taken(e.call.ok))], if e.call.ok then Copying(i, 0) else Cancelling(i))
    case CopyResult =>
      var i, e := s.bg.i, s.searches[s.bg.i];
      State(s.searches[i := e.(results := e.results + [FullReply(serve, e.request)[s.bg.k]])], Copying(i, s.bg.k + 1))
    case FinishRecord =>
      var i, e := s.bg.i, s.searches[s.bg.i];
      State(s.searches[i := e.(finish := true, settled := e.settled + 1)], Notifying(i))
    case CancelRecord =>
      var i, e := s.bg.i, s.searches[s.bg.i];
      State(s.searches[i := e.(faild := true, settled := e.settled + 1)], Notifying(i))
    case Notify =>
      var i, e := s.bg.i, s.searches[s.bg.i];
      var waiter' := if e.waiter == Asleep then Testing else e.waiter;
      State(s.searches[i := e.(waiter := waiter', call := Deleted(e.call.ok))], Next)
  }

  function Fresh(q: Request): SearchRecord { SearchRecord(q, false, false, [], 0, NotStarted, NoCall) }

  ghost predicate Initial(s: State) {
    s.bg == Next && forall i :: i in s.searches ==> s.searches[i] == Fresh(s.searches[i].request)
  }

  // ----- the invariant, one search at a time -----

  function Busy(bg: Background): set<Id> {
    match bg case Next => {} case Copying(i, _) => {i} case Cancelling(i) => {i} case Notifying(i) => {i}
  }

  /** What has happened to a search's record, told from its call and the background thread. */
  ghost predicate Record(e: SearchRecord, i: Id, bg: Background, serve: Server) {
    var asked := RemoteKeywords(e.request.keywords, 2) != [];
    match e.call
    case NoCall =>
      !e.faild && e.results == [] && e.settled == (if e.finish then 1 else 0) &&
      (if e.waiter == NotStarted then !e.finish else !asked && e.finish)
    case InFlight => asked && !e.finish && !e.faild && e.results == [] && e.settled == 0
    case Completed(_) => asked && !e.finish && !e.faild && e.results == [] && e.settled == 0
    case Taken(ok) =>
      asked && i in Busy(bg) &&
      (match bg
       case Copying(_, k) => ok && !e.finish && !e.faild && e.settled == 0 && k <= |FullReply(serve, e.request)| &&
         e.results == FullReply(serve, e.request)[..k]
       case Cancelling(_) => !ok && !e.finish && !e.faild && e.settled == 0 && e.results == []
       case Notifying(_) => Settled(e, ok, serve)
       case Next => false)
    case Deleted(ok) => asked && Settled(e, ok, serve)
  }

  /** Finished with the full reply, or cancelled with nothing; once. */
  ghost predicate Settled(e: SearchRecord, ok: bool, serve: Server) {
    e.settled == 1 && e.finish == ok && e.faild == !ok && e.results == if ok then FullReply(serve, e.request) else []
  }

  ghost predicate Waits(e: SearchRecord, i: Id, bg: Background) {
    && (e.waiter == NotStarted ==> e.call == NoCall)
    && (e.waiter == Asleep && Flag(e) ==> bg == Notifying(i))
    && (e.waiter.Returned? ==> Flag(e) && e.waiter.seen == e.results)
  }

  ghost predicate Inv(s: State, serve: Server) {
    && (forall i :: i in s.searches ==> Record(s.searches[i], i, s.bg, serve) && Waits(s.searches[i], i, s.bg))
    && (forall i :: i in Busy(s.bg) ==> i in s.searches && s.searches[i].call.Taken?)
  }

  /** The search that a step is about. */
  function Subject(s: State, step: Step, serve: Server): Id
    requires Enabled(s, step, serve)
  {
    match step
    case Start(i) => i case LocalDone(i) => i case Glance(i) => i case Test(i) => i case Spurious(i) => i
    case Deliver(i, _) => i case TakeCall(i) => i
    case _ => s.bg.i
  }

  lemma OthersUntouched(s: State, step: Step, serve: Server, i: Id)
    requires Enabled(s, step, serve) && i in s.searches && i != Subject(s, step, serve)
    ensures i in Do(s, step, serve).searches && Do(s, step, serve).searches[i] == s.searches[i]
    ensures i in Busy(Do(s, step, serve).bg) <==> i in Busy(s.bg) && Do(s, step, serve).bg == s.bg
    ensures Do(s, step, serve).bg == s.bg || Busy(s.bg) <= {Subject(s, step, serve)}
  {
  }

  lemma SameSearches(s: State, step: Step, serve: Server)
    requires Inv(s, serve) && Enabled(s, step, serve)
    ensures Do(s, step, serve).searches.Keys == s.searches.Keys
  {
    hide FullReply, RemoteKeywords, Record, Waits;
  }

  lemma OtherKept(s: State, step: Step, serve: Server, i: Id)
    requires Inv(s, serve) && Enabled(s, step, serve) && i in s.searches && i != Subject(s, step, serve)
    ensures Record(s.searches[i], i, Do(s, step, serve).bg, serve) && Waits(s.searches[i], i, Do(s, step, serve).bg)
  {
    hide FullReply, RemoteKeywords, Do;
    OthersUntouched(s, step, serve, i);
    assert Record(s.searches[i], i, s.bg, serve) && Waits(s.searches[i], i, s.bg);
  }

  lemma SubjectKeptByThreads(s: State, step: Step, serve: Server)
    requires Inv(s, serve) && Enabled(s, step, serve) && !ByBackground(step)
    ensures var i, s' := Subject(s, step, serve), Do(s, step, serve);
      i in s'.searches && Record(s'.searches[i], i, s'.bg, serve) && Waits(s'.searches[i], i, s'.bg)
  {
    hide FullReply, RemoteKeywords;
    var i := Subject(s, step, serve);
    assert Record(s.searches[i], i, s.bg, serve) && Waits(s.searches[i], i, s.bg);
  }

  lemma SubjectKeptByBackground(s: State, step: Step, serve: Server)
    requires Inv(s, serve) && Enabled(s, step, serve) && ByBackground(step)
    ensures var i, s' := Subject(s, step, serve), Do(s, step, serve);
      i in s'.searches && Record(s'.searches[i], i, s'.bg, serve) && Waits(s'.searches[i], i, s'.bg)
  {
    hide FullReply, RemoteKeywords;
    var i := Subject(s, step, serve);
    assert Record(s.searches[i], i, s.bg, serve) && Waits(s.searches[i], i, s.bg);
  }

  predicate ByBackground(step: Step) {
    step.TakeCall? || step.CopyResult? || step.FinishRecord? || step.CancelRecord? || step.Notify?
  }

  lemma BusyKept(s: State, step: Step, serve: Server)
    requires Inv(s, serve) && Enabled(s, step, serve)
    ensures forall i :: i in Busy(Do(s, step, serve).bg) ==>
      i in Do(s, step, serve).searches && Do(s, step, serve).searches[i].call.Taken?
  {
    hide FullReply, RemoteKeywords, Record;
  }

  /** Every step of every thread keeps the invariant. */
  lemma StepKeepsInv(s: State, step: Step, serve: Server)
    requires Inv(s, serve) && Enabled(s, step, serve)
    ensures Inv(Do(s, step, serve), serve)
  {
    hide Record, Waits, Enabled, Do;
    BusyKept(s, step, serve);
    if ByBackground(step) { SubjectKeptByBackground(s, step, serve); } else { SubjectKeptByThreads(s, step, serve); }
    var s' := Do(s, step, serve);
    SameSearches(s, step, serve);
    forall i | i in s'.searches ensures Record(s'.searches[i], i, s'.bg, serve) && Waits(s'.searches[i], i, s'.bg) {
      if i != Subject(s, step, serve) {
        OthersUntouched(s, step, serve, i);
        OtherKept(s, step, serve, i);
      }
    }
  }

  // ----- whole runs -----

  ghost predicate IsRun(states: seq<State>, steps: seq<Step>, serve: Server) {
    && |states| == |steps| + 1 && Initial(states[0])
    && forall n :: 0 <= n < |steps| ==>
      Enabled(states[n], steps[n], serve) && states[n + 1] == Do(states[n], steps[n], serve)
  }

  lemma InitialInv(s: State, serve: Server)
    requires Initial(s)
    ensures Inv(s, serve)
  {
  }

  lemma {:induction false} RunInv(states: seq<State>, steps: seq<Step>, serve: Server, n: nat)
    requires IsRun(states, steps, serve) && n < |states|
    ensures Inv(states[n], serve)
  {
    hide Inv;
    if n == 0 {
      InitialInv(states[0], serve);
    } else {
      RunInv(states, steps, serve, n - 1);
      StepKeepsInv(states[n - 1], steps[n - 1], serve);
    }
  }

  /** In every run, for every search: the record is finished or cancelled at most once and never
      both; a wait that has returned sees the full reply to its own request if the call
      succeeded, and nothing if it failed or there was no odd keyword to ask for. */
  lemma WaitSeesReply(states: seq<State>, steps: seq<Step>, serve: Server, n: nat, i: Id)
    requires IsRun(states, steps, serve) && n < |states| && i in states[n].searches
    ensures var e := states[n].searches[i];
      && e.settled == (if Flag(e) then 1 else 0) && !(e.finish && e.faild)
      && (e.waiter.Returned? ==>
            && e.settled == 1
            && var asked := RemoteKeywords(e.request.keywords, 2) != [];
               e.waiter.seen == if e.finish && asked then FullReply(serve, e.request) else [])
  {
    hide FullReply, RemoteKeywords;
    RunInv(states, steps, serve, n);
    assert Record(states[n].searches[i], i, states[n].bg, serve) && Waits(states[n].searches[i], i, states[n].bg);
  }

  /** The background thread can always go on, unless there is no completed call to take. */
  lemma BackgroundGoesOn(s: State, serve: Server)
    requires Inv(s, serve)
    ensures s.bg != Next ==>
      || Enabled(s, CopyResult, serve) || Enabled(s, FinishRecord, serve)
      || Enabled(s, CancelRecord, serve) || Enabled(s, Notify, serve)
    ensures s.bg == Next ==> forall i :: i in s.searches && s.searches[i].call.Completed? ==>
      Enabled(s, TakeCall(i), serve)
  {
    hide FullReply, RemoteKeywords;
    if s.bg != Next {
      var i := s.bg.i;
      assert i in Busy(s.bg);
      assert Record(s.searches[i], i, s.bg, serve);
    }
  }

  /** A blocked wait is never forgotten: its call is still with the network or in the
      completion queue, or the background thread is handling it and has yet to notify. */
  lemma NobodyForgotten(s: State, serve: Server, i: Id)
    requires Inv(s, serve) && i in s.searches && s.searches[i].waiter == Asleep
    ensures s.searches[i].call == InFlight || s.searches[i].call.Completed? || i in Busy(s.bg)
    ensures Flag(s.searches[i]) ==> s.bg == Notifying(i)
  {
    hide FullReply, RemoteKeywords;
    assert Record(s.searches[i], i, s.bg, serve) && Waits(s.searches[i], i, s.bg);
  }

  // ----- every search comes to its end -----

  /** How many steps a search still gives rise to, spurious wakeups aside. */
  function Work(e: SearchRecord, bg: Background, serve: Server): nat {
    var reply := |FullReply(serve, e.request)|;
    if e.waiter == NotStarted then reply + 11
    else
      (match e.waiter
       case Local => 4
       case Glancing => 3
       case Testing => 2
       case Asleep => 1
       case _ => 0) +
      (match e.call
       case InFlight => reply + 6
       case Completed(_) => reply + 5
       case Taken(_) =>
         (match bg
          case Copying(_, k) => if k <= reply then reply - k + 3 else 0
          case Cancelling(_) => 3
          case Notifying(_) => 2
          case Next => 0)
       case _ => 0)
  }

  ghost function Pick(m: map<Id, nat>): (i: Id)
    requires m != map[]
    ensures i in m
  {
    var i :| i in m; i
  }

  ghost function Sum(m: map<Id, nat>): nat {
    if m == map[] then 0 else m[Pick(m)] + Sum(m - {Pick(m)})
  }

  lemma {:induction false} SumSplit(m: map<Id, nat>, i: Id)
    requires i in m
    ensures Sum(m) == m[i] + Sum(m - {i})
  {
    var k := Pick(m);
    if k != i {
      SumSplit(m - {k}, i);
      SumSplit(m - {i}, k);
      assert m - {k} - {i} == m - {i} - {k};
    }
  }

  lemma SumUpdate(m: map<Id, nat>, m': map<Id, nat>, i: Id)
    requires m.Keys == m'.Keys && i in m && forall j :: j in m && j != i ==> m'[j] == m[j]
    ensures Sum(m') - m'[i] == Sum(m) - m[i]
  {
    SumSplit(m, i);
    SumSplit(m', i);
    assert m - {i} == m' - {i};
  }

  function Works(s: State, serve: Server): map<Id, nat> {
    map i | i in s.searches :: Work(s.searches[i], s.bg, serve)
  }

  /** How many steps a state still gives rise to, spurious wakeups aside. */
  ghost function TotalWork(s: State, serve: Server): nat { Sum(Works(s, serve)) }

  /** A step does some of its search's work; only a spurious wakeup makes more. */
  lemma SubjectWorks(s: State, step: Step, serve: Server)
    requires Inv(s, serve) && Enabled(s, step, serve)
    ensures var i, s' := Subject(s, step, serve), Do(s, step, serve);
      && i in s.searches && i in s'.searches
      && Work(s'.searches[i], s'.bg, serve) <= Work(s.searches[i], s.bg, serve) + if step.Spurious? then 1 else -1
  {
    hide FullReply, RemoteKeywords;
    var i := Subject(s, step, serve);
    assert Record(s.searches[i], i, s.bg, serve) && Waits(s.searches[i], i, s.bg);
  }

  lemma OthersRest(s: State, step: Step, serve: Server, i: Id)
    requires Inv(s, serve) && Enabled(s, step, serve) && i in s.searches && i != Subject(s, step, serve)
    ensures var s' := Do(s, step, serve);
      i in s'.searches && Work(s'.searches[i], s'.bg, serve) == Work(s.searches[i], s.bg, serve)
  {
    hide FullReply, RemoteKeywords, Do;
    OthersUntouched(s, step, serve, i);
    assert Record(s.searches[i], i, s.bg, serve);
  }

  lemma StepWorks(s: State, step: Step, serve: Server)
    requires Inv(s, serve) && Enabled(s, step, serve)
    ensures TotalWork(Do(s, step, serve), serve) <= TotalWork(s, serve) + if step.Spurious? then 1 else -1
  {
    hide Inv, Enabled, Do, Work;
    var i, s' := Subject(s, step, serve), Do(s, step, serve);
    SubjectWorks(s, step, serve);
    SameSearches(s, step, serve);
    forall j | j in s.searches && j != i ensures Works(s', serve)[j] == Works(s, serve)[j] {
      OthersRest(s, step, serve, j);
    }
    SumUpdate(Works(s, serve), Works(s', serve), i);
  }

  function SpuriousCount(steps: seq<Step>): nat {
    if steps == [] then 0
    else SpuriousCount(steps[..|steps| - 1]) + if steps[|steps| - 1].Spurious? then 1 else 0
  }

  /** Every run is bounded: apart from spurious wakeups, and one further step for each of them,
      it has no more steps than the searches' work to begin with. */
  lemma {:induction false} RunBounded(states: seq<State>, steps: seq<Step>, serve: Server, n: nat)
    requires IsRun(states, steps, serve) && n < |states|
    ensures TotalWork(states[n], serve) + n <= TotalWork(states[0], serve) + 2 * SpuriousCount(steps[..n])
  {
    hide Enabled, Do, TotalWork;
    if n > 0 {
      RunBounded(states, steps, serve, n - 1);
      RunInv(states, steps, serve, n - 1);
      StepWorks(states[n - 1], steps[n - 1], serve);
      assert steps[..n][..n - 1] == steps[..n - 1];
    }
  }

  /** When nothing but spurious wakeups can happen any more, every wait has returned and every
      record was finished or cancelled, exactly once. */
  lemma AllSettled(s: State, serve: Server, i: Id)
    requires Inv(s, serve) && i in s.searches
    requires forall step :: Enabled(s, step, serve) ==> step.Spurious?
    ensures s.searches[i].waiter.Returned? && s.searches[i].settled == 1
  {
    hide FullReply, RemoteKeywords;
    BackgroundGoesOn(s, serve);
    assert s.bg == Next;
    assert !Enabled(s, Start(i), serve) && !Enabled(s, LocalDone(i), serve);
    assert !Enabled(s, Glance(i), serve) && !Enabled(s, Test(i), serve);
    assert !Enabled(s, Deliver(i, true), serve) && !Enabled(s, TakeCall(i), serve);
    assert Record(s.searches[i], i, s.bg, serve) && Waits(s.searches[i], i, s.bg);
  }

  // ----- the answers -----

  /** A reply that says what node 1 must: well scored, and with the cut ranking. */
  ghost predicate Replies(r: SearchResponse, ctr: CtrModel, rows: seq<RawData>, q: Request)
    requires q.Valid()
  {
    AllWellScored(Received(r)) && Offers(Received(r)) == Cut(Ranked(Recalled(ctr, rows, q)), q.topn)
  }

  /** Node 1 holds these rows, and its InernalSearch replies with their cut ranking. */
  ghost predicate NodeOne(serve: Server, ctr: CtrModel, rows: seq<RawData>) {
    && (forall r :: r in rows ==> Mine(Node(1), r.keyword))
    && (forall q: Request :: q.Valid() ==> Replies(serve(q), ctr, rows, q))
  }

  lemma {:induction false} ResultsOf(ctr: CtrModel, rows: seq<RawData>, q: Request, offers: seq<Offer>)
      returns (results: seq<SearchResult>)
    requires q.Valid() && forall o :: o in offers ==> o in Recalled(ctr, rows, q)
    ensures AllWellScored(results) && Offers(results) == offers
  {
    hide Recalled;
    results := [];
    if offers != [] {
      var n := |offers| - 1;
      assert offers == offers[..n] + [offers[n]];
      var init := ResultsOf(ctr, rows, q, offers[..n]);
      var last := ResultOf(ctr, rows, q, offers[n]);
      results := init + [last];
      assert Offers(results) == Offers(init) + [last.Offer()];
    }
  }

  lemma SomeReply(ctr: CtrModel, rows: seq<RawData>, q: Request)
    requires q.Valid()
    ensures exists r :: Replies(r, ctr, rows, q)
  {
    hide Recalled, AllWellScored, SearchService.Reply, Received;
    var offers := Recalled(ctr, rows, q);
    var cut := Cut(Ranked(offers), q.topn);
    RankedIsRanking(offers);
    ElementsOnOffer(Ranked(offers), offers);
    forall o | o in cut ensures o in offers { assert o in Elements(Ranked(offers)); }
    var results := ResultsOf(ctr, rows, q, cut);
    ReplyReceived(results);
    assert Replies(SearchService.Reply(results), ctr, rows, q);
  }

  ghost function ReplyOfNodeOne(ctr: CtrModel, rows: seq<RawData>, q: Request): (r: SearchResponse)
    ensures q.Valid() ==> Replies(r, ctr, rows, q)
  {
    if q.Valid() then
      SomeReply(ctr, rows, q);
      var r :| Replies(r, ctr, rows, q);
      r
    else SearchResponse([], [], [], [])
  }

  /** For any rows of node 1 there is a server that behaves like it. */
  lemma NodeOneExists(ctr: CtrModel, rows: seq<RawData>)
    requires forall r :: r in rows ==> Mine(Node(1), r.keyword)
    ensures exists serve :: NodeOne(serve, ctr, rows)
  {
    hide Recalled, AllWellScored, Received;
    var serve: Server := q => ReplyOfNodeOne(ctr, rows, q);
    forall q: Request | q.Valid() ensures Replies(serve(q), ctr, rows, q) { }
    assert NodeOne(serve, ctr, rows);
  }

  /** What node 0's Search answers with the results that its wait has seen. */
  ghost function AnswerWith(ctr: CtrModel, rows0: seq<RawData>, q: Request, seen: seq<SearchResult>): Response
    requires q.Valid()
  {
    Answer(Ranked(Elements(Cut(Ranked(Recalled(ctr, rows0, q)), q.topn)) + Elements(Offers(seen))), q.topn)
  }

  /** What a returned wait has seen is node 1's cut ranking, or nothing, as Search needs it. */
  lemma SeenResults(states: seq<State>, steps: seq<Step>, serve: Server, n: nat, i: Id, ctr: CtrModel,
      rows1: seq<RawData>)
    requires IsRun(states, steps, serve) && n < |states| && i in states[n].searches
    requires states[n].searches[i].waiter.Returned? && states[n].searches[i].request.Valid()
    requires NodeOne(serve, ctr, rows1)
    ensures var e := states[n].searches[i];
      && AllWellScored(e.waiter.seen) && InOrder(e.waiter.seen)
      && Offers(e.waiter.seen) == (if e.faild then [] else Cut(Ranked(Recalled(ctr, rows1, e.request)), e.request.topn))
  {
    hide Record, Recalled, RemoteKeywords;
    WaitSeesReply(states, steps, serve, n, i);
    RunInv(states, steps, serve, n);
    var e := states[n].searches[i];
    var q := e.request;
    var b := Recalled(ctr, rows1, q);
    OddRowsOnly(ctr, rows1, q, Part(q));
    assert Waits(e, i, states[n].bg);
    CutInOrder(b, q.topn);
    EmptyList();
    if !e.faild && RemoteKeywords(q.keywords, 2) == [] { assert Cut(Ranked({}), q.topn) == []; }
  }

  /** With any number of concurrent searches, in every interleaving: a search whose wait has
      returned answers for the rows of both nodes, or for those of node 0 alone exactly if its
      own remote call failed. */
  lemma ConcurrentAnswersExact(states: seq<State>, steps: seq<Step>, serve: Server, n: nat, i: Id,
                               ctr: CtrModel, rows0: seq<RawData>, rows1: seq<RawData>)
    requires IsRun(states, steps, serve) && n < |states| && i in states[n].searches
    requires states[n].searches[i].waiter.Returned? && states[n].searches[i].request.Valid()
    requires NodeOne(serve, ctr, rows1)
    ensures var e := states[n].searches[i];
      var a, b := Recalled(ctr, rows0, e.request), Recalled(ctr, rows1, e.request);
      AnswerWith(ctr, rows0, e.request, e.waiter.seen) == Answer(Ranked(if e.faild then a else a + b), e.request.topn)
  {
    hide Recalled, Answer;
    SeenResults(states, steps, serve, n, i, ctr, rows1);
    var e := states[n].searches[i];
    var q := e.request;
    var a, b := Recalled(ctr, rows0, q), Recalled(ctr, rows1, q);
    if e.faild {
      assert Cut(Ranked({}), q.topn) == [];
      ExactAnswer(a, {}, q.topn);
      assert a + {} == a;
    } else {
      ExactAnswer(a, b, q.topn);
    }
  }

  /** Node 0's Search after its wait has returned in such a run: merging, billing and filling the
      response give that answer. */
  method AnswerSeen(node0: SearchServiceImpl, e: SearchRecord, ghost states: seq<State>, ghost steps: seq<Step>,
                    ghost serve: Server, ghost n: nat, ghost i: Id, ghost rows1: seq<RawData>)
      returns (response: Response)
    requires IsRun(states, steps, serve) && n < |states| && i in states[n].searches && e == states[n].searches[i]
    requires e.waiter.Returned? && e.request.Valid() && 0 < e.request.topn
    requires node0.Valid() && NodeOne(serve, node0.ctr, rows1)
    requires Recalled(node0.ctr, node0.Rows(), e.request) != {} ||
      (!e.faild && Recalled(node0.ctr, rows1, e.request) != {})
    ensures var a, b := Recalled(node0.ctr, node0.Rows(), e.request), Recalled(node0.ctr, rows1, e.request);
      response == Answer(Ranked(if e.faild then a else a + b), e.request.topn)
  {
    hide Recalled, Answer, NodeOne, AllWellScored, IsRun, Indexed;
    SeenResults(states, steps, serve, n, i, node0.ctr, rows1);
    ConcurrentAnswersExact(states, steps, serve, n, i, node0.ctr, node0.Rows(), rows1);
    ghost var b := Recalled(node0.ctr, rows1, e.request);
    if !e.faild && b != {} { NotEmptied(b, e.request.topn); }
    response := node0.Search(e.request, e.waiter.seen);
  }

  /** Node 0's Search in such a run, where the two nodes hold the shards of a file: unless the
      search's own remote call failed, the answer is that of one server with the whole file. */
  method AnswerSeenLikeWhole(ghost lines: seq<string>, node0: SearchServiceImpl, e: SearchRecord,
                             ghost states: seq<State>, ghost steps: seq<Step>, ghost serve: Server,
                             ghost n: nat, ghost i: Id, ghost rows1: seq<RawData>)
      returns (response: Response)
    requires IsRun(states, steps, serve) && n < |states| && i in states[n].searches && e == states[n].searches[i]
    requires e.waiter.Returned? && !e.faild && e.request.Valid() && 0 < e.request.topn
    requires node0.Valid() && NodeOne(serve, node0.ctr, rows1)
    requires forall k :: 0 <= k < |lines| ==> !Unroutable(lines[k])
    requires multiset(node0.Rows()) == multiset(Loaded(Node(0), lines))
    requires multiset(rows1) == multiset(Loaded(Node(1), lines))
    requires Recalled(node0.ctr, Loaded(Whole(), lines), e.request) != {}
    ensures response == Answer(Ranked(Recalled(node0.ctr, Loaded(Whole(), lines), e.request)), e.request.topn)
  {
    hide Recalled, Answer, NodeOne, AllWellScored, IsRun, Indexed, Loaded;
    ShardsPartition(lines);
    RecallUnion(node0.ctr, node0.Rows(), rows1, Loaded(Whole(), lines), e.request);
    response := AnswerSeen(node0, e, states, steps, serve, n, i, rows1);
  }
}
