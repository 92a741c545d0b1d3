/** The dispatcher of SocketsSS/TaskTwo/server.c: main hands each client the endpoint of
    a free worker, scanning the workers one lock at a time while they run. A transition
    system for any number of workers; connections have ids that are never reused. */
module Assignment {
  import opened Text

  type Conn = nat

  datatype Owner = Nobody | Main | Worker

  datatype MainPc =
    | Accepting
    | Locking(c: Conn, i: nat)
    | Testing(c: Conn, i: nat)
    | Setting(c: Conn, i: nat)
    | UnlockFound(c: Conn, i: nat)
    | UnlockBusy(c: Conn, i: nat)
    | SendingEndpoint(c: Conn, i: nat)
    | SendingError(c: Conn)
    | Closing(c: Conn)

  datatype WorkerPc =
    | Idle
    | Reading(c: Conn)
    | Answering(c: Conn, m: string)
    | ClosingClient(c: Conn)
    | LockingOwn(c: Conn)
    | Clearing(c: Conn)
    | UnlockingOwn

  /** `expected[i]`: the clients told to go to worker i that have not connected yet.
      History: `atScan`, the flags when the current scan began; the replies of main; and the
      visits of clients to workers; and the closes of main and of the workers. */
  datatype State = State(
    busy: seq<bool>, mutex: seq<Owner>, main: MainPc, workers: seq<WorkerPc>, expected: seq<set<Conn>>,
    seen: set<Conn>, atScan: seq<bool>, replies: seq<Reply>, visits: seq<Visit>,
    mainCloses: seq<Conn>, workerCloses: seq<Close>)

  datatype Reply = Endpoint(c: Conn, i: nat, flags: seq<bool>) | NoFreeServer(c: Conn, flags: seq<bool>)

  /** Client c at worker i: what it asked, and whether it was sent the time; anything but a
      request that begins with TIME is closed without an answer. */
  datatype Visit = Visit(c: Conn, i: nat, request: string, timeSent: bool)

  datatype Close = Close(c: Conn, i: nat)

  const START_PORT := 10101

  /** The text main sends for worker i. */
  function EndpointText(i: nat): string {
    "127.0.0.1:" + Decimal(START_PORT + i) + "\n"
  }

  ghost predicate Init(s: State, n: nat) {
    && |s.busy| == |s.mutex| == |s.workers| == |s.expected| == n
    && s.main == Accepting && s.seen == {} && s.atScan == s.busy && s.replies == [] && s.visits == []
    && s.mainCloses == [] && s.workerCloses == []
    && (forall i :: 0 <= i < n ==>
          !s.busy[i] && s.mutex[i] == Nobody && s.workers[i] == Idle && s.expected[i] == {})
  }

  // ---------------------------------------------------------------------------
  // Steps

  /** Accept, Connect and Request are the clients'. */
  datatype Action =
    | Accept(c: Conn)
    | Connect(i: nat, c: Conn)
    | Request(i: nat, m: string)
    | MainStep
    | WorkerStep(i: nat)

  predicate Sized(s: State) {
    |s.mutex| == |s.workers| == |s.expected| == |s.busy|
  }

  predicate Enabled(s: State, a: Action) {
    && Sized(s)
    && match a
       case Accept(c) => s.main == Accepting && c !in s.seen
       case Connect(i, c) => i < |s.busy| && s.workers[i] == Idle && c in s.expected[i]
       case Request(i, _) => i < |s.busy| && s.workers[i].Reading?
       case MainStep =>
         && !s.main.Accepting?
         && (s.main.Locking? && s.main.i < |s.busy| ==> s.mutex[s.main.i] == Nobody)
         && (s.main.Testing? || s.main.Setting? || s.main.UnlockFound? || s.main.UnlockBusy? || s.main.SendingEndpoint? ==>
               s.main.i < |s.busy|)
       case WorkerStep(i) =>
         && i < |s.busy| && s.workers[i] != Idle && !s.workers[i].Reading?
         && (s.workers[i].LockingOwn? ==> s.mutex[i] == Nobody)
  }

  function DoMain(s: State): State
    requires Enabled(s, MainStep)
  {
    match s.main
    case Accepting => s
    case Locking(c, i) =>
      if i < |s.busy| then s.(mutex := s.mutex[i := Main], main := Testing(c, i))
      else s.(main := SendingError(c))
    case Testing(c, i) => s.(main := if s.busy[i] then UnlockBusy(c, i) else Setting(c, i))
    case Setting(c, i) => s.(busy := s.busy[i := true], main := UnlockFound(c, i))
    case UnlockFound(c, i) => s.(mutex := s.mutex[i := Nobody], main := SendingEndpoint(c, i))
    case UnlockBusy(c, i) => s.(mutex := s.mutex[i := Nobody], main := Locking(c, i + 1))
    case SendingEndpoint(c, i) =>
      s.(expected := s.expected[i := s.expected[i] + {c}], main := Closing(c),
         replies := s.replies + [Endpoint(c, i, s.atScan)])
    case SendingError(c) => s.(main := Closing(c), replies := s.replies + [NoFreeServer(c, s.atScan)])
    case Closing(c) => s.(main := Accepting, mainCloses := s.mainCloses + [c])
  }

  function DoWorker(s: State, i: nat): State
    requires Enabled(s, WorkerStep(i))
  {
    match s.workers[i]
    case Idle => s
    case Reading(_) => s
    case Answering(c, m) =>
      s.(workers := s.workers[i := ClosingClient(c)], visits := s.visits + [Visit(c, i, m, "TIME" <= m)])
    case ClosingClient(c) =>
      s.(workers := s.workers[i := LockingOwn(c)], workerCloses := s.workerCloses + [Close(c, i)])
    case LockingOwn(c) => s.(workers := s.workers[i := Clearing(c)], mutex := s.mutex[i := Worker])
    case Clearing(c) => s.(workers := s.workers[i := UnlockingOwn], busy := s.busy[i := false])
    case UnlockingOwn => s.(workers := s.workers[i := Idle], mutex := s.mutex[i := Nobody])
  }

  function Do(s: State, a: Action): State
    requires Enabled(s, a)
  {
    match a
    case Accept(c) => s.(main := Locking(c, 0), seen := s.seen + {c}, atScan := s.busy)
    case Connect(i, c) => s.(workers := s.workers[i := Reading(c)], expected := s.expected[i := s.expected[i] - {c}])
    case Request(i, m) => s.(workers := s.workers[i := Answering(s.workers[i].c, m)])
    case MainStep => DoMain(s)
    case WorkerStep(i) => DoWorker(s, i)
  }

  // ---------------------------------------------------------------------------
  // One outstanding client for each busy worker

  function One(b: bool): nat {
    if b then 1 else 0
  }

  /** Main has taken worker i for a client and not yet told it. */
  predicate MainHolds(pc: MainPc, i: int) {
    (pc.UnlockFound? || pc.SendingEndpoint?) && pc.i == i
  }

  predicate WorkerHolds(pc: WorkerPc) {
    !pc.Idle? && !pc.UnlockingOwn?
  }

  /** Clients for whom worker i is taken: with main, on their way, or being served. */
  function Outstanding(s: State, i: nat): nat
    requires Sized(s) && i < |s.busy|
  {
    One(MainHolds(s.main, i)) + |s.expected[i]| + One(WorkerHolds(s.workers[i]))
  }

  ghost predicate Counted(s: State) {
    && Sized(s)
    && forall i :: 0 <= i < |s.busy| ==> Outstanding(s, i) == One(s.busy[i])
  }

  predicate MainInside(pc: MainPc) {
    pc.Testing? || pc.Setting? || pc.UnlockFound? || pc.UnlockBusy?
  }

  predicate WorkerInside(pc: WorkerPc) {
    pc.Clearing? || pc.UnlockingOwn?
  }

  ghost predicate Locks(s: State) {
    && Sized(s)
    && (MainInside(s.main) ==> s.main.i < |s.busy| && s.mutex[s.main.i] == Main)
    && (s.main.SendingEndpoint? ==> s.main.i < |s.busy|)
    && (s.main.Setting? ==> s.main.i < |s.busy| && !s.busy[s.main.i])
    && (forall i :: 0 <= i < |s.busy| ==> (WorkerInside(s.workers[i]) <==> s.mutex[i] == Worker))
    && (forall i :: 0 <= i < |s.busy| && s.workers[i].UnlockingOwn? ==> !s.busy[i])
    && (forall i :: 0 <= i < |s.busy| && s.mutex[i] == Main ==> MainInside(s.main) && s.main.i == i)
  }

  /** Is main inside find_free_server, with the flag of worker i not yet set by it? */
  predicate Scanning(pc: MainPc) {
    pc.Locking? || pc.Testing? || pc.Setting? || pc.UnlockBusy?
  }

  /** During a scan flags are only cleared, and the workers passed over were busy at its start. */
  ghost predicate ScanOk(s: State) {
    && Sized(s) && |s.atScan| == |s.busy|
    && (Scanning(s.main) ==>
          && s.main.i <= |s.busy|
          && (forall j :: 0 <= j < |s.busy| && s.busy[j] ==> s.atScan[j])
          && (forall j :: 0 <= j < s.main.i ==> s.atScan[j])
          && (s.main.UnlockBusy? ==> s.main.i < |s.busy| && s.atScan[s.main.i]))
    && (s.main.SendingError? ==> AllBusy(s.atScan))
    && (forall r :: r in s.replies && r.NoFreeServer? ==> AllBusy(r.flags))
  }

  predicate AllBusy(flags: seq<bool>) {
    forall j :: 0 <= j < |flags| ==> flags[j]
  }

  ghost predicate Inv(s: State) {
    Counted(s) && Locks(s) && ScanOk(s)
  }

  lemma MainKeepsLocks(s: State)
    requires Inv(s) && Enabled(s, MainStep)
    ensures Locks(DoMain(s))
  {
  }

  lemma MainKeepsCounted(s: State)
    requires Inv(s) && Enabled(s, MainStep)
    ensures Counted(DoMain(s))
  {
    var s' := DoMain(s);
    forall i: nat | i < |s.busy|
      ensures Outstanding(s', i) == One(s'.busy[i])
    {
      assert Outstanding(s, i) == One(s.busy[i]);
      if s.main.SendingEndpoint? && s.main.i == i {
        assert s.expected[i] == {};
        assert s'.expected[i] == {s.main.c};
      }
    }
  }

  lemma MainKeepsScan(s: State)
    requires Inv(s) && Enabled(s, MainStep)
    ensures ScanOk(DoMain(s))
  {
  }

  lemma WorkerKeepsLocks(s: State, i: nat)
    requires Inv(s) && Enabled(s, WorkerStep(i))
    ensures Locks(DoWorker(s, i))
  {
  }

  lemma WorkerKeepsScan(s: State, i: nat)
    requires Inv(s) && Enabled(s, WorkerStep(i))
    ensures ScanOk(DoWorker(s, i))
  {
  }

  lemma WorkerKeepsCounted(s: State, i: nat)
    requires Inv(s) && Enabled(s, WorkerStep(i))
    ensures Counted(DoWorker(s, i))
  {
    var s' := DoWorker(s, i);
    forall j: nat | j < |s.busy|
      ensures Outstanding(s', j) == One(s'.busy[j])
    {
      assert Outstanding(s, j) == One(s.busy[j]);
    }
  }

  lemma AcceptKeepsInv(s: State, c: Conn)
    requires Inv(s) && Enabled(s, Accept(c))
    ensures Inv(Do(s, Accept(c)))
  {
    var s' := Do(s, Accept(c));
    forall j: nat | j < |s.busy|
      ensures Outstanding(s', j) == One(s'.busy[j])
    {
      assert Outstanding(s, j) == One(s.busy[j]);
    }
  }

  lemma ConnectKeepsInv(s: State, i: nat, c: Conn)
    requires Inv(s) && Enabled(s, Connect(i, c))
    ensures Inv(Do(s, Connect(i, c)))
  {
    var s' := Do(s, Connect(i, c));
    forall j: nat | j < |s.busy|
      ensures Outstanding(s', j) == One(s'.busy[j])
    {
      assert Outstanding(s, j) == One(s.busy[j]);
      if j == i {
        assert |s.expected[j]| == |s.expected[j] - {c}| + 1;
      }
    }
  }

  lemma RequestKeepsInv(s: State, i: nat, m: string)
    requires Inv(s) && Enabled(s, Request(i, m))
    ensures Inv(Do(s, Request(i, m)))
  {
    var s' := Do(s, Request(i, m));
    forall j: nat | j < |s.busy|
      ensures Outstanding(s', j) == One(s'.busy[j])
    {
      assert Outstanding(s, j) == One(s.busy[j]);
    }
  }

  lemma StepKeepsInv(s: State, a: Action)
    requires Inv(s) && Enabled(s, a)
    ensures Inv(Do(s, a))
  {
    match a
    case MainStep =>
      MainKeepsLocks(s);
      MainKeepsCounted(s);
      MainKeepsScan(s);
    case WorkerStep(i) =>
      WorkerKeepsLocks(s, i);
      WorkerKeepsScan(s, i);
      WorkerKeepsCounted(s, i);
    case Accept(c) => AcceptKeepsInv(s, c);
    case Connect(i, c) => ConnectKeepsInv(s, i, c);
    case Request(i, m) => RequestKeepsInv(s, i, m);
  }

  // ---------------------------------------------------------------------------
  // Runs

  /** A path of the system; a run is a path from an initial state. */
  ghost predicate Path(states: seq<State>, acts: seq<Action>) {
    && |states| == |acts| + 1
    && (forall k :: 0 <= k < |acts| ==> Enabled(states[k], acts[k]) && states[k + 1] == Do(states[k], acts[k]))
  }

  ghost predicate Run(states: seq<State>, acts: seq<Action>, n: nat) {
    Path(states, acts) && Init(states[0], n)
  }

  lemma {:induction false} RunKeepsInv(states: seq<State>, acts: seq<Action>, n: nat, k: nat)
    requires Run(states, acts, n) && k < |states|
    ensures Inv(states[k]) && |states[k].busy| == n
  {
    if k > 0 {
      RunKeepsInv(states, acts, n, k - 1);
      StepKeepsInv(states[k - 1], acts[k - 1]);
    }
  }

  /** In every interleaving a worker marked busy is taken for exactly one client, and a
      free one for none; so no worker ever has two. */
  lemma OneClientPerWorker(states: seq<State>, acts: seq<Action>, n: nat, k: nat, i: nat)
    requires Run(states, acts, n) && k < |states| && i < n
    ensures Sized(states[k]) && |states[k].busy| == n
    ensures Outstanding(states[k], i) == if states[k].busy[i] then 1 else 0
  {
    RunKeepsInv(states, acts, n, k);
  }

  /** Main never answers a client twice. */
  ghost predicate RepliesDistinct(s: State) {
    && (forall j, k :: 0 <= j < k < |s.replies| ==> s.replies[j].c != s.replies[k].c)
    && (forall r :: r in s.replies ==> r.c in s.seen)
    && (!s.main.Accepting? ==> s.main.c in s.seen)
    && (!s.main.Accepting? && !s.main.Closing? ==> forall r :: r in s.replies ==> r.c != s.main.c)
  }

  lemma {:induction false} OneReplyEach(states: seq<State>, acts: seq<Action>, n: nat, k: nat)
    requires Run(states, acts, n) && k < |states|
    ensures RepliesDistinct(states[k])
  {
    if k > 0 {
      OneReplyEach(states, acts, n, k - 1);
      StepKeepsRepliesDistinct(states[k - 1], acts[k - 1]);
    }
  }

  lemma StepKeepsRepliesDistinct(s: State, a: Action)
    requires RepliesDistinct(s) && Enabled(s, a)
    ensures RepliesDistinct(Do(s, a))
  {
    if a.WorkerStep? {
      assert Do(s, a).main == s.main && Do(s, a).replies == s.replies && Do(s, a).seen == s.seen;
    }
  }

  /** Client c was told the endpoint of worker i. */
  ghost predicate ToldToGo(s: State, c: Conn, i: nat) {
    exists k :: 0 <= k < |s.replies| && s.replies[k].Endpoint? && s.replies[k].c == c && s.replies[k].i == i
  }

  /** Whoever is on the way to a worker, is with it or was there had been told its endpoint;
      and who asked for the time, and nobody else, was sent it. */
  ghost predicate EndpointsRight(s: State) {
    && (forall i, c :: 0 <= i < |s.expected| && c in s.expected[i] ==> ToldToGo(s, c, i))
    && (forall i :: 0 <= i < |s.workers| && WorkerHolds(s.workers[i]) ==> ToldToGo(s, s.workers[i].c, i))
    && (forall v :: v in s.visits ==> ToldToGo(s, v.c, v.i) && (v.timeSent <==> AsksForTime(v.request)))
  }

  predicate AsksForTime(m: string) {
    |m| >= 4 && m[0] == 'T' && m[1] == 'I' && m[2] == 'M' && m[3] == 'E'
  }

  lemma ToldIsKept(s: State, s': State, c: Conn, i: nat)
    requires s.replies <= s'.replies && ToldToGo(s, c, i)
    ensures ToldToGo(s', c, i)
  {
    var k :| 0 <= k < |s.replies| && s.replies[k].Endpoint? && s.replies[k].c == c && s.replies[k].i == i;
    assert s'.replies[k] == s.replies[k];
  }

  /** What one step does to those on the way, those with a worker, and the visits. */
  lemma StepMoves(s: State, a: Action)
    requires Enabled(s, a)
    ensures var s' := Do(s, a);
            && s.replies <= s'.replies && |s'.expected| == |s.expected| && |s'.workers| == |s.workers|
            && (forall i, c :: 0 <= i < |s.expected| && c in s'.expected[i] ==>
                  c in s.expected[i] || (a == MainStep && s.main == SendingEndpoint(c, i) && ToldToGo(s', c, i)))
            && (forall i :: 0 <= i < |s.workers| && WorkerHolds(s'.workers[i]) ==>
                  (WorkerHolds(s.workers[i]) && s'.workers[i].c == s.workers[i].c) || s'.workers[i].c in s.expected[i])
            && (forall v :: v in s'.visits ==>
                  || v in s.visits
                  || (v.i < |s.workers| && s.workers[v.i] == Answering(v.c, v.request)
                      && (v.timeSent <==> AsksForTime(v.request))))
  {
    var s' := Do(s, a);
    if a == MainStep && s.main.SendingEndpoint? {
      assert s'.replies[|s.replies|] == Endpoint(s.main.c, s.main.i, s.atScan);
    }
  }

  lemma StepKeepsEndpoints(s: State, a: Action)
    requires Sized(s) && EndpointsRight(s) && Enabled(s, a)
    ensures EndpointsRight(Do(s, a))
  {
    var s' := Do(s, a);
    StepMoves(s, a);
    forall i, c | 0 <= i < |s.expected| && c in s'.expected[i]
      ensures ToldToGo(s', c, i)
    {
      if c in s.expected[i] {
        ToldIsKept(s, s', c, i);
      }
    }
    forall i | 0 <= i < |s.workers| && WorkerHolds(s'.workers[i])
      ensures ToldToGo(s', s'.workers[i].c, i)
    {
      ToldIsKept(s, s', s'.workers[i].c, i);
    }
    forall v | v in s'.visits
      ensures ToldToGo(s', v.c, v.i) && (v.timeSent <==> AsksForTime(v.request))
    {
      ToldIsKept(s, s', v.c, v.i);
    }
  }

  /** Each client goes to the worker taken for it: main told it that worker's endpoint and,
      answering no client twice, no other. A worker sends the time exactly to those that
      ask for it. */
  lemma {:induction false} ClientsGoWhereTold(states: seq<State>, acts: seq<Action>, n: nat, k: nat)
    requires Run(states, acts, n) && k < |states|
    ensures EndpointsRight(states[k])
  {
    if k > 0 {
      ClientsGoWhereTold(states, acts, n, k - 1);
      StepKeepsEndpoints(states[k - 1], acts[k - 1]);
    }
  }

  /** Has worker i connection c, and no answer yet? */
  predicate Unanswered(pc: WorkerPc, c: Conn) {
    (pc.Reading? || pc.Answering?) && pc.c == c
  }

  ghost function TellCount(replies: seq<Reply>, c: Conn, i: nat): nat {
    if replies == [] then 0
    else
      var r := replies[|replies| - 1];
      TellCount(replies[..|replies| - 1], c, i) + One(r.Endpoint? && r.c == c && r.i == i)
  }

  ghost function VisitCount(visits: seq<Visit>, c: Conn, i: nat): nat {
    if visits == [] then 0
    else
      var v := visits[|visits| - 1];
      VisitCount(visits[..|visits| - 1], c, i) + One(v.c == c && v.i == i)
  }

  /** Whoever was told to go to worker i is on the way, waits for an answer there, or has
      had it, one of them; and nobody else is. */
  ghost predicate ServedWhereTold(s: State) {
    Sized(s) && forall c, i :: 0 <= i < |s.busy| ==> Served(s, c, i) == TellCount(s.replies, c, i)
  }

  ghost function Served(s: State, c: Conn, i: nat): nat
    requires Sized(s) && i < |s.busy|
  {
    One(c in s.expected[i]) + One(Unanswered(s.workers[i], c)) + VisitCount(s.visits, c, i)
  }

  lemma CountsGrow(s: State, a: Action, c: Conn, i: nat)
    requires Enabled(s, a) && i < |s.busy|
    ensures var s' := Do(s, a);
            && TellCount(s'.replies, c, i) == TellCount(s.replies, c, i) + One(a == MainStep && s.main == SendingEndpoint(c, i))
            && VisitCount(s'.visits, c, i)
               == VisitCount(s.visits, c, i)
                  + One(a == WorkerStep(i) && s.workers[i].Answering? && s.workers[i].c == c)
  {
    var s' := Do(s, a);
    assert s'.replies != s.replies ==> s'.replies[..|s'.replies| - 1] == s.replies;
    assert s'.visits != s.visits ==> s'.visits[..|s'.visits| - 1] == s.visits;
  }

  lemma {:induction false} NotToldYet(replies: seq<Reply>, c: Conn, i: nat)
    requires forall r :: r in replies ==> r.c != c
    ensures TellCount(replies, c, i) == 0
  {
    if replies != [] {
      assert replies[|replies| - 1] in replies;
      NotToldYet(replies[..|replies| - 1], c, i);
    }
  }

  lemma StepKeepsServed(s: State, a: Action)
    requires ServedWhereTold(s) && RepliesDistinct(s) && Enabled(s, a)
    ensures ServedWhereTold(Do(s, a))
  {
    var s' := Do(s, a);
    forall c, i | 0 <= i < |s'.busy|
      ensures Served(s', c, i) == TellCount(s'.replies, c, i)
    {
      CountsGrow(s, a, c, i);
      assert Served(s, c, i) == TellCount(s.replies, c, i);
      if a == MainStep && s.main == SendingEndpoint(c, i) {
        NotToldYet(s.replies, c, i);
      }
    }
  }

  /** In every interleaving a client that was told an endpoint is served by that worker, once,
      or is still on the way there or waiting; and one that was refused by none. */
  lemma {:induction false} ServedOnceWhereTold(states: seq<State>, acts: seq<Action>, n: nat, k: nat)
    requires Run(states, acts, n) && k < |states|
    ensures ServedWhereTold(states[k])
    ensures forall c, i :: 0 <= i < |states[k].busy| ==> Served(states[k], c, i) <= 1
  {
    if k > 0 {
      ServedOnceWhereTold(states, acts, n, k - 1);
      OneReplyEach(states, acts, n, k - 1);
      StepKeepsServed(states[k - 1], acts[k - 1]);
    }
    OneReplyEach(states, acts, n, k);
    forall c, i | 0 <= i < |states[k].busy|
      ensures Served(states[k], c, i) <= 1
    {
      ToldOnce(states[k].replies, c, i);
    }
  }

  lemma {:induction false} ToldOnce(replies: seq<Reply>, c: Conn, i: nat)
    requires forall j, k :: 0 <= j < k < |replies| ==> replies[j].c != replies[k].c
    ensures TellCount(replies, c, i) <= 1
  {
    if replies != [] {
      var n := |replies| - 1;
      ToldOnce(replies[..n], c, i);
      if replies[n].c == c {
        NotToldYet(replies[..n], c, i);
      }
    }
  }

  ghost function CloseCount(closes: seq<Close>, c: Conn, i: nat): nat {
    if closes == [] then 0
    else CloseCount(closes[..|closes| - 1], c, i) + One(closes[|closes| - 1] == Close(c, i))
  }

  /** Main has closed the connections it has answered, in that order, but for the one it is
      about to close; and so has every worker. */
  ghost predicate AllClosed(s: State) {
    && Sized(s)
    && |s.replies| == |s.mainCloses| + One(s.main.Closing?)
    && (s.main.Closing? ==> s.replies[|s.replies| - 1].c == s.main.c)
    && (forall k :: 0 <= k < |s.mainCloses| ==> s.mainCloses[k] == s.replies[k].c)
    && (forall c, i :: 0 <= i < |s.busy| ==> StillOpen(s, c, i) == 0)
  }

  /** The visits of c to worker i, less the closes, less the one about to be made. */
  ghost function StillOpen(s: State, c: Conn, i: nat): int
    requires Sized(s) && i < |s.busy|
  {
    VisitCount(s.visits, c, i) - CloseCount(s.workerCloses, c, i) - One(s.workers[i] == ClosingClient(c))
  }

  lemma ClosesGrow(s: State, a: Action, c: Conn, i: nat)
    requires Enabled(s, a) && i < |s.busy|
    ensures CloseCount(Do(s, a).workerCloses, c, i)
         == CloseCount(s.workerCloses, c, i) + One(a == WorkerStep(i) && s.workers[i] == ClosingClient(c))
  {
    var s' := Do(s, a);
    assert s'.workerCloses != s.workerCloses ==> s'.workerCloses[..|s'.workerCloses| - 1] == s.workerCloses;
  }

  lemma StepKeepsClosed(s: State, a: Action)
    requires AllClosed(s) && Enabled(s, a)
    ensures AllClosed(Do(s, a))
  {
    var s' := Do(s, a);
    forall c, i | 0 <= i < |s'.busy|
      ensures StillOpen(s', c, i) == 0
    {
      CountsGrow(s, a, c, i);
      ClosesGrow(s, a, c, i);
      assert StillOpen(s, c, i) == 0;
    }
  }

  /** Every connection is closed once: by main after its answer, before the next is
      accepted, and by the worker after the visit. */
  lemma {:induction false} EveryConnectionIsClosed(states: seq<State>, acts: seq<Action>, n: nat, k: nat)
    requires Run(states, acts, n) && k < |states|
    ensures AllClosed(states[k])
  {
    if k > 0 {
      EveryConnectionIsClosed(states, acts, n, k - 1);
      StepKeepsClosed(states[k - 1], acts[k - 1]);
    }
  }

  /** A visit's request is what was read from that client. */
  lemma {:induction false} RequestsAreThoseRead(states: seq<State>, acts: seq<Action>, n: nat, k: nat)
    requires Run(states, acts, n) && k < |states|
    ensures forall i :: 0 <= i < |states[k].workers| && states[k].workers[i].Answering? ==>
              WasRead(states, acts, k, i, states[k].workers[i].c, states[k].workers[i].m)
    ensures forall v :: v in states[k].visits ==> WasRead(states, acts, k, v.i, v.c, v.request)
  {
    if k > 0 {
      RequestsAreThoseRead(states, acts, n, k - 1);
      var s, a, s' := states[k - 1], acts[k - 1], states[k];
      forall i, c, m | WasRead(states, acts, k - 1, i, c, m)
        ensures WasRead(states, acts, k, i, c, m)
      {
        var j :| 0 <= j < k - 1 && ReadAt(states[j], acts[j], i, c, m);
        assert 0 <= j < k;
      }
      if a.Request? {
        assert ReadAt(s, a, a.i, s.workers[a.i].c, a.m);
      }
      StepMoves(s, a);
    }
  }

  predicate ReadAt(s: State, a: Action, i: nat, c: Conn, m: string) {
    a == Request(i, m) && i < |s.workers| && s.workers[i] == Reading(c)
  }

  ghost predicate WasRead(states: seq<State>, acts: seq<Action>, k: nat, i: nat, c: Conn, m: string)
    requires k <= |acts| && k <= |states|
  {
    exists j :: 0 <= j < k && ReadAt(states[j], acts[j], i, c, m)
  }

  /** The text sent names the port of that worker, after the address and its colon. */
  lemma EndpointTellsWorker(i: nat)
    ensures ScanInt(EndpointText(i)[10..]) == Some(10101 + i)
  {
    var d := Decimal(START_PORT + i);
    assert EndpointText(i)[10..] == d + "\n";
    NumberOfDigits(START_PORT + i);
    LeadingDigitsOf(d, "\n");
  }

  /** A client is turned away only if every worker was busy at the instant main accepted
      it and its scan began, however the flags change while the scan goes on. */
  lemma RefusalMeansAllBusy(states: seq<State>, acts: seq<Action>, n: nat, k: nat, r: Reply)
    requires Run(states, acts, n) && k < |states| && r in states[k].replies && r.NoFreeServer?
    ensures exists j :: 0 <= j < k && acts[j] == Accept(r.c) && |states[j].busy| == n && AllBusy(states[j].busy)
  {
    RunKeepsInv(states, acts, n, k);
    FlagsAreSnapshots(states, acts, n, k);
    var j :| 0 <= j < k && acts[j] == Accept(r.c) && states[j].busy == r.flags;
  }

  /** The flags recorded with a reply are those of the state in which main accepted the
      client: the instant its scan began. */
  lemma {:induction false} FlagsAreSnapshots(states: seq<State>, acts: seq<Action>, n: nat, k: nat)
    requires Run(states, acts, n) && k < |states|
    ensures |states[k].atScan| == n
    ensures !states[k].main.Accepting? ==> ScanBegan(states, acts, k, states[k].main.c, states[k].atScan)
    ensures forall r :: r in states[k].replies ==> |r.flags| == n && ScanBegan(states, acts, k, r.c, r.flags)
  {
    if k > 0 {
      FlagsAreSnapshots(states, acts, n, k - 1);
      RunKeepsInv(states, acts, n, k - 1);
      var s, a, s' := states[k - 1], acts[k - 1], states[k];
      StepSnapshots(s, a);
      if a.Accept? {
        assert ScanBegan(states, acts, k, a.c, s'.atScan);
      } else if !s'.main.Accepting? {
        ScanBeganExtends(states, acts, k, s.main.c, s.atScan);
      }
      forall r | r in s'.replies
        ensures |r.flags| == n && ScanBegan(states, acts, k, r.c, r.flags)
      {
        ScanBeganExtends(states, acts, k, r.c, r.flags);
      }
    }
  }

  /** One step: the client and the snapshot stay until the reply, which records them. */
  lemma StepSnapshots(s: State, a: Action)
    requires Enabled(s, a)
    ensures var s' := Do(s, a);
            && (if a.Accept? then s'.main == Locking(a.c, 0) && s'.atScan == s.busy
                else s'.atScan == s.atScan
                     && (!s'.main.Accepting? ==> !s.main.Accepting? && s'.main.c == s.main.c))
            && (forall r :: r in s'.replies ==>
                  r in s.replies || (!s.main.Accepting? && r.c == s.main.c && r.flags == s.atScan))
  {
  }

  ghost predicate ScanBegan(states: seq<State>, acts: seq<Action>, k: nat, c: Conn, flags: seq<bool>)
    requires k <= |acts| && k <= |states|
  {
    exists j :: 0 <= j < k && acts[j] == Accept(c) && states[j].busy == flags
  }

  lemma ScanBeganExtends(states: seq<State>, acts: seq<Action>, k: nat, c: Conn, flags: seq<bool>)
    requires 0 < k <= |acts| && k <= |states| && ScanBegan(states, acts, k - 1, c, flags)
    ensures ScanBegan(states, acts, k, c, flags)
  {
    var j :| 0 <= j < k - 1 && acts[j] == Accept(c) && states[j].busy == flags;
    assert 0 <= j < k;
  }

  // ---------------------------------------------------------------------------
  // How far the answer can be out of date

  /** Did worker i clear its flag in one of the steps begin..end of the run? */
  ghost predicate Cleared(states: seq<State>, acts: seq<Action>, i: nat, begin: nat, end: nat)
    requires end <= |acts| && |states| == |acts| + 1
  {
    exists p :: begin <= p < end && Clears(states[p], acts[p], i)
  }

  /** Main accepts client acts[begin].c and no other before state `end`. */
  ghost predicate OneScan(acts: seq<Action>, begin: nat, end: nat) {
    && begin < end <= |acts| && acts[begin].Accept?
    && forall p :: begin < p < end ==> !acts[p].Accept?
  }

  lemma AcceptTakesSnapshot(s: State, a: Action)
    requires Enabled(s, a) && a.Accept?
    ensures Do(s, a).atScan == s.busy == Do(s, a).busy
  {
  }

  lemma RunSizes(states: seq<State>, acts: seq<Action>, n: nat, k: nat)
    requires Run(states, acts, n) && k < |states|
    ensures Sized(states[k]) && |states[k].busy| == n
  {
    RunKeepsInv(states, acts, n, k);
  }

  predicate Clears(s: State, a: Action, i: nat) {
    a == WorkerStep(i) && i < |s.workers| && s.workers[i].Clearing?
  }

  /** A step within a scan changes a flag only by clearing it. */
  lemma ScanStepFlags(s: State, a: Action, i: nat)
    requires Enabled(s, a) && !a.Accept? && i < |s.busy|
    requires Scanning(Do(s, a).main) || Do(s, a).main.SendingError?
    ensures Scanning(s.main) || s.main.SendingError?
    ensures Do(s, a).atScan == s.atScan
    ensures Do(s, a).busy[i] <==> s.busy[i] && !Clears(s, a, i)
  {
  }

  lemma ClearedExtends(states: seq<State>, acts: seq<Action>, i: nat, begin: nat, end: nat)
    requires begin <= end < |acts| && |states| == |acts| + 1
    ensures Cleared(states, acts, i, begin, end + 1)
       <==> Cleared(states, acts, i, begin, end) || Clears(states[end], acts[end], i)
  {
    if Cleared(states, acts, i, begin, end + 1) {
      var p :| begin <= p < end + 1 && Clears(states[p], acts[p], i);
    }
    if Clears(states[end], acts[end], i) {
      assert begin <= end < end + 1;
    }
  }

  /** The snapshot is that of the state in which main accepted the client. */
  lemma {:induction false} SnapshotDuringScan(states: seq<State>, acts: seq<Action>, n: nat, begin: nat, end: nat)
    requires Run(states, acts, n) && OneScan(acts, begin, end)
    ensures states[end].atScan == states[begin].busy
    decreases end
  {
    var last := end - 1;
    assert Enabled(states[last], acts[last]) && states[end] == Do(states[last], acts[last]);
    if begin < last {
      SnapshotDuringScan(states, acts, n, begin, last);
    }
  }

  /** While the scan lasts a flag is as it was at its start unless its worker cleared it. */
  lemma {:induction false} FlagsDuringScan(states: seq<State>, acts: seq<Action>, n: nat, begin: nat, end: nat, i: nat)
    requires Run(states, acts, n) && OneScan(acts, begin, end) && i < n
    requires Scanning(states[end].main) || states[end].main.SendingError?
    ensures |states[begin].busy| == |states[end].busy| == n
    ensures states[end].busy[i] <==> states[begin].busy[i] && !Cleared(states, acts, i, begin, end)
    decreases end
  {
    var last := end - 1;
    var s, a := states[last], acts[last];
    assert Enabled(s, a) && states[end] == Do(s, a);
    RunSizes(states, acts, n, last);
    RunSizes(states, acts, n, end);
    ClearedExtends(states, acts, i, begin, last);
    if begin < last {
      ScanStepFlags(s, a, i);
      FlagsDuringScan(states, acts, n, begin, last, i);
    } else {
      AcceptTakesSnapshot(s, a);
    }
  }

  /** When main gives up, every worker is still busy if and only if none of them cleared
      its flag since the scan began. */
  lemma RefusalIsUpToDateIff(states: seq<State>, acts: seq<Action>, n: nat, begin: nat, end: nat)
    requires Run(states, acts, n) && OneScan(acts, begin, end) && states[end].main.SendingError?
    ensures AllBusy(states[end].busy) <==> forall i: nat :: i < n ==> !Cleared(states, acts, i, begin, end)
  {
    RunKeepsInv(states, acts, n, end);
    SnapshotDuringScan(states, acts, n, begin, end);
    forall i: nat | i < n
      ensures states[end].busy[i] <==> !Cleared(states, acts, i, begin, end)
    {
      FlagsDuringScan(states, acts, n, begin, end, i);
    }
  }

  // ---------------------------------------------------------------------------
  // The scan is not atomic

  /** t can be reached from s with no other client accepted. */
  ghost predicate Leads(s: State, t: State) {
    exists states: seq<State>, acts: seq<Action> :: Scan(states, acts, s, t)
  }

  ghost predicate Scan(states: seq<State>, acts: seq<Action>, s: State, t: State) {
    Path(states, acts) && states[0] == s && states[|acts|] == t && forall k :: 0 <= k < |acts| ==> !acts[k].Accept?
  }

  /** Some course of events has main refuse client c, accepted now. */
  ghost predicate CanRefuse(s: State, c: Conn)
    requires Enabled(s, Accept(c))
  {
    exists t :: Leads(Do(s, Accept(c)), t) && t.main == SendingError(c)
  }

  /** And with a worker free at the moment main is about to say that there is none. */
  ghost predicate CanRefuseWhileFree(s: State, c: Conn)
    requires Enabled(s, Accept(c))
  {
    exists t :: Leads(Do(s, Accept(c)), t) && t.main == SendingError(c) && !AllBusy(t.busy)
  }

  /** All flags are set, and no worker is inside its lock to clear one. */
  predicate AllTaken(s: State) {
    AllBusy(s.busy) && forall i :: 0 <= i < |s.workers| ==> !s.workers[i].Clearing?
  }

  /** Which clients can be refused at all, and that every one of them can be refused while
      a worker is free: exactly those accepted when all workers are taken. */
  lemma RefusedWhileFreeIff(s: State, n: nat, c: Conn)
    requires Reachable(s, n) && Enabled(s, Accept(c))
    ensures CanRefuse(s, c) <==> AllTaken(s)
    ensures n > 0 ==> (CanRefuseWhileFree(s, c) <==> AllTaken(s))
  {
    ReachableIsInv(s, n);
    if AllTaken(s) {
      TakenCanRefuse(s, c);
    }
    if CanRefuse(s, c) && !AllTaken(s) {
      var t :| Leads(Do(s, Accept(c)), t) && t.main == SendingError(c);
      var j :| 0 <= j < n && (!s.busy[j] || s.workers[j].Clearing?);
      var states, acts :| Scan(states, acts, Do(s, Accept(c)), t);
      AcceptKeepsInv(s, c);
      ScanNeverPasses(states, acts, j);
    }
  }

  /** Main cannot get past worker j: its flag is clear, or will be before its lock is free. */
  predicate StopsAt(s: State, j: nat)
    requires j < |s.busy| == |s.workers|
  {
    match s.main
    case Locking(_, i) => i <= j && (!s.busy[j] || s.workers[j].Clearing?)
    case Testing(_, i) => i <= j && (!s.busy[j] || s.workers[j].Clearing?)
    case UnlockBusy(_, i) => i < j && (!s.busy[j] || s.workers[j].Clearing?)
    case SendingError(_) => false
    case _ => true
  }

  lemma StepStopsAt(s: State, a: Action, j: nat)
    requires Inv(s) && Enabled(s, a) && !a.Accept? && j < |s.busy| && StopsAt(s, j)
    ensures |Do(s, a).busy| == |Do(s, a).workers| == |s.busy| && StopsAt(Do(s, a), j)
  {
  }

  lemma {:induction false} ScanNeverPasses(states: seq<State>, acts: seq<Action>, j: nat)
    requires Path(states, acts) && Inv(states[0]) && j < |states[0].busy| && StopsAt(states[0], j)
    requires forall k :: 0 <= k < |acts| ==> !acts[k].Accept?
    ensures |states[|acts|].busy| == |states[|acts|].workers| == |states[0].busy|
    ensures Inv(states[|acts|]) && StopsAt(states[|acts|], j)
    decreases |acts|
  {
    if acts != [] {
      var n := |acts| - 1;
      ScanNeverPasses(states[..n + 1], acts[..n], j);
      StepKeepsInv(states[n], acts[n]);
      StepStopsAt(states[n], acts[n], j);
    }
  }

  lemma LeadsSelf(s: State)
    ensures Leads(s, s)
  {
    var states, acts: seq<Action> := [s], [];
    assert Scan(states, acts, s, s);
  }

  lemma LeadsOn(s: State, t: State, a: Action, u: State)
    requires Leads(s, t) && Enabled(t, a) && !a.Accept? && u == Do(t, a)
    ensures Leads(s, u)
  {
    var states, acts :| Scan(states, acts, s, t);
    var states', acts' := states + [u], acts + [a];
    assert Scan(states', acts', s, u);
  }

  /** Main scans all the workers first; then one of them finishes; then main refuses. */
  lemma TakenCanRefuse(s: State, c: Conn)
    requires Inv(s) && Enabled(s, Accept(c)) && AllTaken(s)
    ensures CanRefuse(s, c) && (|s.busy| > 0 ==> CanRefuseWhileFree(s, c))
  {
    var s1 := Do(s, Accept(c));
    AcceptKeepsInv(s, c);
    forall i | 0 <= i < |s.busy| ensures s.mutex[i] == Nobody {
      assert !WorkerInside(s.workers[i]);
    }
    ScansAll(s1, c, |s.busy|);
    var t := s1.(main := Locking(c, |s.busy|));
    var u := Do(t, MainStep);
    LeadsOn(s1, t, MainStep, u);
    if |s.busy| > 0 {
      ScannedIsInv(s1, t, c);
      var v := ClientIsServed(s1, t, 0);
      LeadsOn(s1, v, MainStep, Do(v, MainStep));
    }
  }

  lemma {:induction false} ScansAll(s1: State, c: Conn, i: nat)
    requires Sized(s1) && s1.main == Locking(c, 0) && AllBusy(s1.busy) && i <= |s1.busy|
    requires forall j :: 0 <= j < |s1.busy| ==> s1.mutex[j] == Nobody
    ensures Leads(s1, s1.(main := Locking(c, i)))
  {
    if i == 0 {
      LeadsSelf(s1);
    } else {
      ScansAll(s1, c, i - 1);
      var t0 := s1.(main := Locking(c, i - 1));
      var t1 := t0.(main := Testing(c, i - 1), mutex := s1.mutex[i - 1 := Main]);
      LeadsOn(s1, t0, MainStep, t1);
      var t2 := t1.(main := UnlockBusy(c, i - 1));
      LeadsOn(s1, t1, MainStep, t2);
      var t3 := s1.(main := Locking(c, i));
      assert t2.mutex[i - 1 := Nobody] == t3.mutex;
      LeadsOn(s1, t2, MainStep, t3);
    }
  }

  lemma ScannedIsInv(s1: State, t: State, c: Conn)
    requires Inv(s1) && s1.main == Locking(c, 0) && AllBusy(s1.busy) && s1.atScan == s1.busy
    requires t == s1.(main := Locking(c, |s1.busy|))
    ensures Inv(t)
  {
    forall i: nat | i < |t.busy| ensures Outstanding(t, i) == One(t.busy[i]) {
      assert Outstanding(s1, i) == One(s1.busy[i]);
    }
  }

  /** With main at the end of its scan, worker k serves its client and clears its flag. */
  lemma {:induction false} ClientIsServed(s1: State, t: State, k: nat) returns (v: State)
    requires Leads(s1, t) && Inv(t) && k < |t.busy| && t.busy[k] && t.main.Locking? && t.main.i == |t.busy|
    ensures Leads(s1, v) && Sized(v) && |v.busy| == |t.busy| && v.main == t.main && !v.busy[k]
    decreases WorkerRank(t.workers[k]) + |t.expected[k]| * 7
  {
    assert Outstanding(t, k) == 1;
    if t.workers[k].Idle? {
      var c :| c in t.expected[k];
      var u := Do(t, Connect(k, c));
      LeadsOn(s1, t, Connect(k, c), u);
      StepKeepsInv(t, Connect(k, c));
      v := ClientIsServed(s1, u, k);
    } else if t.workers[k].Reading? {
      var u := Do(t, Request(k, ""));
      LeadsOn(s1, t, Request(k, ""), u);
      StepKeepsInv(t, Request(k, ""));
      v := ClientIsServed(s1, u, k);
    } else {
      assert t.workers[k].LockingOwn? ==> t.mutex[k] == Nobody;
      var u := Do(t, WorkerStep(k));
      LeadsOn(s1, t, WorkerStep(k), u);
      StepKeepsInv(t, WorkerStep(k));
      if t.workers[k].Clearing? {
        v := u;
      } else {
        v := ClientIsServed(s1, u, k);
      }
    }
  }

  ghost predicate Reachable(s: State, n: nat) {
    exists states: seq<State>, acts: seq<Action> :: Run(states, acts, n) && states[|acts|] == s
  }

  lemma ReachableIsInv(s: State, n: nat)
    requires Reachable(s, n)
    ensures Inv(s) && |s.busy| == n
  {
    var states, acts :| Run(states, acts, n) && states[|acts|] == s;
    RunKeepsInv(states, acts, n, |acts|);
  }

  lemma InitIsReachable(s: State, n: nat)
    requires Init(s, n)
    ensures Reachable(s, n)
  {
    var states, acts: seq<Action> := [s], [];
    assert Run(states, acts, n) && states[|acts|] == s;
  }

  lemma Step(s: State, a: Action, s': State, n: nat)
    requires Reachable(s, n) && Enabled(s, a) && s' == Do(s, a)
    ensures Reachable(s', n)
  {
    var states, acts :| Run(states, acts, n) && states[|acts|] == s;
    var states', acts' := states + [s'], acts + [a];
    assert Run(states', acts', n) && states'[|acts'|] == s';
  }

  /** Client 1 is accepted and the one worker taken for it. */
  lemma FirstClientTakesWorker() returns (s: State)
    ensures Reachable(s, 1)
    ensures s == State([true], [Main], UnlockFound(1, 0), [Idle], [{}], {1}, [false], [], [], [], [])
  {
    var s0 := State([false], [Nobody], Accepting, [Idle], [{}], {}, [false], [], [], [], []);
    InitIsReachable(s0, 1);
    var s1 := s0.(main := Locking(1, 0), seen := {1});
    Step(s0, Accept(1), s1, 1);
    var s2 := s1.(main := Testing(1, 0), mutex := [Main]);
    Step(s1, MainStep, s2, 1);
    var s3 := s2.(main := Setting(1, 0));
    Step(s2, MainStep, s3, 1);
    s := s3.(main := UnlockFound(1, 0), busy := [true]);
    Step(s3, MainStep, s, 1);
  }

  /** It is told the worker's endpoint. */
  lemma FirstClientIsAssigned() returns (s: State)
    ensures Reachable(s, 1)
    ensures s == State([true], [Nobody], Accepting, [Idle], [{1}], {1}, [false], [Endpoint(1, 0, [false])], [], [1], [])
  {
    var s4 := FirstClientTakesWorker();
    var s5 := s4.(main := SendingEndpoint(1, 0), mutex := [Nobody]);
    Step(s4, MainStep, s5, 1);
    var s6 := s5.(main := Closing(1), expected := [{1}], replies := [Endpoint(1, 0, [false])]);
    assert s5.expected[0] + {1} == s6.expected[0];
    assert s5.expected[0 := s5.expected[0] + {1}] == s6.expected;
    assert s5.replies + [Endpoint(1, 0, [false])] == s6.replies;
    Step(s5, MainStep, s6, 1);
    s := s6.(main := Accepting, mainCloses := [1]);
    Step(s6, MainStep, s, 1);
  }

  /** Then a second client can be refused while the worker is free: it does happen. */
  lemma RefusedWhileFreeHappens() returns (s: State)
    ensures Reachable(s, 1) && Enabled(s, Accept(2)) && CanRefuseWhileFree(s, 2)
  {
    s := FirstClientIsAssigned();
    RefusedWhileFreeIff(s, 1, 2);
  }

  // ---------------------------------------------------------------------------
  // Progress: main locks every worker's mutex in turn, and is never stuck for good

  function WorkerRank(pc: WorkerPc): nat {
    match pc
    case Reading(_) => 6
    case Answering(_, _) => 5
    case ClosingClient(_) => 4
    case LockingOwn(_) => 3
    case Clearing(_) => 2
    case UnlockingOwn => 1
    case Idle => 0
  }

  function MainRank(pc: MainPc, n: nat): int {
    match pc
    case Locking(_, i) => 3 * (n - i) + 6
    case Testing(_, i) => 3 * (n - i) + 5
    case Setting(_, i) => 3 * (n - i) + 4
    case UnlockBusy(_, i) => 3 * (n - i) + 4
    case UnlockFound(_, i) => 3
    case SendingEndpoint(_, _) => 2
    case SendingError(_) => 2
    case Closing(_) => 1
    case Accepting => 0
  }

  ghost function WorkerRanks(ws: seq<WorkerPc>): nat {
    if ws == [] then 0 else WorkerRanks(ws[..|ws| - 1]) + WorkerRank(ws[|ws| - 1])
  }

  lemma {:induction false} WorkerRanksUpdate(ws: seq<WorkerPc>, i: nat, pc: WorkerPc)
    requires i < |ws|
    ensures WorkerRanks(ws[i := pc]) + WorkerRank(ws[i]) == WorkerRanks(ws) + WorkerRank(pc)
  {
    var n := |ws| - 1;
    if i < n {
      WorkerRanksUpdate(ws[..n], i, pc);
      assert ws[i := pc][..n] == ws[..n][i := pc];
    } else {
      assert ws[i := pc][..n] == ws[..n];
    }
  }

  /** An upper bound on the steps the threads can take before a client has to act. */
  ghost function Remaining(s: State): int {
    MainRank(s.main, |s.busy|) + WorkerRanks(s.workers)
  }

  predicate Internal(a: Action) {
    a.MainStep? || a.WorkerStep?
  }

  lemma RemainingIsNat(s: State)
    requires Inv(s)
    ensures Remaining(s) >= 0
  {
  }

  lemma MainStepDecreases(s: State)
    requires Inv(s) && Enabled(s, MainStep)
    ensures MainRank(DoMain(s).main, |s.busy|) < MainRank(s.main, |s.busy|)
    ensures DoMain(s).workers == s.workers && |DoMain(s).busy| == |s.busy|
  {
  }

  lemma WorkerStepDecreases(s: State, i: nat)
    requires Enabled(s, WorkerStep(i))
    ensures var s' := DoWorker(s, i);
            && s'.main == s.main && |s'.busy| == |s.busy|
            && s'.workers == s.workers[i := s'.workers[i]] && WorkerRank(s'.workers[i]) < WorkerRank(s.workers[i])
  {
  }

  lemma InternalStepDecreases(s: State, a: Action)
    requires Inv(s) && Enabled(s, a) && Internal(a)
    ensures Remaining(Do(s, a)) < Remaining(s)
  {
    if a.WorkerStep? {
      WorkerStepDecreases(s, a.i);
      WorkerRanksUpdate(s.workers, a.i, DoWorker(s, a.i).workers[a.i]);
    } else {
      MainStepDecreases(s);
    }
  }

  lemma {:induction false} InternalStepsEnd(states: seq<State>, acts: seq<Action>)
    requires Path(states, acts) && Inv(states[0])
    requires forall k :: 0 <= k < |acts| ==> Internal(acts[k])
    ensures |acts| <= Remaining(states[0])
    decreases |acts|
  {
    if acts == [] {
      RemainingIsNat(states[0]);
    } else {
      StepKeepsInv(states[0], acts[0]);
      InternalStepDecreases(states[0], acts[0]);
      assert Path(states[1..], acts[1..]);
      InternalStepsEnd(states[1..], acts[1..]);
    }
  }

  /** Whenever main waits for a lock, the worker that holds it can go on. */
  lemma LockHolderCanStep(s: State)
    requires Inv(s) && !s.main.Accepting? && !Enabled(s, MainStep)
    ensures s.main.Locking? && s.main.i < |s.busy|
    ensures WorkerInside(s.workers[s.main.i]) && Enabled(s, WorkerStep(s.main.i))
  {
  }

  /** Every client main has accepted is answered, or main is at it. */
  ghost predicate AllAnswered(s: State) {
    forall c :: c in s.seen ==> HasReply(s, c) || (!s.main.Accepting? && !s.main.Closing? && s.main.c == c)
  }

  ghost predicate HasReply(s: State, c: Conn) {
    exists k :: 0 <= k < |s.replies| && s.replies[k].c == c
  }

  lemma StepKeepsAnswered(s: State, a: Action)
    requires AllAnswered(s) && Enabled(s, a)
    ensures AllAnswered(Do(s, a))
  {
    var s' := Do(s, a);
    forall c | c in s'.seen
      ensures HasReply(s', c) || (!s'.main.Accepting? && !s'.main.Closing? && s'.main.c == c)
    {
      if c in s.seen && HasReply(s, c) {
        var k :| 0 <= k < |s.replies| && s.replies[k].c == c;
        assert s'.replies[k].c == c;
      } else if a.MainStep? && (s.main.SendingError? || s.main.SendingEndpoint?) {
        assert s'.replies[|s.replies|].c == c;
      }
    }
  }

  lemma {:induction false} RunKeepsAnswered(states: seq<State>, acts: seq<Action>, n: nat, k: nat)
    requires Run(states, acts, n) && k < |states|
    ensures AllAnswered(states[k])
  {
    if k > 0 {
      RunKeepsAnswered(states, acts, n, k - 1);
      StepKeepsAnswered(states[k - 1], acts[k - 1]);
    }
  }

  /** There is no deadlock: when no thread can move, main is back in accept, every lock is
      free, every worker is idle or waits for what its client has to say, and every client
      accepted has had its answer from main. */
  lemma QuiescentMeansAnswered(states: seq<State>, acts: seq<Action>, n: nat, k: nat)
    requires Run(states, acts, n) && k < |states|
    requires forall a: Action :: Internal(a) ==> !Enabled(states[k], a)
    ensures var s := states[k];
            && s.main.Accepting? && Sized(s) && |s.busy| == n
            && (forall i :: 0 <= i < n ==> (s.workers[i].Idle? || s.workers[i].Reading?) && s.mutex[i] == Nobody)
            && (forall c :: c in s.seen ==> HasReply(s, c))
  {
    var s := states[k];
    RunKeepsInv(states, acts, n, k);
    RunKeepsAnswered(states, acts, n, k);
    if !s.main.Accepting? {
      assert !Enabled(s, MainStep);
      LockHolderCanStep(s);
      assert false;
    }
    forall i: nat | i < n
      ensures (s.workers[i].Idle? || s.workers[i].Reading?) && s.mutex[i] == Nobody
    {
      assert !Enabled(s, WorkerStep(i));
    }
  }
}
