/** One driver of the taxi dispatcher and the dispatcher's side of its two pipes
    (TaxiManagement/taxi.c: driver_main, send_command, send_task), as a transition
    system. The pipes carry bytes, so that message boundaries are a theorem. */
module DriverProtocol {
  import opened Text

  const BUFFER_SIZE := 256

  datatype Command = Status | Task(seconds: int)

  predicate IsInt32(n: int) {
    -0x8000_0000 <= n < 0x8000_0000
  }

  function CommandText(c: Command): string {
    match c
    case Status => "STATUS"
    case Task(n) => "TASK " + Decimal(n)
  }

  /** What write(fd, s, strlen(s) + 1) puts into a pipe. */
  function Message(s: string): string {
    s + ['\0']
  }

  /** What read(fd, buffer, BUFFER_SIZE - 1) takes out of a pipe. */
  function ReadFrom(pipe: string): string {
    if |pipe| < BUFFER_SIZE then pipe else pipe[..BUFFER_SIZE - 1]
  }

  function RestOf(pipe: string): string {
    pipe[|ReadFrom(pipe)|..]
  }

  /** sscanf(buffer, "TASK %d", &task_time): white space in the format skips blanks. */
  function ScanTask(s: string): Option<int> {
    if "TASK" <= s then ScanInt(SkipBlanks(s[4..])) else None
  }

  function SkipBlanks(s: string): string {
    if s != "" && s[0] == ' ' then SkipBlanks(s[1..]) else s
  }

  // ---------------------------------------------------------------------------
  // State

  datatype DispatcherPc = Idle | Waiting(command: Command) | KilledBySigpipe

  datatype DriverPc =
    | LoopTop
    | EnterSelect(timeout: Option<int>)
    | InSelect(deadline: Option<int>)
    | Readable
    | Handling(buffer: string)
    | Writing(response: string)
    | Dead

  datatype Outcome = Answer(response: string) | NotResponding

  /** A finished send_command: what was asked, what came back, and whether the driver
      took the task on in answer to it. */
  datatype Exchange = Exchange(command: Command, outcome: Outcome, accepted: bool)

  datatype Acceptance = Acceptance(at: int, duration: int)

  datatype State = State(
    clock: int,
    dispatcher: DispatcherPc,
    toDriver: string,
    toDispatcher: string,
    driver: DriverPc,
    busy: bool,
    endTime: int,
    // history, the last two the times of the latest loop top and of the latest select
    acceptances: seq<Acceptance>,
    exchanges: seq<Exchange>,
    acceptedNow: bool,
    checkedAt: int,
    selectAt: int)

  ghost predicate Init(s: State) {
    && s.dispatcher == Idle && s.toDriver == "" && s.toDispatcher == ""
    && s.driver == LoopTop && !s.busy && s.endTime == 0
    && s.acceptances == [] && s.exchanges == [] && !s.acceptedNow
  }

  /** send_task prints "Task sent" for any answer that does not begin with "Busy". */
  predicate ReportsTaskSent(e: Exchange) {
    e.command.Task? && e.outcome.Answer? && !("Busy" <= e.outcome.response)
  }

  // ---------------------------------------------------------------------------
  // Steps

  /** Tick lets time pass; Die is a signal or an error that ends the driver; `junk` is
      the uninitialised task_time should sscanf not match. */
  datatype Action =
    | Tick(seconds: nat)
    | Send(command: Command)
    | Receive
    | DriverStep(junk: int)
    | Timeout
    | Die

  predicate Enabled(s: State, a: Action) {
    match a
    case Tick(_) => true
    case Send(c) => s.dispatcher == Idle && (c.Task? ==> IsInt32(c.seconds))
    case Receive => s.dispatcher.Waiting? && (s.toDispatcher != "" || s.driver == Dead)
    case DriverStep(_) =>
      && s.driver != Dead
      && (s.driver.InSelect? || s.driver.Readable? ==> s.toDriver != "")
    case Timeout =>
      && s.driver.InSelect? && s.toDriver == ""
      && s.driver.deadline.Some? && s.clock >= s.driver.deadline.value
    case Die => s.driver != Dead
  }

  function BusyText(s: State): string {
    "Busy " + Decimal(if s.endTime - s.clock < 0 then 0 else s.endTime - s.clock)
  }

  function HandleCommand(s: State, buffer: string, junk: int): State {
    if "STATUS" <= buffer then
      s.(driver := Writing(if s.busy then BusyText(s) else "Available"))
    else if "TASK" <= buffer then
      var n := match ScanTask(buffer) case Some(v) => v case None => junk;
      if s.busy then s.(driver := Writing(BusyText(s)))
      else s.(busy := true, endTime := s.clock + n, driver := Writing("OK"),
              acceptances := s.acceptances + [Acceptance(s.clock, n)], acceptedNow := true)
    else s.(driver := LoopTop)
  }

  function DoDriver(s: State, junk: int): State {
    match s.driver
    case LoopTop =>
      if s.busy && s.endTime - s.clock <= 0 then
        s.(busy := false, endTime := 0, driver := EnterSelect(None), checkedAt := s.clock)
      else s.(driver := EnterSelect(if s.busy then Some(s.endTime - s.clock) else None), checkedAt := s.clock)
    case EnterSelect(None) => s.(driver := InSelect(None), selectAt := s.clock)
    case EnterSelect(Some(t)) => s.(driver := InSelect(Some(s.clock + t)), selectAt := s.clock)
    case InSelect(_) => s.(driver := Readable)
    case Readable => s.(driver := Handling(CStr(ReadFrom(s.toDriver))), toDriver := RestOf(s.toDriver))
    case Handling(buffer) => HandleCommand(s, buffer, junk)
    case Writing(response) => s.(toDispatcher := s.toDispatcher + Message(response), driver := LoopTop)
    case Dead => s
  }

  function Finish(s: State, outcome: Outcome): State
    requires s.dispatcher.Waiting?
  {
    s.(dispatcher := Idle, exchanges := s.exchanges + [Exchange(s.dispatcher.command, outcome, s.acceptedNow)])
  }

  function Do(s: State, a: Action): State
    requires Enabled(s, a)
  {
    match a
    case Tick(k) => s.(clock := s.clock + k)
    case Send(c) =>
      if s.driver == Dead then s.(dispatcher := KilledBySigpipe)
      else s.(dispatcher := Waiting(c), toDriver := s.toDriver + Message(CommandText(c)), acceptedNow := false)
    case Receive =>
      if s.toDispatcher == "" then Finish(s, NotResponding)
      else Finish(s.(toDispatcher := RestOf(s.toDispatcher)), Answer(CStr(ReadFrom(s.toDispatcher))))
    case DriverStep(junk) => DoDriver(s, junk)
    case Timeout => s.(driver := LoopTop, busy := false, endTime := 0)
    case Die => s.(driver := Dead)
  }

  // ---------------------------------------------------------------------------
  // Text facts

  lemma ReadWholeMessage(s: string)
    requires NoNul(s) && |s| < 64
    ensures CStr(ReadFrom(Message(s))) == s && RestOf(Message(s)) == ""
  {
    CStrTerminated(s, "");
    assert s + ['\0'] + "" == Message(s);
  }

  lemma TaskTextShape(n: int)
    requires IsInt32(n)
    ensures var t := CommandText(Task(n));
            && NoNul(t) && |t| < 64 && "TASK" <= t && t[4..] == " " + Decimal(n)
  {
    DecimalHasNoNul(n);
    IntLength(n);
    var t := CommandText(Task(n));
    assert t[..4] == "TASK";
    assert t[4..] == " " + Decimal(n);
  }

  lemma ScanTaskText(n: int)
    requires IsInt32(n)
    ensures ScanTask(CommandText(Task(n))) == Some(n)
  {
    TaskTextShape(n);
    ScanDecimal(n);
    var d := Decimal(n);
    assert (" " + d)[1..] == d;
    assert d[0] != ' ';
    assert SkipBlanks(" " + d) == SkipBlanks(d) == d;
  }

  lemma CommandTextShape(c: Command)
    requires c.Task? ==> IsInt32(c.seconds)
    ensures NoNul(CommandText(c)) && |CommandText(c)| < 64
    ensures c.Status? ==> "STATUS" <= CommandText(c)
    ensures c.Task? ==> !("STATUS" <= CommandText(c)) && "TASK" <= CommandText(c)
    ensures c.Task? ==> ScanTask(CommandText(c)) == Some(c.seconds)
  {
    if c.Task? {
      TaskTextShape(c.seconds);
      ScanTaskText(c.seconds);
      assert CommandText(c)[0] == 'T' && "STATUS"[0] == 'S';
    }
  }

  lemma BusyTextShape(s: State)
    requires s.endTime - s.clock < 0x8000_0000
    ensures NoNul(BusyText(s)) && |BusyText(s)| < 64 && "Busy" <= BusyText(s)
  {
    var r := if s.endTime - s.clock < 0 then 0 else s.endTime - s.clock;
    DecimalHasNoNul(r);
    IntLength(r);
    assert BusyText(s)[..4] == "Busy";
  }

  // ---------------------------------------------------------------------------
  // The invariant

  /** An answer that fits the command: "OK" exactly when the task was taken on. */
  ghost predicate Fits(response: string, c: Command, accepted: bool) {
    && NoNul(response) && response != "" && |response| < 64
    && (c.Task? ==> if accepted then response == "OK" else "Busy" <= response)
    && (c.Status? ==> !accepted && (response == "Available" || "Busy" <= response))
  }

  predicate AtRest(d: DriverPc) {
    d.LoopTop? || d.EnterSelect? || d.InSelect? || d.Readable? || d.Dead?
  }

  /** At most one message is under way, and it belongs to the command outstanding. */
  ghost predicate Lockstep(s: State) {
    match s.dispatcher
    case Idle =>
      && s.toDispatcher == "" && AtRest(s.driver) && !s.driver.Readable?
      && (s.toDriver == "" || (s.driver.Dead? && exists c :: s.toDriver == Message(CommandText(c))))
    case Waiting(c) =>
      && (c.Task? ==> IsInt32(c.seconds))
      && (s.driver.Readable? ==> s.toDriver != "")
      && (|| (AtRest(s.driver) && s.toDriver == Message(CommandText(c)) && s.toDispatcher == "" && !s.acceptedNow)
          || (s.driver == Handling(CommandText(c)) && s.toDriver == "" && s.toDispatcher == "" && !s.acceptedNow)
          || (s.driver.Writing? && s.toDriver == "" && s.toDispatcher == ""
              && Fits(s.driver.response, c, s.acceptedNow))
          || (AtRest(s.driver) && s.toDriver == "" && Answered(s, c))
          || (s.driver.Dead? && s.toDriver == "" && s.toDispatcher == ""))
    case KilledBySigpipe => s.driver == Dead
  }

  ghost predicate Answered(s: State, c: Command) {
    exists r :: Fits(r, c, s.acceptedNow) && s.toDispatcher == Message(r)
  }

  ghost predicate Follows(a: Acceptance, b: Acceptance) {
    b.at >= a.at && b.at >= a.at + a.duration
  }

  ghost predicate NoOverlap(s: State) {
    forall k :: 0 < k < |s.acceptances| ==> Follows(s.acceptances[k - 1], s.acceptances[k])
  }

  /** While busy, the last task ends at endTime; while free, it is over; and a time-out
      cannot come before endTime. */
  ghost predicate Timing(s: State) {
    && NoOverlap(s)
    && (s.acceptances != [] ==>
          var last := s.acceptances[|s.acceptances| - 1];
          && IsInt32(last.duration) && last.at <= s.clock
          && (if s.busy then s.endTime == last.at + last.duration else s.clock >= last.at + last.duration))
    && (s.busy ==> s.acceptances != [])
    && (!s.busy ==> s.endTime == 0)
    && (s.driver.EnterSelect? && s.driver.timeout.Some? ==> s.busy && s.clock + s.driver.timeout.value >= s.endTime)
    && (s.driver.InSelect? && s.driver.deadline.Some? ==> s.busy && s.driver.deadline.value >= s.endTime)
  }

  /** Has the driver looked at the clock since its last task or answer? */
  predicate HasChecked(d: DriverPc) {
    d.EnterSelect? || d.InSelect? || d.Readable? || d.Handling?
  }

  /** A free driver waits without a time-out; a busy one whose task is not over yet waits
      for just the time that was left when it looked. */
  ghost predicate Waits(s: State) {
    && (HasChecked(s.driver) ==> s.checkedAt <= s.clock && (s.busy ==> s.checkedAt < s.endTime))
    && (s.driver.EnterSelect? ==>
          s.driver.timeout == if s.busy then Some(s.endTime - s.checkedAt) else None)
    && (s.driver.InSelect? ==>
          && s.checkedAt <= s.selectAt <= s.clock
          && s.driver.deadline == if s.busy then Some(s.selectAt + (s.endTime - s.checkedAt)) else None)
  }

  lemma StepKeepsWaits(s: State, a: Action)
    requires Waits(s) && Enabled(s, a)
    ensures Waits(Do(s, a))
  {
    match a
    case DriverStep(junk) => DriverKeepsWaits(s, junk);
    case Tick(_) =>
    case Send(_) =>
    case Receive =>
    case Timeout =>
    case Die =>
  }

  lemma DriverKeepsWaits(s: State, junk: int)
    requires Waits(s) && Enabled(s, DriverStep(junk))
    ensures Waits(DoDriver(s, junk))
  {
  }

  ghost predicate ExchangesRight(s: State) {
    forall e :: e in s.exchanges ==> ExchangeRight(e)
  }

  /** "Task sent" is reported only for an accepted task, and an accepted task goes
      unreported only if the driver died before answering. */
  ghost predicate ExchangeRight(e: Exchange) {
    && (e.outcome.Answer? && e.command.Task? ==> (ReportsTaskSent(e) <==> e.accepted))
    && (e.outcome.Answer? ==> Fits(e.outcome.response, e.command, e.accepted))
    && (e.command.Status? ==> !e.accepted)
  }

  ghost predicate Inv(s: State) {
    && Lockstep(s) && Timing(s) && ExchangesRight(s)
    && (s.dispatcher.Waiting? && s.dispatcher.command.Status? ==> !s.acceptedNow)
  }

  /** What handling a command does to the state: a free driver takes a task on,
      anything else leaves the driver's task as it was. */
  ghost predicate Handled(s: State, s': State, c: Command) {
    && s'.driver.Writing? && s'.dispatcher == s.dispatcher && s'.exchanges == s.exchanges
    && s'.toDriver == s.toDriver && s'.toDispatcher == s.toDispatcher && s'.clock == s.clock
    && (if c.Task? && !s.busy
        then && s'.acceptances == s.acceptances + [Acceptance(s.clock, c.seconds)] && s'.acceptedNow
             && s'.busy && s'.endTime == s.clock + c.seconds
        else && s'.acceptances == s.acceptances && !s'.acceptedNow
             && s'.busy == s.busy && s'.endTime == s.endTime)
  }

  /** "Busy" and the seconds until the last accepted task is over, 0 when it is. */
  ghost predicate TellsTimeLeft(r: string, s: State) {
    && s.acceptances != [] && |r| > 5 && r[..5] == "Busy "
    && var last := s.acceptances[|s.acceptances| - 1];
       var left := last.at + last.duration - s.clock;
       ScanInt(r[5..]) == Some(if left < 0 then 0 else left)
  }

  lemma BusyTextTellsTimeLeft(s: State)
    requires Timing(s) && s.busy
    ensures TellsTimeLeft(BusyText(s), s)
  {
    var left := if s.endTime - s.clock < 0 then 0 else s.endTime - s.clock;
    ScanDecimal(left);
    assert BusyText(s)[..5] == "Busy " && BusyText(s)[5..] == Decimal(left);
  }

  lemma HandleFits(s: State, junk: int)
    requires Inv(s) && s.driver.Handling?
    ensures Handled(s, DoDriver(s, junk), s.dispatcher.command)
    ensures Fits(DoDriver(s, junk).driver.response, s.dispatcher.command, DoDriver(s, junk).acceptedNow)
    ensures !s.acceptedNow
    ensures var r := DoDriver(s, junk).driver.response;
            if s.busy then TellsTimeLeft(r, s) else r == if s.dispatcher.command.Status? then "Available" else "OK"
  {
    CommandTextShape(s.dispatcher.command);
    if s.busy {
      BusyTextShape(s);
      BusyTextTellsTimeLeft(s);
    }
  }

  lemma HandledKeepsTiming(s: State, s': State, c: Command)
    requires Timing(s) && Handled(s, s', c) && (c.Task? ==> IsInt32(c.seconds))
    ensures Timing(s')
  {
  }

  /** The driver reads the outstanding command, whole. */
  lemma ReadingKeepsLockstep(s: State, junk: int)
    requires Inv(s) && Enabled(s, DriverStep(junk)) && s.driver.Readable?
    ensures Lockstep(DoDriver(s, junk))
  {
    CommandTextShape(s.dispatcher.command);
    ReadWholeMessage(CommandText(s.dispatcher.command));
  }

  lemma HandlingKeepsLockstep(s: State, junk: int)
    requires Inv(s) && s.driver.Handling?
    ensures Lockstep(DoDriver(s, junk))
  {
    HandleFits(s, junk);
  }

  lemma WritingKeepsLockstep(s: State, junk: int)
    requires Inv(s) && s.driver.Writing?
    ensures Lockstep(DoDriver(s, junk))
  {
    assert s.toDispatcher + Message(s.driver.response) == Message(s.driver.response);
  }

  lemma WaitingKeepsLockstep(s: State, junk: int)
    requires Lockstep(s) && Enabled(s, DriverStep(junk))
    requires s.driver.LoopTop? || s.driver.EnterSelect? || s.driver.InSelect?
    ensures Lockstep(DoDriver(s, junk))
  {
    var s' := DoDriver(s, junk);
    assert AtRest(s'.driver) && s'.toDriver == s.toDriver && s'.toDispatcher == s.toDispatcher;
  }

  lemma DriverKeepsLockstep(s: State, junk: int)
    requires Inv(s) && Enabled(s, DriverStep(junk))
    ensures Lockstep(DoDriver(s, junk))
  {
    match s.driver
    case Handling(_) => HandlingKeepsLockstep(s, junk);
    case Readable => ReadingKeepsLockstep(s, junk);
    case Writing(_) => WritingKeepsLockstep(s, junk);
    case LoopTop => WaitingKeepsLockstep(s, junk);
    case EnterSelect(_) => WaitingKeepsLockstep(s, junk);
    case InSelect(_) => WaitingKeepsLockstep(s, junk);
  }

  /** The driver decides whether its task is over, and how long to wait if not. */
  lemma LoopTopKeepsTiming(s: State, junk: int)
    requires Timing(s) && s.driver.LoopTop?
    ensures Timing(DoDriver(s, junk))
  {
    assert NoOverlap(DoDriver(s, junk));
  }

  lemma SelectKeepsTiming(s: State, junk: int)
    requires Timing(s) && s.driver.EnterSelect?
    ensures Timing(DoDriver(s, junk))
  {
    assert NoOverlap(DoDriver(s, junk));
  }

  lemma DriverKeepsTiming(s: State, junk: int)
    requires Inv(s) && Enabled(s, DriverStep(junk)) && !s.driver.Handling?
    ensures Timing(DoDriver(s, junk))
  {
    if s.driver.LoopTop? {
      LoopTopKeepsTiming(s, junk);
    } else if s.driver.EnterSelect? {
      SelectKeepsTiming(s, junk);
    } else {
      var s' := DoDriver(s, junk);
      assert s'.acceptances == s.acceptances && s'.clock == s.clock && s'.busy == s.busy && s'.endTime == s.endTime;
    }
  }

  lemma DriverKeepsInv(s: State, junk: int)
    requires Inv(s) && Enabled(s, DriverStep(junk))
    ensures Inv(DoDriver(s, junk))
  {
    DriverKeepsLockstep(s, junk);
    if s.driver.Handling? {
      HandleFits(s, junk);
      HandledKeepsTiming(s, DoDriver(s, junk), s.dispatcher.command);
    } else {
      DriverKeepsTiming(s, junk);
    }
    assert DoDriver(s, junk).exchanges == s.exchanges;
  }

  /** The dispatcher reads the whole answer to its own command. */
  lemma ReceiveReads(s: State)
    requires Inv(s) && s.dispatcher.Waiting? && s.toDispatcher != ""
    ensures RestOf(s.toDispatcher) == "" && s.toDriver == ""
    ensures Fits(CStr(ReadFrom(s.toDispatcher)), s.dispatcher.command, s.acceptedNow)
  {
    var r :| Fits(r, s.dispatcher.command, s.acceptedNow) && s.toDispatcher == Message(r);
    ReadWholeMessage(r);
  }

  lemma FitsIsRight(r: string, c: Command, accepted: bool)
    requires Fits(r, c, accepted)
    ensures ExchangeRight(Exchange(c, Answer(r), accepted))
  {
  }

  lemma ReceiveKeepsInv(s: State)
    requires Inv(s) && Enabled(s, Receive)
    ensures Inv(Do(s, Receive))
  {
    var c, s' := s.dispatcher.command, Do(s, Receive);
    if s.toDispatcher != "" {
      ReceiveReads(s);
      FitsIsRight(CStr(ReadFrom(s.toDispatcher)), c, s.acceptedNow);
    }
    OthersKeepTiming(s, s');
    ReceiveKeepsLockstep(s);
    assert s'.exchanges == s.exchanges + [s'.exchanges[|s.exchanges|]];
  }

  lemma ReceiveKeepsLockstep(s: State)
    requires Inv(s) && Enabled(s, Receive)
    ensures Lockstep(Do(s, Receive))
  {
    if s.toDispatcher != "" {
      ReceiveReads(s);
    }
  }

  /** Timing is a matter of the clock and the driver. */
  lemma OthersKeepTiming(s: State, s': State)
    requires Timing(s) && s'.clock == s.clock && s'.acceptances == s.acceptances
    requires s'.driver == s.driver && s'.busy == s.busy && s'.endTime == s.endTime
    ensures Timing(s')
  {
  }

  lemma TimePassesKeepsTiming(s: State, s': State)
    requires Timing(s) && s'.clock >= s.clock && s'.acceptances == s.acceptances
    requires s'.driver == s.driver && s'.busy == s.busy && s'.endTime == s.endTime
    ensures Timing(s')
  {
  }

  /** The driver dies, or its select times out. */
  lemma DriverLeavesKeepsInv(s: State, a: Action)
    requires Inv(s) && Enabled(s, a) && (a.Timeout? || a.Die?)
    ensures Inv(Do(s, a))
  {
    var s' := Do(s, a);
    assert s'.acceptances == s.acceptances && s'.exchanges == s.exchanges && s'.clock == s.clock;
  }

  lemma SendKeepsInv(s: State, c: Command)
    requires Inv(s) && Enabled(s, Send(c))
    ensures Inv(Do(s, Send(c)))
  {
    if s.driver != Dead {
      assert s.toDriver + Message(CommandText(c)) == Message(CommandText(c));
    }
    OthersKeepTiming(s, Do(s, Send(c)));
  }

  lemma StepKeepsInv(s: State, a: Action)
    requires Inv(s) && Enabled(s, a)
    ensures Inv(Do(s, a))
  {
    match a
    case Tick(_) => TimePassesKeepsTiming(s, Do(s, a));
    case Send(c) => SendKeepsInv(s, c);
    case Receive => ReceiveKeepsInv(s);
    case DriverStep(junk) => DriverKeepsInv(s, junk);
    case Timeout => DriverLeavesKeepsInv(s, a);
    case Die => DriverLeavesKeepsInv(s, a);
  }

  // ---------------------------------------------------------------------------
  // Runs

  /** A path of the system; a run is a path from an initial state. */
  ghost predicate Path(states: seq<State>, acts: seq<Action>) {
    && |states| == |acts| + 1
    && (forall i :: 0 <= i < |acts| ==> Enabled(states[i], acts[i]) && states[i + 1] == Do(states[i], acts[i]))
  }

  ghost predicate Run(states: seq<State>, acts: seq<Action>) {
    Path(states, acts) && Init(states[0])
  }

  lemma {:induction false} RunKeepsInv(states: seq<State>, acts: seq<Action>, i: nat)
    requires Run(states, acts) && i < |states|
    ensures Inv(states[i])
  {
    if i > 0 {
      RunKeepsInv(states, acts, i - 1);
      StepKeepsInv(states[i - 1], acts[i - 1]);
    }
  }

  /** Over every mix of commands, time-outs, delays and deaths, the tasks a driver
      accepts do not overlap: any later acceptance waits for the task to be over. */
  lemma TasksNeverOverlap(states: seq<State>, acts: seq<Action>, i: nat, j: nat, k: nat)
    requires Run(states, acts) && i < |states| && j < k < |states[i].acceptances|
    ensures states[i].acceptances[k].at >= states[i].acceptances[j].at + states[i].acceptances[j].duration
  {
    RunKeepsInv(states, acts, i);
    OverlapChain(states[i].acceptances, j, k);
  }

  /** Is some accepted task still going on? */
  ghost predicate TaskRunning(s: State) {
    exists k :: 0 <= k < |s.acceptances| && s.clock < s.acceptances[k].at + s.acceptances[k].duration
  }

  lemma {:induction false} RunKeepsWaits(states: seq<State>, acts: seq<Action>, i: nat)
    requires Run(states, acts) && i < |states|
    ensures Waits(states[i])
  {
    if i > 0 {
      RunKeepsWaits(states, acts, i - 1);
      StepKeepsWaits(states[i - 1], acts[i - 1]);
    }
  }

  /** Each time round its loop the driver is busy afterwards if and only if an accepted task
      is still going on, and it then waits with a time-out, of what is left of that task. */
  lemma FreedWhenOver(states: seq<State>, acts: seq<Action>, i: nat)
    requires Run(states, acts) && i < |acts| && acts[i].DriverStep? && states[i].driver.LoopTop?
    ensures var s, s' := states[i], states[i + 1];
            && s'.driver.EnterSelect? && s'.checkedAt == s.clock == s'.clock
            && (s'.busy <==> TaskRunning(s))
            && (s'.driver.timeout.Some? <==> TaskRunning(s))
            && (TaskRunning(s) ==>
                  s'.driver.timeout.value == s.acceptances[|s.acceptances| - 1].at
                                             + s.acceptances[|s.acceptances| - 1].duration - s.clock)
  {
    var s := states[i];
    RunKeepsInv(states, acts, i);
    if TaskRunning(s) {
      var k :| 0 <= k < |s.acceptances| && s.clock < s.acceptances[k].at + s.acceptances[k].duration;
      if k < |s.acceptances| - 1 {
        OverlapChain(s.acceptances, k, |s.acceptances| - 1);
      }
    }
    if s.busy && s.endTime > s.clock {
      assert s.clock < s.acceptances[|s.acceptances| - 1].at + s.acceptances[|s.acceptances| - 1].duration;
    }
  }

  /** A busy driver's select does time out: not before the end of its task, and late by
      exactly the time that went by between looking at the clock and entering select; and
      the driver is free then. */
  lemma TimeoutIsPrompt(states: seq<State>, acts: seq<Action>, i: nat)
    requires Run(states, acts) && i < |states| && states[i].driver.InSelect?
    ensures var s := states[i];
            && (s.driver.deadline.None? <==> !s.busy)
            && s.checkedAt <= s.selectAt <= s.clock
            && (s.busy ==>
                  && s.acceptances != []
                  && s.driver.deadline.value == s.acceptances[|s.acceptances| - 1].at
                                                + s.acceptances[|s.acceptances| - 1].duration
                                                + (s.selectAt - s.checkedAt))
    ensures i < |acts| && acts[i].Timeout? ==> !states[i + 1].busy && states[i + 1].driver.LoopTop?
  {
    RunKeepsInv(states, acts, i);
    RunKeepsWaits(states, acts, i);
  }

  /** So a driver takes the next task unless the one before was still going on when it last
      looked at the clock. */
  lemma NextTaskIsTaken(states: seq<State>, acts: seq<Action>, i: nat)
    requires Run(states, acts) && i < |acts| && acts[i].DriverStep? && states[i].driver.Handling?
    requires states[i].dispatcher.Waiting? && states[i].dispatcher.command.Task?
    requires forall k :: 0 <= k < |states[i].acceptances| ==>
               states[i].acceptances[k].at + states[i].acceptances[k].duration <= states[i].checkedAt
    ensures states[i + 1].driver == Writing("OK") && states[i + 1].acceptedNow
    ensures states[i + 1].acceptances
         == states[i].acceptances + [Acceptance(states[i].clock, states[i].dispatcher.command.seconds)]
  {
    RunKeepsInv(states, acts, i);
    RunKeepsWaits(states, acts, i);
    HandleFits(states[i], acts[i].junk);
  }

  lemma {:induction false} OverlapChain(a: seq<Acceptance>, j: nat, k: nat)
    requires j < k < |a|
    requires forall m :: 0 < m < |a| ==> Follows(a[m - 1], a[m])
    ensures Follows(a[j], a[k])
  {
    if j + 1 < k {
      OverlapChain(a, j, k - 1);
    }
    assert Follows(a[k - 1], a[k]);
  }

  /** What is in the pipes: at most one whole message, and it is the outstanding command or
      an answer to it. Between commands both are empty, but for a command no one lives to read. */
  ghost predicate OneMessage(s: State) {
    match s.dispatcher
    case Idle =>
      s.toDispatcher == "" && (s.toDriver == "" || (s.driver == Dead && exists c :: s.toDriver == Message(CommandText(c))))
    case Waiting(c) =>
      && (s.toDriver == "" || s.toDispatcher == "")
      && (s.toDriver == "" || s.toDriver == Message(CommandText(c)))
      && (s.toDispatcher == "" || Answered(s, c))
    case KilledBySigpipe => s.driver == Dead
  }

  /** The two pipes together never hold more than one message, and what the dispatcher
      reads answers the command it sent, a STATUS as well as a TASK: "Task sent" is reported
      exactly for the tasks the driver took on, unless the driver died without answering. */
  lemma AnswersMatchCommands(states: seq<State>, acts: seq<Action>, i: nat)
    requires Run(states, acts) && i < |states|
    ensures OneMessage(states[i])
    ensures forall e :: e in states[i].exchanges && e.outcome.Answer? ==>
              Fits(e.outcome.response, e.command, e.accepted)
    ensures forall e :: e in states[i].exchanges && e.command.Task? && e.outcome.Answer? ==>
              (ReportsTaskSent(e) <==> e.accepted)
    ensures forall e :: e in states[i].exchanges && e.outcome == NotResponding ==> states[i].driver == Dead
  {
    RunKeepsInv(states, acts, i);
    SilenceMeansDead(states, acts, i);
  }

  // ---------------------------------------------------------------------------
  // Progress: send_command reads without a time-out, and is not left waiting

  ghost predicate AwaitsDriver(s: State) {
    s.dispatcher.Waiting? && s.driver != Dead && s.toDispatcher == ""
  }

  /** How many steps separate the driver from its answer. */
  function Rank(d: DriverPc): nat {
    match d
    case LoopTop => 6
    case EnterSelect(_) => 5
    case InSelect(_) => 4
    case Readable => 3
    case Handling(_) => 2
    case Writing(_) => 1
    case Dead => 0
  }

  /** While an answer is owed the driver can move, its select cannot time out, and each
      of its steps brings the answer nearer. */
  lemma DriverNearsAnswer(s: State, junk: int)
    requires Inv(s) && AwaitsDriver(s)
    ensures Enabled(s, DriverStep(junk)) && !Enabled(s, Timeout)
    ensures var s' := Do(s, DriverStep(junk));
            && s'.dispatcher == s.dispatcher
            && (Answered(s', s.dispatcher.command) || (AwaitsDriver(s') && Rank(s'.driver) == Rank(s.driver) - 1))
  {
    if s.driver.Handling? {
      HandleFits(s, junk);
    } else if s.driver.Writing? {
      WritingAnswers(s, junk);
    }
  }

  lemma WritingAnswers(s: State, junk: int)
    requires Inv(s) && AwaitsDriver(s) && s.driver.Writing?
    ensures Answered(DoDriver(s, junk), s.dispatcher.command)
  {
    assert s.toDispatcher + Message(s.driver.response) == Message(s.driver.response);
  }

  function DriverSteps(acts: seq<Action>): nat {
    if acts == [] then 0
    else DriverSteps(acts[..|acts| - 1]) + (if acts[|acts| - 1].DriverStep? then 1 else 0)
  }

  /** Nothing but the driver and the clock moves meanwhile, so an answer is there after at
      most six steps of the driver, however they are spread over time. */
  lemma {:induction false} AnswerWithinSixSteps(states: seq<State>, acts: seq<Action>)
    requires Path(states, acts) && Inv(states[0])
    requires forall i :: 0 <= i < |states| ==> AwaitsDriver(states[i])
    ensures Inv(states[|acts|])
    ensures forall i :: 0 <= i < |acts| ==> acts[i].Tick? || acts[i].DriverStep?
    ensures DriverSteps(acts) + Rank(states[|acts|].driver) == Rank(states[0].driver)
    ensures DriverSteps(acts) < 6
    decreases |acts|
  {
    if acts != [] {
      var n := |acts| - 1;
      AnswerWithinSixSteps(states[..n + 1], acts[..n]);
      StepNearsAnswer(states[n], acts[n], states[n + 1]);
      forall i | 0 <= i < |acts|
        ensures acts[i].Tick? || acts[i].DriverStep?
      {
        assert i < n ==> acts[i] == acts[..n][i];
      }
    }
  }

  lemma StepNearsAnswer(s: State, a: Action, s': State)
    requires Inv(s) && Enabled(s, a) && s' == Do(s, a) && AwaitsDriver(s) && AwaitsDriver(s')
    ensures Inv(s') && (a.Tick? || a.DriverStep?)
    ensures Rank(s'.driver) + (if a.DriverStep? then 1 else 0) == Rank(s.driver)
  {
    StepKeepsInv(s, a);
    OnlyDriverMoves(s, a);
    if a.DriverStep? {
      DriverNearsAnswer(s, a.junk);
    }
  }

  lemma OnlyDriverMoves(s: State, a: Action)
    requires Inv(s) && AwaitsDriver(s) && Enabled(s, a) && AwaitsDriver(Do(s, a))
    ensures a.Tick? || a.DriverStep?
  {
    DriverNearsAnswer(s, 0);
  }

  /** A read of the dispatcher is never stuck: it can go on, or the driver can. */
  lemma ReadIsNeverStuck(states: seq<State>, acts: seq<Action>, i: nat, junk: int)
    requires Run(states, acts) && i < |states| && states[i].dispatcher.Waiting?
    ensures Enabled(states[i], Receive) || Enabled(states[i], DriverStep(junk))
  {
    RunKeepsInv(states, acts, i);
    if AwaitsDriver(states[i]) {
      DriverNearsAnswer(states[i], junk);
    }
  }

  lemma {:induction false} SilenceMeansDead(states: seq<State>, acts: seq<Action>, i: nat)
    requires Run(states, acts) && i < |states|
    ensures forall e :: e in states[i].exchanges && e.outcome == NotResponding ==> states[i].driver == Dead
  {
    if i > 0 {
      SilenceMeansDead(states, acts, i - 1);
    }
  }

  /** The commands sent, in order. */
  ghost function Sent(acts: seq<Action>): seq<Command> {
    if acts == [] then []
    else Sent(acts[..|acts| - 1]) + if acts[|acts| - 1].Send? then [acts[|acts| - 1].command] else []
  }

  ghost function Commands(es: seq<Exchange>): seq<Command> {
    seq(|es|, i requires 0 <= i < |es| => es[i].command)
  }

  /** Every command sent has been finished, in order, but for the one outstanding; and the
      one sent to a driver already dead, which ends the dispatcher. */
  lemma {:induction false} EveryCommandIsAccounted(states: seq<State>, acts: seq<Action>, i: nat)
    requires Run(states, acts) && i < |states|
    ensures var sent, done := Sent(acts[..i]), Commands(states[i].exchanges);
            match states[i].dispatcher
            case Idle => sent == done
            case Waiting(c) => sent == done + [c]
            case KilledBySigpipe => |sent| == |done| + 1 && done <= sent && states[i].driver == Dead
  {
    if i > 0 {
      EveryCommandIsAccounted(states, acts, i - 1);
      RunKeepsInv(states, acts, i - 1);
      assert acts[..i][..i - 1] == acts[..i - 1];
      StepAccounts(states[i - 1], acts[i - 1]);
    }
  }

  lemma StepAccounts(s: State, a: Action)
    requires Enabled(s, a) && (s.dispatcher == KilledBySigpipe ==> s.driver == Dead)
    ensures var s' := Do(s, a);
            && (s'.dispatcher == KilledBySigpipe ==> s'.driver == Dead)
            && (a.Receive? ==> s.dispatcher.Waiting? && s'.dispatcher == Idle
                               && Commands(s'.exchanges) == Commands(s.exchanges) + [s.dispatcher.command])
            && (a.Send? ==> s.dispatcher == Idle && s'.exchanges == s.exchanges
                            && s'.dispatcher == if s.driver == Dead then KilledBySigpipe else Waiting(a.command))
            && (!a.Receive? && !a.Send? ==> s'.dispatcher == s.dispatcher && s'.exchanges == s.exchanges)
  {
  }

  /** Durations are what was asked: the accepted tasks are, in order, the numbers in the
      TASK commands that were accepted. */
  ghost function AskedAndAccepted(s: State): seq<int> {
    Granted(s.exchanges) + (if s.dispatcher.Waiting? && s.acceptedNow && s.dispatcher.command.Task?
                            then [s.dispatcher.command.seconds] else [])
  }

  ghost function Granted(es: seq<Exchange>): seq<int> {
    if es == [] then []
    else
      var e := es[|es| - 1];
      Granted(es[..|es| - 1]) + if e.accepted && e.command.Task? then [e.command.seconds] else []
  }

  ghost function Durations(a: seq<Acceptance>): seq<int> {
    seq(|a|, i requires 0 <= i < |a| => a[i].duration)
  }

  lemma {:induction false} AcceptedAsAsked(states: seq<State>, acts: seq<Action>, i: nat)
    requires Run(states, acts) && i < |states|
    ensures states[i].dispatcher != KilledBySigpipe ==>
              Durations(states[i].acceptances) == AskedAndAccepted(states[i])
  {
    if i > 0 {
      AcceptedAsAsked(states, acts, i - 1);
      RunKeepsInv(states, acts, i - 1);
      StepKeepsGrants(states[i - 1], acts[i - 1]);
    }
  }

  lemma StepKeepsGrants(s: State, a: Action)
    requires Inv(s) && Enabled(s, a)
    requires s.dispatcher != KilledBySigpipe ==> Durations(s.acceptances) == AskedAndAccepted(s)
    ensures Do(s, a).dispatcher != KilledBySigpipe ==>
              Durations(Do(s, a).acceptances) == AskedAndAccepted(Do(s, a))
  {
    match a
    case DriverStep(junk) => DriverKeepsGrants(s, junk);
    case Receive =>
      var s' := Do(s, a);
      assert s'.exchanges[..|s.exchanges|] == s.exchanges;
    case Tick(_) =>
    case Send(c) =>
    case Timeout =>
    case Die =>
  }

  lemma DriverKeepsGrants(s: State, junk: int)
    requires Inv(s) && Enabled(s, DriverStep(junk))
    requires s.dispatcher != KilledBySigpipe && Durations(s.acceptances) == AskedAndAccepted(s)
    ensures Durations(DoDriver(s, junk).acceptances) == AskedAndAccepted(DoDriver(s, junk))
  {
    if s.driver.Handling? {
      HandleFits(s, junk);
      HandledKeepsGrants(s, DoDriver(s, junk), s.dispatcher.command);
    } else {
      var s' := DoDriver(s, junk);
      assert s'.acceptances == s.acceptances && s'.exchanges == s.exchanges
          && s'.dispatcher == s.dispatcher && s'.acceptedNow == s.acceptedNow;
    }
  }

  lemma HandledKeepsGrants(s: State, s': State, c: Command)
    requires s.dispatcher == Waiting(c) && Handled(s, s', c) && !s.acceptedNow
    requires Durations(s.acceptances) == AskedAndAccepted(s)
    ensures Durations(s'.acceptances) == AskedAndAccepted(s')
  {
    assert AskedAndAccepted(s) == Granted(s.exchanges);
    if c.Task? && !s.busy {
      assert Durations(s'.acceptances) == Durations(s.acceptances) + [c.seconds];
    } else {
      assert AskedAndAccepted(s') == Granted(s'.exchanges);
    }
  }
}
