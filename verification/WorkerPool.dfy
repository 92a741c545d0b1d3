/** The worker pool of SocketsSS/TaskThree/server.c as a transition system: one
    acceptor, any number of workers, one queue mutex, one condition variable, and
    for each worker its own mutex, condition variable and is_busy flag. Every
    statement that touches shared memory is a step of its own. Connections are
    identified by ids that are never reused. */
module WorkerPool {
  import opened ClientQueue

  type Conn = nat

  datatype Reply = Time | NotTime | QueueFull

  /** strncmp(message, "TIME", 4) == 0 decides what a worker answers. */
  function Answer(message: string): Reply {
    if "TIME" <= message then Time else NotTime
  }

  datatype Owner = Nobody | Main | Worker(index: nat)

  /** Where the acceptor stands; the parameters are its local variables. */
  datatype MainPc =
    | Accepting
    | Reading(c: Conn)
    | Locking(c: Conn, m: string)
    | Testing(c: Conn, m: string)
    | StoringFd(c: Conn, m: string)
    | StoringMessage(c: Conn, m: string)
    | MovingRear(c: Conn, m: string)
    | CountingIn(c: Conn, m: string)
    | Signalling
    | RejectSending(c: Conn)
    | RejectClosing(c: Conn)
    | Unlocking

  datatype WorkerPc =
    | OwnLock | OwnTest | OwnAsleep | OwnRelock | OwnSet | OwnUnlock
    | QueueLock | QueueTest | QueueWait | QueueAsleep | QueueRelock
    | TakeFd
    | TakeMessage(c: Conn)
    | MoveFront(c: Conn, m: string)
    | CountOut(c: Conn, m: string)
    | QueueUnlock(c: Conn, m: string)
    | Sending(c: Conn, m: string)
    | Closing(c: Conn)
    | DoneLock | DoneClear | DoneSignal | DoneUnlock

  datatype WorkerState = WorkerState(pc: WorkerPc, busy: bool, ownHeld: bool)

  /** The program's state, and below it the history the theorems speak of:
      `replied` counts the send calls on each connection and `answer` keeps what was
    sent; `served` and `rejected` count the two calls of close. */
  datatype State = State(
    ring: Ring,
    owner: Owner,
    main: MainPc,
    workers: seq<WorkerState>,
    accepted: set<Conn>,
    received: map<Conn, string>,
    enqueued: seq<Item>,
    dequeued: seq<Item>,
    replied: multiset<Conn>,
    answer: map<Conn, Reply>,
    served: multiset<Conn>,
    rejected: multiset<Conn>)

  function Closed(s: State): multiset<Conn> {
    s.served + s.rejected
  }

  ghost predicate Init(s: State) {
    && WellFormed(s.ring) && s.ring.count == 0
    && s.owner == Nobody && s.main == Accepting
    && (forall w :: 0 <= w < |s.workers| ==> s.workers[w] == WorkerState(OwnLock, false, false))
    && s.accepted == {} && s.received == map[] && s.enqueued == [] && s.dequeued == []
    && s.replied == multiset{} && s.answer == map[]
    && s.served == multiset{} && s.rejected == multiset{}
  }

  // ---------------------------------------------------------------------------
  // Steps

  /** Accept, Read and Spurious are the environment's; `wake` is the sleeper that
      pthread_cond_signal picks when there is one. */
  datatype Action =
    | Accept(c: Conn)
    | Read(m: string)
    | MainStep(wake: nat)
    | WorkerStep(w: nat)
    | Spurious(w: nat)

  predicate Asleep(w: WorkerState) { w.pc == QueueAsleep }

  ghost predicate Enabled(s: State, a: Action) {
    match a
    case Accept(c) => s.main == Accepting && c !in s.accepted
    case Read(m) => s.main.Reading?
    case MainStep(wake) =>
      && !s.main.Accepting? && !s.main.Reading?
      && (s.main.Locking? ==> s.owner == Nobody)
      && (s.main.Signalling? && (exists w :: 0 <= w < |s.workers| && Asleep(s.workers[w])) ==>
            wake < |s.workers| && Asleep(s.workers[wake]))
    case WorkerStep(w) =>
      && w < |s.workers|
      && (match s.workers[w].pc
          case QueueLock => s.owner == Nobody
          case QueueRelock => s.owner == Nobody
          case OwnLock => !s.workers[w].ownHeld
          case OwnRelock => !s.workers[w].ownHeld
          case DoneLock => !s.workers[w].ownHeld
          case QueueAsleep => false
          case OwnAsleep => false
          case _ => true)
    case Spurious(w) =>
      w < |s.workers| && (s.workers[w].pc == QueueAsleep || s.workers[w].pc == OwnAsleep)
  }

  /** A step that is neither a new client, nor a client's data, nor a spurious wakeup. */
  predicate Internal(a: Action) {
    a.MainStep? || a.WorkerStep?
  }

  function WithFd(r: Ring, c: Conn): Ring
    requires r.rear < |r.slots|
  {
    r.(slots := r.slots[r.rear := r.slots[r.rear].(fd := c)])
  }

  function WithMessage(r: Ring, m: string): Ring
    requires r.rear < |r.slots|
  {
    r.(slots := r.slots[r.rear := r.slots[r.rear].(message := m)])
  }

  ghost predicate InRange(s: State) {
    s.ring.front < |s.ring.slots| && s.ring.rear < |s.ring.slots|
  }

  datatype MainMove = MainMove(ring: Ring, owner: Owner, pc: MainPc)

  /** The acceptor's code, one row a step. */
  function MainCode(r: Ring, o: Owner, pc: MainPc): MainMove
    requires r.front < |r.slots| && r.rear < |r.slots|
  {
    match pc
    case Locking(c, m) => MainMove(r, Main, Testing(c, m))
    case Testing(c, m) => MainMove(r, o, if r.count < |r.slots| then StoringFd(c, m) else RejectSending(c))
    case StoringFd(c, m) => MainMove(WithFd(r, c), o, StoringMessage(c, m))
    case StoringMessage(c, m) => MainMove(WithMessage(r, m), o, MovingRear(c, m))
    case MovingRear(c, m) => MainMove(r.(rear := Wrap(r.rear, 1, |r.slots|)), o, CountingIn(c, m))
    case CountingIn(c, m) => MainMove(r.(count := r.count + 1), o, Signalling)
    case Signalling => MainMove(r, o, Unlocking)
    case RejectSending(c) => MainMove(r, o, RejectClosing(c))
    case RejectClosing(c) => MainMove(r, o, Unlocking)
    case Unlocking => MainMove(r, Nobody, Accepting)
    case Accepting => MainMove(r, o, pc)
    case Reading(_) => MainMove(r, o, pc)
  }

  /** Does the step wake worker `wake`? */
  predicate Wakes(s: State, wake: nat) {
    s.main.Signalling? && wake < |s.workers| && Asleep(s.workers[wake])
  }

  function DoMain(s: State, wake: nat): State
    requires InRange(s)
  {
    var move := MainCode(s.ring, s.owner, s.main);
    s.(ring := move.ring, owner := move.owner, main := move.pc,
       workers := if Wakes(s, wake) then s.workers[wake := s.workers[wake].(pc := QueueRelock)] else s.workers,
       enqueued := if s.main.CountingIn? then s.enqueued + [Item(s.main.c, s.main.m)] else s.enqueued,
       replied := if s.main.RejectSending? then s.replied + multiset{s.main.c} else s.replied,
       answer := if s.main.RejectSending? then s.answer[s.main.c := QueueFull] else s.answer,
       rejected := if s.main.RejectClosing? then s.rejected + multiset{s.main.c} else s.rejected)
  }

  /** The worker's own mutex, condition variable and flag: no other thread uses them. */
  predicate OwnPart(pc: WorkerPc) {
    || pc.OwnLock? || pc.OwnTest? || pc.OwnAsleep? || pc.OwnRelock? || pc.OwnSet? || pc.OwnUnlock?
    || pc.DoneLock? || pc.DoneClear? || pc.DoneSignal? || pc.DoneUnlock?
  }

  function OwnCode(me: WorkerState): WorkerState {
    match me.pc
    case OwnLock => WorkerState(OwnTest, me.busy, true)
    case OwnTest => if me.busy then WorkerState(OwnAsleep, true, false) else WorkerState(OwnSet, false, me.ownHeld)
    case OwnRelock => WorkerState(OwnTest, me.busy, true)
    case OwnSet => WorkerState(OwnUnlock, true, me.ownHeld)
    case OwnUnlock => WorkerState(QueueLock, me.busy, false)
    case DoneLock => WorkerState(DoneClear, me.busy, true)
    case DoneClear => WorkerState(DoneSignal, false, me.ownHeld)
    case DoneSignal => WorkerState(DoneUnlock, me.busy, me.ownHeld)
    case DoneUnlock => WorkerState(OwnLock, me.busy, false)
    case _ => me
  }

  datatype WorkerMove = WorkerMove(ring: Ring, owner: Owner, pc: WorkerPc)

  /** dequeue_client, then the reply and the close. */
  function ServeCode(r: Ring, o: Owner, w: nat, pc: WorkerPc): WorkerMove
    requires r.front < |r.slots|
  {
    match pc
    case QueueLock => WorkerMove(r, Worker(w), QueueTest)
    case QueueTest => WorkerMove(r, o, if r.count == 0 then QueueWait else TakeFd)
    case QueueWait => WorkerMove(r, Nobody, QueueAsleep)
    case QueueRelock => WorkerMove(r, Worker(w), QueueTest)
    case TakeFd => WorkerMove(r, o, TakeMessage(r.slots[r.front].fd))
    case TakeMessage(c) => WorkerMove(r, o, MoveFront(c, r.slots[r.front].message))
    case MoveFront(c, m) => WorkerMove(r.(front := Wrap(r.front, 1, |r.slots|)), o, CountOut(c, m))
    case CountOut(c, m) => WorkerMove(r.(count := if r.count == 0 then 0 else r.count - 1), o, QueueUnlock(c, m))
    case QueueUnlock(c, m) => WorkerMove(r, Nobody, Sending(c, m))
    case Sending(c, m) => WorkerMove(r, o, Closing(c))
    case Closing(c) => WorkerMove(r, o, DoneLock)
    case _ => WorkerMove(r, o, pc)
  }

  function DoWorker(s: State, w: nat): State
    requires InRange(s) && w < |s.workers|
  {
    var me := s.workers[w];
    if OwnPart(me.pc) then s.(workers := s.workers[w := OwnCode(me)])
    else
      var move, pc := ServeCode(s.ring, s.owner, w, me.pc), me.pc;
      s.(ring := move.ring, owner := move.owner,
         workers := s.workers[w := me.(pc := move.pc)],
         dequeued := if pc.MoveFront? then s.dequeued + [Item(pc.c, pc.m)] else s.dequeued,
         replied := if pc.Sending? then s.replied + multiset{pc.c} else s.replied,
         answer := if pc.Sending? then s.answer[pc.c := Answer(pc.m)] else s.answer,
         served := if pc.Closing? then s.served + multiset{pc.c} else s.served)
  }

  function Do(s: State, a: Action): State
    requires InRange(s)
  {
    match a
    case Accept(c) => s.(main := Reading(c), accepted := s.accepted + {c})
    case Read(m) =>
      if s.main.Reading?
      then s.(main := Locking(s.main.c, m), received := s.received[s.main.c := m])
      else s
    case MainStep(wake) => DoMain(s, wake)
    case WorkerStep(w) => if w < |s.workers| then DoWorker(s, w) else s
    case Spurious(w) =>
      if w < |s.workers|
      then s.(workers := s.workers[w := s.workers[w].(
             pc := if s.workers[w].pc == QueueAsleep then QueueRelock else OwnRelock)])
      else s
  }

  // ---------------------------------------------------------------------------
  // Who holds what

  predicate MainCritical(pc: MainPc) {
    !pc.Accepting? && !pc.Reading? && !pc.Locking?
  }

  predicate WorkerCritical(pc: WorkerPc) {
    || pc.QueueTest? || pc.QueueWait? || pc.TakeFd? || pc.TakeMessage? || pc.MoveFront?
    || pc.CountOut? || pc.QueueUnlock?
  }

  /** The queue mutex is held by exactly the thread that is inside. */
  ghost predicate Exclusive(s: State) {
    && (MainCritical(s.main) <==> s.owner == Main)
    && (forall w :: 0 <= w < |s.workers| ==> (WorkerCritical(s.workers[w].pc) <==> s.owner == Worker(w)))
    && (s.owner.Worker? ==> s.owner.index < |s.workers|)
  }

  /** A worker between moving the front and lowering the count leaves the count one too high. */
  predicate LeavingPending(s: State) {
    && s.owner.Worker? && s.owner.index < |s.workers|
    && s.workers[s.owner.index].pc.CountOut?
  }

  function Waiting(s: State): int {
    s.ring.count - (if LeavingPending(s) then 1 else 0)
  }

  /** The ring between any two small steps: only the front and the number of
      waiting entries matter; the rear follows, one further while main is
      between moving it and counting the entry in. */
  ghost predicate RingOk(s: State) {
    var n := |s.ring.slots|;
    && s.ring.front < n && s.ring.rear < n
    && 0 <= Waiting(s) && s.ring.count <= n
    && (s.main.CountingIn? ==> s.ring.count < n)
    && s.ring.rear == Wrap(s.ring.front, Waiting(s) + (if s.main.CountingIn? then 1 else 0), n)
  }

  ghost function Queue(s: State): seq<Item>
    requires RingOk(s)
  {
    Entries(s.ring.slots, s.ring.front, Waiting(s))
  }

  /** What each thread knows at its program point about the shared ring. */
  ghost predicate MainLocals(s: State) {
    var n := |s.ring.slots|;
    match s.main
    case Locking(c, m) => c in s.received && s.received[c] == m
    case Testing(c, m) => c in s.received && s.received[c] == m
    case StoringFd(c, m) => c in s.received && s.received[c] == m && s.ring.count < n
    case StoringMessage(c, m) =>
      && c in s.received && s.received[c] == m && s.ring.count < n
      && s.ring.rear < n && s.ring.slots[s.ring.rear].fd == c
    case MovingRear(c, m) =>
      && c in s.received && s.received[c] == m && s.ring.count < n
      && s.ring.rear < n && s.ring.slots[s.ring.rear] == Item(c, m)
    case CountingIn(c, m) =>
      && c in s.received && s.received[c] == m && s.ring.count < n && s.ring.front < n
      && s.ring.slots[Wrap(s.ring.front, s.ring.count, n)] == Item(c, m)
    case RejectSending(c) => s.ring.count == n
    case RejectClosing(c) => s.ring.count == n
    case _ => true
  }

  ghost predicate WorkerLocals(s: State, pc: WorkerPc) {
    match pc
    case QueueWait => s.ring.count == 0
    case TakeFd => s.ring.count > 0
    case TakeMessage(c) =>
      s.ring.count > 0 && s.ring.front < |s.ring.slots| && s.ring.slots[s.ring.front].fd == c
    case MoveFront(c, m) =>
      s.ring.count > 0 && s.ring.front < |s.ring.slots| && s.ring.slots[s.ring.front] == Item(c, m)
    case CountOut(c, m) => s.ring.count > 0 && c in s.received && s.received[c] == m
    case QueueUnlock(c, m) => c in s.received && s.received[c] == m
    case Sending(c, m) => c in s.received && s.received[c] == m
    case _ => true
  }

  /** is_busy and the worker's own mutex are touched by that worker alone. */
  predicate FlagOk(w: WorkerState) {
    && w.pc != OwnAsleep && w.pc != OwnRelock
    && (w.busy <==> !(w.pc.OwnLock? || w.pc.OwnTest? || w.pc.OwnSet? || w.pc.DoneSignal? || w.pc.DoneUnlock?))
    && (w.ownHeld <==> (|| w.pc.OwnTest? || w.pc.OwnSet? || w.pc.OwnUnlock?
                        || w.pc.DoneClear? || w.pc.DoneSignal? || w.pc.DoneUnlock?))
  }

  ghost predicate Shape(s: State) {
    && RingOk(s) && Exclusive(s) && MainLocals(s)
    && (forall w :: 0 <= w < |s.workers| ==> WorkerLocals(s, s.workers[w].pc) && FlagOk(s.workers[w]))
  }

  /** First in, first out: what was dequeued, then what waits, is what was enqueued;
      and every entry pairs a connection with the message read from it. */
  ghost predicate Fifo(s: State)
    requires RingOk(s)
  {
    && s.enqueued == s.dequeued + Queue(s)
    && (forall k :: 0 <= k < |s.enqueued| ==>
          && s.enqueued[k].fd in s.received
          && s.received[s.enqueued[k].fd] == s.enqueued[k].message)
    && s.received.Keys <= s.accepted
    && (s.main.Reading? ==> s.main.c !in s.received)
  }

  // ---------------------------------------------------------------------------
  // Preservation of Shape

  lemma MainKeepsRing(s: State, wake: nat)
    requires Shape(s) && Enabled(s, MainStep(wake))
    ensures RingOk(DoMain(s, wake))
    ensures Waiting(DoMain(s, wake)) == Waiting(s) + (if s.main.CountingIn? then 1 else 0)
  {
    assert !LeavingPending(s) || s.main.Locking?;
  }

  lemma MainKeepsExclusive(s: State, wake: nat)
    requires Shape(s) && Enabled(s, MainStep(wake))
    ensures Exclusive(DoMain(s, wake))
  {
  }

  lemma MainKeepsMainLocals(s: State, wake: nat)
    requires Shape(s) && Enabled(s, MainStep(wake))
    ensures MainLocals(DoMain(s, wake))
  {
  }

  lemma MainKeepsWorkerLocals(s: State, wake: nat, w: nat)
    requires Shape(s) && Enabled(s, MainStep(wake)) && w < |s.workers|
    ensures |DoMain(s, wake).workers| == |s.workers|
    ensures WorkerLocals(DoMain(s, wake), DoMain(s, wake).workers[w].pc)
    ensures FlagOk(DoMain(s, wake).workers[w])
  {
    assert WorkerCritical(s.workers[w].pc) ==> s.main.Locking? && s.owner == Nobody;
  }

  lemma MainKeepsShape(s: State, wake: nat)
    requires Shape(s) && Enabled(s, MainStep(wake))
    ensures Shape(DoMain(s, wake))
  {
    MainKeepsRing(s, wake);
    MainKeepsExclusive(s, wake);
    MainKeepsMainLocals(s, wake);
    forall w: nat | w < |DoMain(s, wake).workers|
      ensures WorkerLocals(DoMain(s, wake), DoMain(s, wake).workers[w].pc)
      ensures FlagOk(DoMain(s, wake).workers[w])
    {
      assert |DoMain(s, wake).workers| == |s.workers|;
      MainKeepsWorkerLocals(s, wake, w);
    }
  }

  /** Two of a worker's steps reach the front of the ring or its count. */
  predicate Quiet(pc: WorkerPc) {
    !pc.MoveFront? && !pc.CountOut?
  }

  lemma QuietStepKeepsRing(s: State, w: nat)
    requires Shape(s) && Enabled(s, WorkerStep(w)) && Quiet(s.workers[w].pc)
    ensures DoWorker(s, w).ring == s.ring && Waiting(DoWorker(s, w)) == Waiting(s)
  {
    assert LeavingPending(s) ==> s.owner.index != w;
  }

  lemma WorkerKeepsRing(s: State, w: nat)
    requires Shape(s) && Enabled(s, WorkerStep(w))
    ensures RingOk(DoWorker(s, w))
    ensures Waiting(DoWorker(s, w)) == Waiting(s) - (if s.workers[w].pc.MoveFront? then 1 else 0)
  {
    if Quiet(s.workers[w].pc) {
      QuietStepKeepsRing(s, w);
    } else {
      assert s.owner == Worker(w) && !s.main.CountingIn?;
      if s.workers[w].pc.MoveFront? {
        AdvancingKeepsRear(s.ring.front, s.ring.count, |s.ring.slots|);
      }
    }
  }

  lemma WorkerKeepsExclusive(s: State, w: nat)
    requires Shape(s) && Enabled(s, WorkerStep(w))
    ensures Exclusive(DoWorker(s, w))
  {
  }

  lemma WorkerKeepsMainLocals(s: State, w: nat)
    requires Shape(s) && Enabled(s, WorkerStep(w))
    ensures MainLocals(DoWorker(s, w))
  {
    assert MainCritical(s.main) ==> !WorkerCritical(s.workers[w].pc);
  }

  lemma OwnCodeKeepsFlag(me: WorkerState)
    requires FlagOk(me) && OwnPart(me.pc)
    ensures FlagOk(OwnCode(me))
  {
  }

  lemma ServeCodeKeepsFlag(r: Ring, o: Owner, w: nat, me: WorkerState)
    requires r.front < |r.slots| && FlagOk(me) && !OwnPart(me.pc)
    ensures FlagOk(me.(pc := ServeCode(r, o, w, me.pc).pc))
  {
  }

  lemma WorkerKeepsFlag(s: State, w: nat)
    requires InRange(s) && w < |s.workers| && FlagOk(s.workers[w])
    ensures FlagOk(DoWorker(s, w).workers[w])
  {
    if OwnPart(s.workers[w].pc) {
      OwnCodeKeepsFlag(s.workers[w]);
    } else {
      ServeCodeKeepsFlag(s.ring, s.owner, w, s.workers[w]);
    }
  }

  lemma OwnCodeLocals(s: State, me: WorkerState)
    requires OwnPart(me.pc)
    ensures WorkerLocals(s, OwnCode(me).pc)
  {
  }

  lemma WorkerKeepsOwnLocals(s: State, w: nat)
    requires InRange(s) && Enabled(s, WorkerStep(w)) && WorkerLocals(s, s.workers[w].pc)
    requires var pc := s.workers[w].pc;
             pc.MoveFront? ==> pc.c in s.received && s.received[pc.c] == pc.m
    ensures WorkerLocals(DoWorker(s, w), DoWorker(s, w).workers[w].pc)
  {
    var s', pc := DoWorker(s, w), s.workers[w].pc;
    if OwnPart(pc) {
      OwnCodeLocals(s', s.workers[w]);
    } else {
      assert s'.received == s.received;
      assert s'.ring == ServeCode(s.ring, s.owner, w, pc).ring;
      assert s'.workers[w].pc == ServeCode(s.ring, s.owner, w, pc).pc;
    }
  }

  lemma WorkerKeepsOtherLocals(s: State, w: nat, v: nat)
    requires Shape(s) && Enabled(s, WorkerStep(w)) && v < |s.workers| && v != w
    ensures DoWorker(s, w).workers[v] == s.workers[v]
    ensures WorkerLocals(DoWorker(s, w), s.workers[v].pc)
  {
    assert WorkerCritical(s.workers[v].pc) ==> !WorkerCritical(s.workers[w].pc);
  }

  lemma WorkerKeepsShape(s: State, w: nat)
    requires Shape(s) && Fifo(s) && Enabled(s, WorkerStep(w))
    ensures Shape(DoWorker(s, w))
  {
    WorkerKeepsRing(s, w);
    WorkerKeepsExclusive(s, w);
    WorkerKeepsMainLocals(s, w);
    if s.workers[w].pc.MoveFront? {
      OldestIsReceived(s);
    }
    WorkerKeepsOwnLocals(s, w);
    WorkerKeepsFlag(s, w);
    forall v: nat | v < |s.workers| && v != w
      ensures DoWorker(s, w).workers[v] == s.workers[v]
      ensures WorkerLocals(DoWorker(s, w), s.workers[v].pc)
    {
      WorkerKeepsOtherLocals(s, w, v);
    }
  }

  lemma OldestIsReceived(s: State)
    requires RingOk(s) && Fifo(s) && Waiting(s) > 0
    ensures var x := s.ring.slots[s.ring.front];
            x.fd in s.received && s.received[x.fd] == x.message
  {
    assert Queue(s)[0] == s.ring.slots[Wrap(s.ring.front, 0, |s.ring.slots|)];
    assert s.enqueued[|s.dequeued|] == Queue(s)[0];
  }

  lemma ClientKeepsShape(s: State, a: Action)
    requires Shape(s) && Enabled(s, a) && (a.Accept? || a.Read?)
    requires s.main.Reading? ==> s.main.c !in s.received
    ensures Shape(Do(s, a))
  {
  }

  lemma SpuriousKeepsShape(s: State, w: nat)
    requires Shape(s) && Enabled(s, Spurious(w))
    ensures Shape(Do(s, Spurious(w)))
  {
  }

  lemma EnvironmentKeepsShape(s: State, a: Action)
    requires Shape(s) && Fifo(s) && Enabled(s, a) && !Internal(a)
    ensures Shape(Do(s, a))
  {
    if a.Spurious? {
      SpuriousKeepsShape(s, a.w);
    } else {
      ClientKeepsShape(s, a);
    }
  }

  lemma MainQueue(s: State, wake: nat)
    requires Shape(s) && Enabled(s, MainStep(wake)) && RingOk(DoMain(s, wake))
    ensures Queue(DoMain(s, wake))
         == Queue(s) + if s.main.CountingIn? then [Item(s.main.c, s.main.m)] else []
  {
    MainKeepsRing(s, wake);
    var r := s.ring;
    if s.main.StoringFd? {
      RearIsFree(r.slots, r.front, r.count, r.slots[r.rear].(fd := s.main.c));
    } else if s.main.StoringMessage? {
      RearIsFree(r.slots, r.front, r.count, r.slots[r.rear].(message := s.main.m));
    } else if s.main.CountingIn? {
      CountingInAppends(r.slots, r.front, r.count);
    }
  }

  lemma MainHistory(s: State, wake: nat)
    requires InRange(s)
    ensures var s' := DoMain(s, wake);
            && s'.enqueued == s.enqueued + (if s.main.CountingIn? then [Item(s.main.c, s.main.m)] else [])
            && s'.dequeued == s.dequeued && s'.received == s.received && s'.accepted == s.accepted
            && (s'.main.Reading? ==> s.main.Reading? && s'.main.c == s.main.c)
  {
  }

  lemma MainKeepsFifo(s: State, wake: nat)
    requires Shape(s) && Fifo(s) && Enabled(s, MainStep(wake))
    ensures RingOk(DoMain(s, wake)) && Fifo(DoMain(s, wake))
  {
    MainKeepsRing(s, wake);
    MainQueue(s, wake);
    MainHistory(s, wake);
    var s', added := DoMain(s, wake), if s.main.CountingIn? then [Item(s.main.c, s.main.m)] else [];
    Regroup(s.dequeued, Queue(s), added);
    assert s'.enqueued == s.dequeued + (Queue(s) + added);
  }

  lemma Regroup(x: seq<Item>, y: seq<Item>, z: seq<Item>)
    ensures (x + y) + z == x + (y + z)
  {
  }

  lemma WorkerKeepsFifo(s: State, w: nat)
    requires Shape(s) && Fifo(s) && Enabled(s, WorkerStep(w))
    ensures RingOk(DoWorker(s, w)) && Fifo(DoWorker(s, w))
  {
    WorkerKeepsRing(s, w);
    WorkerQueue(s, w);
    WorkerKeepsOthers(s, w);
    var s', pc := DoWorker(s, w), s.workers[w].pc;
    if pc.MoveFront? {
      Regroup(s.dequeued, [Item(pc.c, pc.m)], Queue(s'));
    }
    assert s'.enqueued == s'.dequeued + Queue(s');
  }

  lemma WorkerQueue(s: State, w: nat)
    requires Shape(s) && Enabled(s, WorkerStep(w)) && RingOk(DoWorker(s, w))
    ensures var s' := DoWorker(s, w);
            var pc := s.workers[w].pc;
            if pc.MoveFront?
            then Queue(s) == [Item(pc.c, pc.m)] + Queue(s') && s'.dequeued == s.dequeued + [Item(pc.c, pc.m)]
            else Queue(s') == Queue(s) && s'.dequeued == s.dequeued
  {
    WorkerKeepsRing(s, w);
    if s.workers[w].pc.MoveFront? {
      AdvancingDropsOldest(s.ring.slots, s.ring.front, s.ring.count);
    }
  }

  // ---------------------------------------------------------------------------
  // Counting over the workers

  ghost function Total(of: WorkerPc -> nat, ws: seq<WorkerState>): nat {
    if ws == [] then 0
    else Total(of, ws[..|ws| - 1]) + of(ws[|ws| - 1].pc)
  }

  lemma {:induction false} TotalUpdate(of: WorkerPc -> nat, ws: seq<WorkerState>, w: nat, x: WorkerState)
    requires w < |ws|
    ensures Total(of, ws[w := x]) + of(ws[w].pc) == Total(of, ws) + of(x.pc)
  {
    var n := |ws| - 1;
    if w < n {
      TotalUpdate(of, ws[..n], w, x);
      assert ws[w := x][..n] == ws[..n][w := x];
    } else {
      assert ws[w := x][..n] == ws[..n];
    }
  }

  lemma {:induction false} TotalContains(of: WorkerPc -> nat, ws: seq<WorkerState>, v: nat)
    requires v < |ws|
    ensures Total(of, ws) >= of(ws[v].pc)
  {
    var n := |ws| - 1;
    if v < n {
      TotalContains(of, ws[..n], v);
    }
  }

  lemma {:induction false} TotalContainsBoth(of: WorkerPc -> nat, ws: seq<WorkerState>, v: nat, w: nat)
    requires v < w < |ws|
    ensures Total(of, ws) >= of(ws[v].pc) + of(ws[w].pc)
  {
    var n := |ws| - 1;
    if w < n {
      TotalContainsBoth(of, ws[..n], v, w);
    } else {
      TotalContains(of, ws[..n], v);
    }
  }

  lemma {:induction false} TotalNone(of: WorkerPc -> nat, ws: seq<WorkerState>)
    requires forall w :: 0 <= w < |ws| ==> of(ws[w].pc) == 0
    ensures Total(of, ws) == 0
  {
    if ws != [] {
      TotalNone(of, ws[..|ws| - 1]);
    }
  }

  // ---------------------------------------------------------------------------
  // Every connection is in one place

  function One(b: bool): nat {
    if b then 1 else 0
  }

  predicate InHand(pc: MainPc, c: Conn) {
    !pc.Accepting? && !pc.Signalling? && !pc.Unlocking? && pc.c == c
  }

  /** A worker holds a connection from moving the front past it until closing it. */
  predicate Holds(pc: WorkerPc, c: Conn) {
    (pc.CountOut? || pc.QueueUnlock? || pc.Sending? || pc.Closing?) && pc.c == c
  }

  function HoldsIt(c: Conn): WorkerPc -> nat {
    pc => One(Holds(pc, c))
  }

  /** A worker that has replied and not yet closed. */
  predicate Owes(pc: WorkerPc, c: Conn) {
    pc.Closing? && pc.c == c
  }

  function OwesIt(c: Conn): WorkerPc -> nat {
    pc => One(Owes(pc, c))
  }

  ghost function Occurs(q: seq<Item>, c: Conn): nat {
    if q == [] then 0 else One(q[0].fd == c) + Occurs(q[1..], c)
  }

  lemma {:induction false} OccursAppend(q: seq<Item>, x: Item, c: Conn)
    ensures Occurs(q + [x], c) == Occurs(q, c) + One(x.fd == c)
  {
    if q == [] {
      assert (q + [x])[1..] == [];
    } else {
      OccursAppend(q[1..], x, c);
      assert (q + [x])[1..] == q[1..] + [x];
    }
  }

  /** In how many places connection c is: with the acceptor, in the queue, with a
      worker, served and closed, or rejected and closed. */
  ghost function Places(s: State, c: Conn): nat
    requires RingOk(s)
  {
    One(InHand(s.main, c)) + Occurs(Queue(s), c) + Total(HoldsIt(c), s.workers) + s.served[c] + s.rejected[c]
  }

  ghost predicate Conserved(s: State)
    requires RingOk(s)
  {
    forall c :: Places(s, c) == One(c in s.accepted)
  }

  ghost predicate RepliesMatchCloses(s: State) {
    forall c :: Balance(s, c) == 0
  }

  ghost predicate Answered(s: State, c: Conn) {
    c in s.received && c in s.answer && s.answer[c] == Answer(s.received[c])
  }

  ghost predicate ServedRight(s: State) {
    forall c :: c in s.served ==> Answered(s, c)
  }

  ghost predicate ClosingRight(s: State) {
    forall w :: 0 <= w < |s.workers| && s.workers[w].pc.Closing? ==> Answered(s, s.workers[w].pc.c)
  }

  ghost predicate RejectedRight(s: State) {
    && (forall c :: c in s.rejected ==> c in s.answer && s.answer[c] == QueueFull)
    && (s.main.RejectClosing? ==> s.main.c in s.answer && s.answer[s.main.c] == QueueFull)
  }

  ghost predicate AnswersRight(s: State) {
    ServedRight(s) && ClosingRight(s) && RejectedRight(s)
  }

  lemma MainTotal(s: State, wake: nat, of: WorkerPc -> nat)
    requires InRange(s) && of(QueueAsleep) == of(QueueRelock)
    ensures Total(of, DoMain(s, wake).workers) == Total(of, s.workers)
  {
    if Wakes(s, wake) {
      TotalUpdate(of, s.workers, wake, s.workers[wake].(pc := QueueRelock));
    }
  }

  lemma MainKeepsPlaces(s: State, wake: nat, c: Conn)
    requires Shape(s) && Enabled(s, MainStep(wake)) && RingOk(DoMain(s, wake))
    ensures Places(DoMain(s, wake), c) == Places(s, c)
  {
    MainQueue(s, wake);
    MainTotal(s, wake, HoldsIt(c));
    if s.main.CountingIn? {
      OccursAppend(Queue(s), Item(s.main.c, s.main.m), c);
    } else {
      assert Queue(DoMain(s, wake)) == Queue(s);
    }
  }

  /** A worker step takes a connection on in moving the front, lets go in closing it. */
  lemma WorkerMoves(s: State, w: nat, c: Conn)
    requires InRange(s) && w < |s.workers|
    ensures var pc, pc' := s.workers[w].pc, DoWorker(s, w).workers[w].pc;
            One(Holds(pc', c)) + One(Owes(pc, c)) == One(Holds(pc, c)) + One(pc.MoveFront? && pc.c == c)
  {
    if OwnPart(s.workers[w].pc) {
      assert !Holds(OwnCode(s.workers[w]).pc, c);
    }
  }

  lemma WorkerOwes(s: State, w: nat, c: Conn)
    requires InRange(s) && w < |s.workers|
    ensures var pc, pc' := s.workers[w].pc, DoWorker(s, w).workers[w].pc;
            Enabled(s, WorkerStep(w)) ==> (Owes(pc', c) <==> pc.Sending? && pc.c == c)
  {
    if OwnPart(s.workers[w].pc) {
      assert !Owes(OwnCode(s.workers[w]).pc, c);
    }
  }

  lemma WorkerCounts(s: State, w: nat, c: Conn)
    requires InRange(s) && w < |s.workers|
    ensures var s', pc := DoWorker(s, w), s.workers[w].pc;
            && s'.served[c] == s.served[c] + One(Owes(pc, c))
            && s'.rejected == s.rejected
            && s'.replied[c] == s.replied[c] + One(pc.Sending? && pc.c == c)
  {
  }

  lemma WorkerKeepsOthers(s: State, w: nat)
    requires InRange(s) && w < |s.workers|
    ensures var s' := DoWorker(s, w);
            && s'.main == s.main && s'.accepted == s.accepted && s'.received == s.received
            && s'.enqueued == s.enqueued
            && |s'.workers| == |s.workers|
            && s'.workers == s.workers[w := s'.workers[w]]
  {
  }

  lemma WorkerKeepsPlaces(s: State, w: nat, c: Conn)
    requires Shape(s) && Enabled(s, WorkerStep(w)) && RingOk(DoWorker(s, w))
    ensures Places(DoWorker(s, w), c) == Places(s, c)
  {
    WorkerQueue(s, w);
    WorkerMoves(s, w, c);
    WorkerCounts(s, w, c);
    WorkerKeepsOthers(s, w);
    TotalUpdate(HoldsIt(c), s.workers, w, DoWorker(s, w).workers[w]);
  }

  lemma EnvironmentPlaces(s: State, a: Action, c: Conn)
    requires Shape(s) && Enabled(s, a) && !Internal(a) && RingOk(Do(s, a))
    ensures Places(Do(s, a), c) == Places(s, c) + One(a == Accept(c))
  {
    var s' := Do(s, a);
    assert Waiting(s') == Waiting(s);
    assert Queue(s') == Queue(s);
    if a.Spurious? {
      TotalUpdate(HoldsIt(c), s.workers, a.w, s'.workers[a.w]);
    }
  }

  lemma StepKeepsConserved(s: State, a: Action)
    requires Shape(s) && Conserved(s) && Enabled(s, a) && RingOk(Do(s, a))
    ensures Conserved(Do(s, a))
  {
    forall c
      ensures Places(Do(s, a), c) == One(c in Do(s, a).accepted)
    {
      match a
      case MainStep(wake) => MainKeepsPlaces(s, wake, c);
      case WorkerStep(w) => WorkerKeepsPlaces(s, w, c); WorkerKeepsOthers(s, w);
      case Accept(_) => EnvironmentPlaces(s, a, c);
      case Read(_) => EnvironmentPlaces(s, a, c);
      case Spurious(_) => EnvironmentPlaces(s, a, c);
    }
  }

  /** The calls of send on c, less the calls of close, less those still owed: always 0. */
  ghost function Balance(s: State, c: Conn): int {
    s.replied[c] - Closed(s)[c] - One(s.main == RejectClosing(c)) - Total(OwesIt(c), s.workers)
  }

  lemma WorkerKeepsBalance(s: State, w: nat, c: Conn)
    requires InRange(s) && Enabled(s, WorkerStep(w))
    ensures Balance(DoWorker(s, w), c) == Balance(s, c)
  {
    WorkerOwes(s, w, c);
    WorkerCounts(s, w, c);
    WorkerKeepsOthers(s, w);
    TotalUpdate(OwesIt(c), s.workers, w, DoWorker(s, w).workers[w]);
  }

  lemma MainKeepsBalance(s: State, wake: nat, c: Conn)
    requires InRange(s) && Enabled(s, MainStep(wake))
    ensures Balance(DoMain(s, wake), c) == Balance(s, c)
  {
    MainTotal(s, wake, OwesIt(c));
  }

  lemma EnvironmentKeepsBalance(s: State, a: Action, c: Conn)
    requires InRange(s) && Enabled(s, a) && !Internal(a)
    ensures Balance(Do(s, a), c) == Balance(s, c)
  {
    if a.Spurious? {
      TotalUpdate(OwesIt(c), s.workers, a.w, Do(s, a).workers[a.w]);
    }
  }

  lemma StepKeepsReplies(s: State, a: Action)
    requires InRange(s) && RepliesMatchCloses(s) && Enabled(s, a)
    ensures RepliesMatchCloses(Do(s, a))
  {
    forall c
      ensures Balance(Do(s, a), c) == 0
    {
      assert Balance(s, c) == 0;
      if a.WorkerStep? {
        WorkerKeepsBalance(s, a.w, c);
      } else if a.MainStep? {
        MainKeepsBalance(s, a.wake, c);
      } else {
        EnvironmentKeepsBalance(s, a, c);
      }
    }
  }

  /** The connection a worker holds is nowhere else. */
  lemma HeldIsNotFinished(s: State, w: nat, c: Conn)
    requires RingOk(s) && Conserved(s) && w < |s.workers| && Holds(s.workers[w].pc, c)
    ensures c !in s.served && c !in s.rejected && !InHand(s.main, c)
    ensures forall v :: 0 <= v < |s.workers| && v != w ==> !Holds(s.workers[v].pc, c)
  {
    assert Places(s, c) <= 1;
    TotalContains(HoldsIt(c), s.workers, w);
    forall v | 0 <= v < |s.workers| && v != w
      ensures !Holds(s.workers[v].pc, c)
    {
      TotalContainsBoth(HoldsIt(c), s.workers, if v < w then v else w, if v < w then w else v);
    }
  }

  lemma InHandIsNotFinished(s: State, c: Conn)
    requires RingOk(s) && Conserved(s) && InHand(s.main, c)
    ensures c in s.accepted && c !in s.served && c !in s.rejected
    ensures forall v :: 0 <= v < |s.workers| ==> !Holds(s.workers[v].pc, c)
  {
    assert Places(s, c) == One(c in s.accepted);
    forall v | 0 <= v < |s.workers|
      ensures !Holds(s.workers[v].pc, c)
    {
      TotalContains(HoldsIt(c), s.workers, v);
    }
  }

  lemma StepKeepsAnswers(s: State, a: Action)
    requires Shape(s) && Conserved(s) && AnswersRight(s) && Enabled(s, a)
    ensures AnswersRight(Do(s, a))
  {
    match a
    case WorkerStep(w) => WorkerKeepsAnswers(s, w);
    case MainStep(wake) => MainKeepsAnswers(s, wake);
    case Spurious(w) =>
    case Accept(_) =>
    case Read(_) => InHandIsNotFinished(s, s.main.c); ClosingHolds(s);
  }

  lemma ClosingHolds(s: State)
    ensures forall v :: 0 <= v < |s.workers| && s.workers[v].pc.Closing? ==>
                Holds(s.workers[v].pc, s.workers[v].pc.c)
  {
  }

  lemma WorkerAnswers(s: State, w: nat)
    requires InRange(s) && Enabled(s, WorkerStep(w))
    ensures var s', pc := DoWorker(s, w), s.workers[w].pc;
            && s'.answer == (if pc.Sending? then s.answer[pc.c := Answer(pc.m)] else s.answer)
            && s'.served == s.served + (if pc.Closing? then multiset{pc.c} else multiset{})
            && s'.rejected == s.rejected
            && (s'.workers[w].pc.Closing? ==> pc.Sending? && s'.workers[w].pc.c == pc.c)
  {
  }

  /** Only the answer of the connection being served can change. */
  lemma WorkerKeepsAnswered(s: State, w: nat, c: Conn)
    requires InRange(s) && Enabled(s, WorkerStep(w)) && Answered(s, c)
    requires s.workers[w].pc.Sending? ==> s.workers[w].pc.c != c
    ensures Answered(DoWorker(s, w), c)
  {
    WorkerKeepsOthers(s, w);
    WorkerAnswers(s, w);
  }

  lemma WorkerKeepsServed(s: State, w: nat)
    requires RingOk(s) && Conserved(s) && AnswersRight(s) && Enabled(s, WorkerStep(w))
    ensures ServedRight(DoWorker(s, w))
  {
    WorkerAnswers(s, w);
    var pc := s.workers[w].pc;
    if pc.Sending? {
      HeldIsNotFinished(s, w, pc.c);
    }
    forall c | c in DoWorker(s, w).served
      ensures Answered(DoWorker(s, w), c)
    {
      WorkerKeepsAnswered(s, w, c);
    }
  }

  lemma WorkerKeepsClosing(s: State, w: nat)
    requires Shape(s) && Conserved(s) && ClosingRight(s) && Enabled(s, WorkerStep(w))
    ensures ClosingRight(DoWorker(s, w))
  {
    WorkerKeepsOthers(s, w);
    WorkerAnswers(s, w);
    var s', pc := DoWorker(s, w), s.workers[w].pc;
    if pc.Sending? {
      HeldIsNotFinished(s, w, pc.c);
    }
    forall v: nat | v < |s.workers| && s'.workers[v].pc.Closing?
      ensures Answered(s', s'.workers[v].pc.c)
    {
      if v == w {
        assert WorkerLocals(s, pc);
      } else {
        assert Holds(s.workers[v].pc, s.workers[v].pc.c);
        WorkerKeepsAnswered(s, w, s.workers[v].pc.c);
      }
    }
  }

  lemma WorkerKeepsRejected(s: State, w: nat)
    requires RingOk(s) && Conserved(s) && RejectedRight(s) && Enabled(s, WorkerStep(w))
    ensures RejectedRight(DoWorker(s, w))
  {
    WorkerKeepsOthers(s, w);
    WorkerAnswers(s, w);
    var pc := s.workers[w].pc;
    if pc.Sending? {
      HeldIsNotFinished(s, w, pc.c);
    }
  }

  lemma WorkerKeepsAnswers(s: State, w: nat)
    requires Shape(s) && Conserved(s) && AnswersRight(s) && Enabled(s, WorkerStep(w))
    ensures AnswersRight(DoWorker(s, w))
  {
    WorkerKeepsServed(s, w);
    WorkerKeepsClosing(s, w);
    WorkerKeepsRejected(s, w);
  }

  lemma MainAnswers(s: State, wake: nat)
    requires InRange(s)
    ensures var s' := DoMain(s, wake);
            && |s'.workers| == |s.workers|
            && (forall v :: 0 <= v < |s.workers| ==>
                  (s'.workers[v].pc.Closing? <==> s.workers[v].pc.Closing?))
            && (forall v :: 0 <= v < |s.workers| && s.workers[v].pc.Closing? ==> s'.workers[v] == s.workers[v])
            && (s'.main.RejectClosing? ==> s.main.RejectSending? && s'.main.c == s.main.c)
  {
  }

  lemma MainKeepsAnswers(s: State, wake: nat)
    requires Shape(s) && Conserved(s) && AnswersRight(s) && Enabled(s, MainStep(wake))
    ensures AnswersRight(DoMain(s, wake))
  {
    MainAnswers(s, wake);
    if s.main.RejectSending? {
      InHandIsNotFinished(s, s.main.c);
      ClosingHolds(s);
    }
  }

  // ---------------------------------------------------------------------------
  // No lost wakeup

  function Up(pc: WorkerPc): nat {
    if pc == QueueAsleep then 0 else 1
  }

  /** Nobody sleeps, or there are at least as many workers awake as entries counted in,
      the one whose wakeup main is about to send included. */
  ghost predicate WakeupsOk(s: State) {
    || Total(Up, s.workers) == |s.workers|
    || Total(Up, s.workers) + (if s.main.Signalling? then 1 else 0) >= s.ring.count
  }

  lemma {:induction false} UpAtMost(ws: seq<WorkerState>)
    ensures Total(Up, ws) <= |ws|
    ensures Total(Up, ws) == |ws| <==> forall w :: 0 <= w < |ws| ==> !Asleep(ws[w])
    ensures Total(Up, ws) == 0 <==> forall w :: 0 <= w < |ws| ==> Asleep(ws[w])
  {
    if ws != [] {
      var n := |ws| - 1;
      UpAtMost(ws[..n]);
      assert forall w :: 0 <= w < n ==> ws[..n][w] == ws[w];
      assert Total(Up, ws) == Total(Up, ws[..n]) + Up(ws[n].pc);
      if Total(Up, ws) == |ws| {
        forall w | 0 <= w < |ws| ensures !Asleep(ws[w]) {
          if w < n { assert ws[w] == ws[..n][w]; }
        }
      }
    }
  }

  /** One entry counted in, one signal due; and the signal wakes a sleeper if there is one. */
  lemma SignalsFollowEntries(s: State, wake: nat)
    requires Shape(s) && Enabled(s, MainStep(wake))
    ensures var s' := DoMain(s, wake);
            && s'.ring.count == s.ring.count + One(s.main.CountingIn?)
            && (s'.main.Signalling? <==> s.main.CountingIn?)
            && |s'.workers| == |s.workers|
    ensures s.main.Signalling? && (exists w :: 0 <= w < |s.workers| && Asleep(s.workers[w])) ==> Wakes(s, wake)
  {
  }

  lemma AwakeAfterSignal(s: State, wake: nat)
    requires InRange(s)
    ensures Total(Up, DoMain(s, wake).workers) == Total(Up, s.workers) + One(Wakes(s, wake))
  {
    if Wakes(s, wake) {
      TotalUpdate(Up, s.workers, wake, DoMain(s, wake).workers[wake]);
    }
  }

  lemma MainKeepsWakeups(s: State, wake: nat)
    requires Shape(s) && WakeupsOk(s) && Enabled(s, MainStep(wake))
    ensures WakeupsOk(DoMain(s, wake))
  {
    SignalsFollowEntries(s, wake);
    AwakeAfterSignal(s, wake);
    UpAtMost(s.workers);
  }

  /** A worker falls asleep only when the count is 0. */
  lemma FallingAsleepKeepsWakeups(s: State, w: nat)
    requires Shape(s) && Enabled(s, WorkerStep(w)) && s.workers[w].pc.QueueWait?
    ensures WakeupsOk(DoWorker(s, w))
  {
    assert WorkerLocals(s, s.workers[w].pc);
    assert DoWorker(s, w).ring.count == 0;
  }

  /** Every other step leaves it awake, and the count no higher. */
  lemma AwakeStep(s: State, w: nat)
    requires InRange(s) && Enabled(s, WorkerStep(w)) && !s.workers[w].pc.QueueWait?
    ensures Up(s.workers[w].pc) == Up(DoWorker(s, w).workers[w].pc) == 1
    ensures DoWorker(s, w).ring.count <= s.ring.count && DoWorker(s, w).main == s.main
  {
  }

  lemma WorkerKeepsWakeups(s: State, w: nat)
    requires Shape(s) && WakeupsOk(s) && Enabled(s, WorkerStep(w))
    ensures WakeupsOk(DoWorker(s, w))
  {
    if s.workers[w].pc.QueueWait? {
      FallingAsleepKeepsWakeups(s, w);
    } else {
      AwakeStep(s, w);
      WorkerKeepsOthers(s, w);
      TotalUpdate(Up, s.workers, w, DoWorker(s, w).workers[w]);
    }
  }

  lemma EnvironmentKeepsWakeups(s: State, a: Action)
    requires Shape(s) && WakeupsOk(s) && Enabled(s, a) && !Internal(a)
    ensures WakeupsOk(Do(s, a))
  {
    if a.Spurious? {
      UpAtMost(s.workers);
      TotalUpdate(Up, s.workers, a.w, Do(s, a).workers[a.w]);
    }
  }

  // ---------------------------------------------------------------------------
  // Runs

  ghost predicate Inv(s: State) {
    Shape(s) && Fifo(s) && Conserved(s) && RepliesMatchCloses(s) && AnswersRight(s) && WakeupsOk(s)
  }

  lemma InitIsInv(s: State)
    requires Init(s)
    ensures Inv(s)
  {
    forall c
      ensures Places(s, c) == 0 && Total(OwesIt(c), s.workers) == 0
    {
      TotalNone(HoldsIt(c), s.workers);
      TotalNone(OwesIt(c), s.workers);
    }
    UpAtMost(s.workers);
  }

  lemma EnvironmentKeepsFifo(s: State, a: Action)
    requires Shape(s) && Fifo(s) && Conserved(s) && Enabled(s, a) && !Internal(a)
    requires RingOk(Do(s, a))
    ensures Fifo(Do(s, a))
  {
    assert Waiting(Do(s, a)) == Waiting(s);
    assert Queue(Do(s, a)) == Queue(s);
    if a.Read? {
      InHandIsNotFinished(s, s.main.c);
    }
  }

  lemma StepKeepsInv(s: State, a: Action)
    requires Inv(s) && Enabled(s, a)
    ensures Inv(Do(s, a))
  {
    StepKeepsReplies(s, a);
    StepKeepsAnswers(s, a);
    if a.MainStep? {
      MainKeepsShape(s, a.wake);
      MainKeepsFifo(s, a.wake);
      MainKeepsWakeups(s, a.wake);
    } else if a.WorkerStep? {
      WorkerKeepsShape(s, a.w);
      WorkerKeepsFifo(s, a.w);
      WorkerKeepsWakeups(s, a.w);
    } else {
      EnvironmentKeepsShape(s, a);
      EnvironmentKeepsFifo(s, a);
      EnvironmentKeepsWakeups(s, a);
    }
    StepKeepsConserved(s, a);
  }

  /** A path of the system; a run is a path from an initial state. */
  ghost predicate Path(states: seq<State>, acts: seq<Action>) {
    && |states| == |acts| + 1
    && (forall i :: 0 <= i < |acts| ==>
          InRange(states[i]) && Enabled(states[i], acts[i]) && states[i + 1] == Do(states[i], acts[i]))
  }

  ghost predicate Run(states: seq<State>, acts: seq<Action>) {
    Path(states, acts) && Init(states[0])
  }

  lemma {:induction false} RunKeepsInv(states: seq<State>, acts: seq<Action>, i: nat)
    requires Run(states, acts) && i < |states|
    ensures Inv(states[i])
  {
    if i == 0 {
      InitIsInv(states[0]);
    } else {
      RunKeepsInv(states, acts, i - 1);
      StepKeepsInv(states[i - 1], acts[i - 1]);
    }
  }

  /** In every interleaving an accepted connection is in exactly one place, and gets at
      most one reply and one close, the reply first. A closed connection was answered
      according to the message read from it, or rejected. */
  lemma EveryClientIsInOnePlace(states: seq<State>, acts: seq<Action>, i: nat, c: Conn)
    requires Run(states, acts) && i < |states|
    ensures RingOk(states[i])
    ensures Places(states[i], c) == if c in states[i].accepted then 1 else 0
    ensures Closed(states[i])[c] <= states[i].replied[c] <= 1
    ensures forall v, w :: 0 <= v < w < |states[i].workers| ==>
              !(Holds(states[i].workers[v].pc, c) && Holds(states[i].workers[w].pc, c))
    ensures c in states[i].served ==> Answered(states[i], c)
    ensures c in states[i].rejected ==> c in states[i].answer && states[i].answer[c] == QueueFull
  {
    RunKeepsInv(states, acts, i);
    var s := states[i];
    assert Balance(s, c) == 0;
    OwedIsHeld(s, c);
    forall v, w | 0 <= v < w < |s.workers|
      ensures !(Holds(s.workers[v].pc, c) && Holds(s.workers[w].pc, c))
    {
      if Holds(s.workers[v].pc, c) {
        HeldIsNotFinished(s, v, c);
      }
    }
  }

  predicate AsksForTime(m: string) {
    |m| >= 4 && m[0] == 'T' && m[1] == 'I' && m[2] == 'M' && m[3] == 'E'
  }

  /** Every served client got the time if its message begins with TIME and the error if
      not; every rejected client was told that the queue is full. */
  lemma AnswersFollowMessages(states: seq<State>, acts: seq<Action>, i: nat, c: Conn)
    requires Run(states, acts) && i < |states|
    ensures var s := states[i];
            c in s.served ==>
              && c in s.received && c in s.answer
              && s.answer[c] == if AsksForTime(s.received[c]) then Time else NotTime
    ensures c in states[i].rejected ==> c in states[i].answer && states[i].answer[c] == QueueFull
  {
    EveryClientIsInOnePlace(states, acts, i, c);
  }

  ghost predicate WasAccepted(acts: seq<Action>, i: nat, c: Conn)
    requires i <= |acts|
  {
    exists k :: 0 <= k < i && acts[k] == Accept(c)
  }

  /** Message m was read from connection c in one of the first i steps. */
  ghost predicate WasRead(states: seq<State>, acts: seq<Action>, i: nat, c: Conn, m: string)
    requires i <= |acts| && i <= |states|
  {
    exists k :: 0 <= k < i && acts[k] == Read(m) && states[k].main == Reading(c)
  }

  /** And the message kept for a client is the one read from its own connection. */
  lemma {:induction false} MessagesAreThoseRead(states: seq<State>, acts: seq<Action>, i: nat, c: Conn)
    requires Run(states, acts) && i < |states|
    ensures c in states[i].accepted <==> WasAccepted(acts, i, c)
    ensures c in states[i].received ==> WasRead(states, acts, i, c, states[i].received[c])
  {
    if i > 0 {
      MessagesAreThoseRead(states, acts, i - 1, c);
      RunKeepsInv(states, acts, i - 1);
      StepReads(states[i - 1], acts[i - 1], c);
      AcceptedExtends(acts, i, c);
      MessageExtends(states, acts, i, c);
    }
  }

  lemma MessageExtends(states: seq<State>, acts: seq<Action>, i: nat, c: Conn)
    requires 0 < i <= |acts| && i < |states| && InRange(states[i - 1]) && Enabled(states[i - 1], acts[i - 1])
    requires states[i] == Do(states[i - 1], acts[i - 1])
    requires c in states[i - 1].received ==> WasRead(states, acts, i - 1, c, states[i - 1].received[c])
    ensures c in states[i].received ==> WasRead(states, acts, i, c, states[i].received[c])
  {
    var s, a := states[i - 1], acts[i - 1];
    StepReads(s, a, c);
    if a.Read? && s.main == Reading(c) {
      assert a == Read(states[i].received[c]) && states[i - 1].main == Reading(c);
    } else if c in s.received {
      ReadExtends(states, acts, i, c, s.received[c]);
    }
  }

  lemma AcceptedExtends(acts: seq<Action>, i: nat, c: Conn)
    requires 0 < i <= |acts|
    ensures WasAccepted(acts, i, c) <==> WasAccepted(acts, i - 1, c) || acts[i - 1] == Accept(c)
  {
  }

  lemma ReadExtends(states: seq<State>, acts: seq<Action>, i: nat, c: Conn, m: string)
    requires 0 < i <= |acts| && i <= |states| && WasRead(states, acts, i - 1, c, m)
    ensures WasRead(states, acts, i, c, m)
  {
    var k :| 0 <= k < i - 1 && acts[k] == Read(m) && states[k].main == Reading(c);
    assert 0 <= k < i;
  }

  lemma StepReads(s: State, a: Action, c: Conn)
    requires InRange(s) && Enabled(s, a)
    ensures var s' := Do(s, a);
            && (c in s'.accepted <==> c in s.accepted || a == Accept(c))
            && (if a.Read? && s.main == Reading(c) then c in s'.received && s'.received[c] == a.m
                else (c in s'.received <==> c in s.received) && (c in s.received ==> s'.received[c] == s.received[c]))
  {
  }

  lemma OwedIsHeld(s: State, c: Conn)
    ensures Total(OwesIt(c), s.workers) <= Total(HoldsIt(c), s.workers)
  {
    OwedAtMostHeld(s.workers, c);
  }

  lemma {:induction false} OwedAtMostHeld(ws: seq<WorkerState>, c: Conn)
    ensures Total(OwesIt(c), ws) <= Total(HoldsIt(c), ws)
  {
    if ws != [] {
      OwedAtMostHeld(ws[..|ws| - 1], c);
    }
  }

  /** The ring refines a bounded first-in-first-out queue over the whole run, and the
      "Queue full" answer is given only while it is full. */
  lemma FirstInFirstOut(states: seq<State>, acts: seq<Action>, i: nat)
    requires Run(states, acts) && i < |states|
    ensures RingOk(states[i])
    ensures states[i].enqueued == states[i].dequeued + Queue(states[i])
    ensures |Queue(states[i])| <= |states[i].ring.slots|
    ensures states[i].main.RejectSending? ==> |Queue(states[i])| == |states[i].ring.slots|
    ensures i < |acts| ==> states[i].dequeued <= states[i + 1].dequeued
                           && states[i].enqueued <= states[i + 1].enqueued
    ensures forall k :: 0 <= k < |states[i].enqueued| ==>
              && states[i].enqueued[k].fd in states[i].received
              && states[i].received[states[i].enqueued[k].fd] == states[i].enqueued[k].message
  {
    RunKeepsInv(states, acts, i);
    if i < |acts| {
      HistoryGrows(states[i], acts[i]);
    }
  }

  lemma HistoryGrows(s: State, a: Action)
    requires InRange(s) && Enabled(s, a)
    ensures s.dequeued <= Do(s, a).dequeued && s.enqueued <= Do(s, a).enqueued
  {
  }

  /** No wakeup is lost: when some worker sleeps, at least as many are awake as clients
      wait, and a waiting client never faces only sleeping workers. */
  lemma NoWakeupIsLost(states: seq<State>, acts: seq<Action>, i: nat)
    requires Run(states, acts) && i < |states|
    ensures var s := states[i];
            || (forall w :: 0 <= w < |s.workers| ==> !Asleep(s.workers[w]))
            || Total(Up, s.workers) + One(s.main.Signalling?) >= s.ring.count
    ensures var s := states[i];
            s.ring.count > 0 && s.workers != [] && !s.main.Signalling? ==>
              exists w :: 0 <= w < |s.workers| && !Asleep(s.workers[w])
  {
    RunKeepsInv(states, acts, i);
    UpAtMost(states[i].workers);
  }

  /** The is_busy loop of a worker never waits, and its own mutex is always free to it. */
  lemma OwnFlagNeverBlocks(states: seq<State>, acts: seq<Action>, i: nat, w: nat)
    requires Run(states, acts) && i < |states| && w < |states[i].workers|
    ensures var me := states[i].workers[w];
            && me.pc != OwnAsleep
            && (me.pc == OwnTest ==> !me.busy)
            && (me.pc == OwnLock || me.pc == DoneLock ==> Enabled(states[i], WorkerStep(w)))
  {
    RunKeepsInv(states, acts, i);
  }

  /** Between two clients a worker is free: after closing one it does not come to wait for
      the next before its flag has been clear. */
  lemma {:induction false} FreeBetweenClients(states: seq<State>, acts: seq<Action>, i: nat, j: nat, w: nat)
    requires Run(states, acts) && i < j < |states| && acts[i] == WorkerStep(w)
    requires w < |states[i].workers| && states[i].workers[w].pc.Closing?
    ensures w < |states[j].workers|
    ensures states[j].workers[w].pc.DoneLock? || states[j].workers[w].pc.DoneClear? || WasFree(states, i, j, w)
  {
    if j == i + 1 {
      StepFrees(states[i], acts[i], w);
    } else {
      FreeBetweenClients(states, acts, i, j - 1, w);
      RunKeepsInv(states, acts, j - 1);
      StepFrees(states[j - 1], acts[j - 1], w);
      if WasFree(states, i, j - 1, w) {
        var m :| i < m <= j - 1 && w < |states[m].workers| && !states[m].workers[w].busy;
        assert WasFree(states, i, j, w);
      }
    }
  }

  ghost predicate WasFree(states: seq<State>, i: nat, j: nat, w: nat)
    requires j < |states|
  {
    exists m :: i < m <= j && w < |states[m].workers| && !states[m].workers[w].busy
  }

  lemma StepFrees(s: State, a: Action, w: nat)
    requires InRange(s) && Enabled(s, a) && w < |s.workers|
    ensures |Do(s, a).workers| == |s.workers|
    ensures var pc, me := s.workers[w].pc, Do(s, a).workers[w];
            && (a == WorkerStep(w) && pc.Closing? ==> me.pc.DoneLock?)
            && (pc.DoneLock? || pc.DoneClear? ==> me.pc.DoneLock? || me.pc.DoneClear? || !me.busy)
  {
  }

  // ---------------------------------------------------------------------------
  // Progress: left to themselves the threads finish, and then everyone is served

  function WorkerRank(pc: WorkerPc): nat {
    match pc
    case QueueUnlock(_, _) => 16
    case Sending(_, _) => 15
    case Closing(_) => 14
    case DoneLock => 13
    case DoneClear => 12
    case DoneSignal => 11
    case DoneUnlock => 10
    case OwnLock => 9
    case OwnTest => 8
    case OwnSet => 7
    case OwnUnlock => 6
    case QueueLock => 5
    case QueueRelock => 5
    case QueueTest => 4
    case TakeFd => 3
    case TakeMessage(_) => 2
    case MoveFront(_, _) => 1
    case QueueWait => 1
    case CountOut(_, _) => 0
    case QueueAsleep => 0
    case OwnAsleep => 0
    case OwnRelock => 0
  }

  function MainRank(pc: MainPc): nat {
    match pc
    case Locking(_, _) => 30
    case Testing(_, _) => 29
    case StoringFd(_, _) => 28
    case StoringMessage(_, _) => 27
    case MovingRear(_, _) => 26
    case CountingIn(_, _) => 25
    case Signalling => 7
    case RejectSending(_) => 3
    case RejectClosing(_) => 2
    case Unlocking => 1
    case _ => 0
  }

  /** An upper bound on the internal steps the system can still take. */
  ghost function Remaining(s: State): nat {
    MainRank(s.main) + 17 * s.ring.count + Total(WorkerRank, s.workers)
  }

  /** The step of main itself; waking a sleeper costs up to 5 more. */
  lemma MainCodeRank(s: State)
    requires InRange(s) && s.ring.count <= |s.ring.slots| && !s.main.Accepting? && !s.main.Reading?
    ensures var move := MainCode(s.ring, s.owner, s.main);
            MainRank(move.pc) + 17 * move.ring.count + (if s.main.Signalling? then 5 else 0)
              < MainRank(s.main) + 17 * s.ring.count
  {
  }

  lemma MainStepDecreases(s: State, wake: nat)
    requires Shape(s) && Enabled(s, MainStep(wake))
    ensures Remaining(DoMain(s, wake)) < Remaining(s)
  {
    MainCodeRank(s);
    if Wakes(s, wake) {
      TotalUpdate(WorkerRank, s.workers, wake, s.workers[wake].(pc := QueueRelock));
    }
  }

  lemma ServeCodeRank(r: Ring, o: Owner, w: nat, pc: WorkerPc)
    requires r.front < |r.slots| && !OwnPart(pc) && !pc.QueueAsleep?
    requires pc.CountOut? ==> r.count > 0
    ensures var move := ServeCode(r, o, w, pc);
            WorkerRank(move.pc) + 17 * move.ring.count < WorkerRank(pc) + 17 * r.count
  {
  }

  lemma OwnCodeRank(me: WorkerState)
    requires OwnPart(me.pc) && FlagOk(me)
    ensures WorkerRank(OwnCode(me).pc) < WorkerRank(me.pc)
  {
  }

  lemma WorkerStepDecreases(s: State, w: nat)
    requires Shape(s) && Enabled(s, WorkerStep(w))
    ensures Remaining(DoWorker(s, w)) < Remaining(s)
  {
    var pc := s.workers[w].pc;
    TotalUpdate(WorkerRank, s.workers, w, DoWorker(s, w).workers[w]);
    if OwnPart(pc) {
      OwnCodeRank(s.workers[w]);
    } else {
      assert pc.CountOut? ==> s.ring.count > 0;
      ServeCodeRank(s.ring, s.owner, w, pc);
    }
  }

  lemma InternalStepDecreases(s: State, a: Action)
    requires Inv(s) && Enabled(s, a) && Internal(a)
    ensures Remaining(Do(s, a)) < Remaining(s)
  {
    if a.MainStep? {
      MainStepDecreases(s, a.wake);
    } else {
      WorkerStepDecreases(s, a.w);
    }
  }

  /** From any state of a run the threads can take only finitely many steps before
      the environment has to act. */
  lemma {:induction false} InternalStepsEnd(states: seq<State>, acts: seq<Action>)
    requires Path(states, acts) && Inv(states[0])
    requires forall i :: 0 <= i < |acts| ==> Internal(acts[i])
    ensures |acts| <= Remaining(states[0])
    decreases |acts|
  {
    if acts != [] {
      StepKeepsInv(states[0], acts[0]);
      InternalStepDecreases(states[0], acts[0]);
      assert Path(states[1..], acts[1..]);
      InternalStepsEnd(states[1..], acts[1..]);
    }
  }

  ghost predicate Quiescent(s: State) {
    forall a: Action :: Internal(a) ==> !Enabled(s, a)
  }

  /** When no thread can move, the queue is empty, every worker sleeps, and every
      accepted client but the one main is reading from has its one reply and its
      one close. */
  lemma QuiescentMeansServed(s: State)
    requires Inv(s) && Quiescent(s) && s.workers != []
    ensures s.owner == Nobody && (s.main.Accepting? || s.main.Reading?)
    ensures Queue(s) == [] && forall w :: 0 <= w < |s.workers| ==> Asleep(s.workers[w])
    ensures forall c :: c in s.accepted && !InHand(s.main, c) ==>
              Closed(s)[c] == 1 && s.replied[c] == 1
  {
    MainIsIdle(s);
    forall w: nat | w < |s.workers|
      ensures Asleep(s.workers[w])
    {
      assert !Enabled(s, WorkerStep(w));
    }
    UpAtMost(s.workers);
    forall c | c in s.accepted && !InHand(s.main, c)
      ensures Closed(s)[c] == 1 && s.replied[c] == 1
    {
      TotalNone(HoldsIt(c), s.workers);
      TotalNone(OwesIt(c), s.workers);
      assert Places(s, c) == 1 && Balance(s, c) == 0;
    }
  }

  /** Whoever is inside the queue mutex can move. */
  lemma OwnerCanStep(s: State)
    requires Shape(s) && s.owner.Worker?
    ensures Enabled(s, WorkerStep(s.owner.index))
  {
  }

  lemma MainCanStep(s: State) returns (wake: nat)
    requires Shape(s) && !s.owner.Worker? && !s.main.Accepting? && !s.main.Reading?
    ensures Enabled(s, MainStep(wake))
  {
    if exists w: nat :: w < |s.workers| && Asleep(s.workers[w]) {
      wake :| wake < |s.workers| && Asleep(s.workers[wake]);
    } else {
      wake := 0;
    }
  }

  lemma MainIsIdle(s: State)
    requires Inv(s) && Quiescent(s)
    ensures s.owner == Nobody && (s.main.Accepting? || s.main.Reading?)
  {
    if s.owner.Worker? {
      OwnerCanStep(s);
      assert false;
    }
    if !s.main.Accepting? && !s.main.Reading? {
      var wake := MainCanStep(s);
      assert false;
    }
  }
}
