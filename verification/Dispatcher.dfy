/** The driver table of the taxi dispatcher (TaxiManagement/taxi.c): slots that are
    reused, children reaped by pid, and the descriptors of their pipes. */
module Dispatcher {

  datatype Driver = Driver(pid: int, writeFd: int, readFd: int, active: bool)

  const EMPTY := Driver(0, 0, 0, false)

  /** The first driverCount slots of the global array. */
  type Table = seq<Driver>

  // ---------------------------------------------------------------------------
  // The operations on the table, as functions of its contents

  /** First inactive slot, or the length when every slot is active. */
  function LowestFree(t: Table): (i: nat)
    ensures i <= |t|
    ensures i < |t| ==> !t[i].active
    ensures forall j :: 0 <= j < i ==> t[j].active
  {
    if t == [] || !t[0].active then 0 else 1 + LowestFree(t[1..])
  }

  /** First slot whose pid is the given one, active or not. */
  function FirstWithPid(t: Table, pid: int): (i: nat)
    ensures i <= |t|
    ensures i < |t| ==> t[i].pid == pid
    ensures forall j :: 0 <= j < i ==> t[j].pid != pid
  {
    if t == [] || t[0].pid == pid then 0 else 1 + FirstWithPid(t[1..], pid)
  }

  /** What pipe, pipe and fork did. The two descriptors are the ends the dispatcher keeps. */
  datatype Spawn =
    | FirstPipeFails
    | SecondPipeFails(leaked: set<int>)
    | ForkFails(leaked: set<int>)
    | Forked(pid: int, writeFd: int, readFd: int)

  /** The table after create_driver has picked slot i (|t| is the slot after the last). */
  function Place(t: Table, i: nat, spawn: Spawn): Table
    requires i <= |t|
  {
    var grown := if i == |t| then t + [EMPTY] else t;
    if spawn.Forked? then grown[i := Driver(spawn.pid, spawn.writeFd, spawn.readFd, true)] else grown
  }

  predicate Full(t: Table, max: nat) {
    LowestFree(t) == |t| && |t| >= max
  }

  function Create(t: Table, max: nat, spawn: Spawn): Table {
    if Full(t, max) then t else Place(t, LowestFree(t), spawn)
  }

  /** One waitpid result handled by cleanup_zombies. */
  function Reap(t: Table, pid: int): Table {
    var i := FirstWithPid(t, pid);
    if i < |t| then t[i := t[i].(active := false)] else t
  }

  /** The descriptors that handling it closes, in order. */
  function ClosedBy(t: Table, pid: int): seq<int> {
    var i := FirstWithPid(t, pid);
    if i < |t| then [t[i].writeFd, t[i].readFd] else []
  }

  function ReapAll(t: Table, pids: seq<int>): Table
    decreases |pids|
  {
    if pids == [] then t else ReapAll(Reap(t, pids[0]), pids[1..])
  }

  function ClosedByAll(t: Table, pids: seq<int>): seq<int>
    decreases |pids|
  {
    if pids == [] then [] else ClosedBy(t, pids[0]) + ClosedByAll(Reap(t, pids[0]), pids[1..])
  }

  // ---------------------------------------------------------------------------
  // The program: the global array and count, updated in place

  class TaxiTable {
    const drivers: array<Driver>
    var driverCount: nat

    ghost predicate Valid()
      reads this
    {
      driverCount <= drivers.Length
    }

    ghost function View(): Table
      reads this, drivers
      requires Valid()
    {
      drivers[..driverCount]
    }

    /** The slots not yet used are those of a zero-initialised global array. */
    ghost predicate UnusedEmpty()
      reads this, drivers
    {
      forall i :: driverCount <= i < drivers.Length ==> drivers[i] == EMPTY
    }

    constructor (maxDrivers: nat)
      ensures Valid() && UnusedEmpty() && fresh(drivers) && drivers.Length == maxDrivers
      ensures View() == []
    {
      drivers := new Driver[maxDrivers](_ => EMPTY);
      driverCount := 0;
    }

    /** create_driver; `created` is false when no slot was free. */
    method CreateDriver(spawn: Spawn) returns (created: bool)
      requires Valid() && UnusedEmpty()
      modifies this, drivers
      ensures Valid() && UnusedEmpty()
      ensures View() == Create(old(View()), drivers.Length, spawn)
      ensures created <==> old(driverCount) < drivers.Length
                           || exists i :: 0 <= i < old(driverCount) && !old(View()[i].active)
    {
      ghost var before := View();
      var freeSlot := -1;
      for i := 0 to driverCount
        invariant freeSlot == -1
        invariant forall j :: 0 <= j < i ==> before[j].active
      {
        if !drivers[i].active {
          freeSlot := i;
          break;
        }
      }
      LowestFreeIs(before, if freeSlot == -1 then |before| else freeSlot);
      if freeSlot == -1 {
        if driverCount >= drivers.Length {
          return false;
        }
        freeSlot := driverCount;
        driverCount := driverCount + 1;
        assert View() == before + [EMPTY];
      }
      created := true;
      if spawn.Forked? {
        drivers[freeSlot] := Driver(spawn.pid, spawn.writeFd, spawn.readFd, true);
      }
    }

    /** The inner loop of cleanup_zombies: one dead child, matched on its pid alone. */
    method ReapOne(pid: int) returns (closed: seq<int>)
      requires Valid()
      modifies drivers
      ensures old(UnusedEmpty()) ==> UnusedEmpty()
      ensures View() == Reap(old(View()), pid)
      ensures closed == ClosedBy(old(View()), pid)
    {
      ghost var before := View();
      closed := [];
      for i := 0 to driverCount
        invariant View() == before && closed == []
        invariant old(UnusedEmpty()) ==> UnusedEmpty()
        invariant forall j :: 0 <= j < i ==> before[j].pid != pid
      {
        if drivers[i].pid == pid {
          FirstWithPidIs(before, pid, i);
          drivers[i] := drivers[i].(active := false);
          closed := [drivers[i].writeFd, drivers[i].readFd];
          return;
        }
      }
      FirstWithPidIs(before, pid, |before|);
    }

    /** cleanup_zombies, given what waitpid returns until it has no more. */
    method CleanupZombies(dead: seq<int>) returns (closed: seq<int>)
      requires Valid()
      modifies drivers
      ensures Valid() && driverCount == old(driverCount)
      ensures old(UnusedEmpty()) ==> UnusedEmpty()
      ensures View() == ReapAll(old(View()), dead)
      ensures closed == ClosedByAll(old(View()), dead)
    {
      closed := [];
      ghost var before := View();
      for k := 0 to |dead|
        invariant old(UnusedEmpty()) ==> UnusedEmpty()
        invariant View() == ReapAll(before, dead[..k])
        invariant closed == ClosedByAll(before, dead[..k])
      {
        ReapAllSnoc(before, dead[..k], dead[k]);
        assert dead[..k + 1] == dead[..k] + [dead[k]];
        var fds := ReapOne(dead[k]);
        closed := closed + fds;
      }
      assert dead[..|dead|] == dead;
    }

    /** The search of send_command: the active slot with that pid. */
    method FindActive(pid: int) returns (idx: int)
      requires Valid()
      ensures idx == -1 ==> forall i :: 0 <= i < driverCount ==> !(View()[i].active && View()[i].pid == pid)
      ensures idx != -1 ==> 0 <= idx < driverCount && View()[idx].active && View()[idx].pid == pid
    {
      for i := 0 to driverCount
        invariant forall j :: 0 <= j < i ==> !(View()[j].active && View()[j].pid == pid)
      {
        if drivers[i].pid == pid && drivers[i].active {
          return i;
        }
      }
      return -1;
    }
  }

  lemma {:induction false} ReapAllSnoc(t: Table, pids: seq<int>, pid: int)
    ensures ReapAll(t, pids + [pid]) == Reap(ReapAll(t, pids), pid)
    ensures ClosedByAll(t, pids + [pid]) == ClosedByAll(t, pids) + ClosedBy(ReapAll(t, pids), pid)
    decreases |pids|
  {
    var all := pids + [pid];
    if pids == [] {
      assert all[1..] == [];
      assert ReapAll(t, all) == ReapAll(Reap(t, pid), []);
    } else {
      assert all[1..] == pids[1..] + [pid];
      ReapAllSnoc(Reap(t, pids[0]), pids[1..], pid);
    }
  }

  lemma LowestFreeIs(t: Table, i: nat)
    requires i <= |t| && (i < |t| ==> !t[i].active) && forall j :: 0 <= j < i ==> t[j].active
    ensures LowestFree(t) == i
  {
  }

  lemma FirstWithPidIs(t: Table, pid: int, i: nat)
    requires i <= |t| && (i < |t| ==> t[i].pid == pid) && forall j :: 0 <= j < i ==> t[j].pid != pid
    ensures FirstWithPid(t, pid) == i
  {
  }

  // ---------------------------------------------------------------------------
  // The dispatcher among its children and descriptors

  /** `children` are the forked and not yet reaped, `open` the dispatcher's
      descriptors, `leaked` those no slot remembers, and `badCloses` counts calls of
      close on a descriptor that is not open. */
  datatype World = World(table: Table, children: set<int>, open: set<int>, leaked: set<int>, badCloses: nat)

  datatype Event = CreateDriver(spawn: Spawn) | ChildReaped(pid: int)

  /** What the kernel guarantees: a new pid is not that of an unreaped child, new
      descriptors are not open ones, and waitpid returns an unreaped child. */
  predicate Allowed(w: World, e: Event) {
    match e
    case CreateDriver(FirstPipeFails) => true
    case CreateDriver(SecondPipeFails(fds)) => |fds| == 2 && fds !! w.open
    case CreateDriver(ForkFails(fds)) => |fds| == 4 && fds !! w.open
    case CreateDriver(Forked(pid, wr, rd)) =>
      pid > 0 && pid !in w.children && wr != rd && wr !in w.open && rd !in w.open
    case ChildReaped(pid) => pid in w.children
  }

  function Close(w: World, fd: int): World {
    if fd in w.open then w.(open := w.open - {fd}) else w.(badCloses := w.badCloses + 1)
  }

  function CloseAll(w: World, fds: seq<int>): World
    decreases |fds|
  {
    if fds == [] then w else CloseAll(Close(w, fds[0]), fds[1..])
  }

  function After(w: World, e: Event, max: nat): World {
    match e
    case CreateDriver(spawn) =>
      if Full(w.table, max) then w
      else PlaceAt(w, LowestFree(w.table), spawn)
    case ChildReaped(pid) =>
      CloseAll(w, ClosedBy(w.table, pid)).(table := Reap(w.table, pid), children := w.children - {pid})
  }

  /** create_driver with the slot already chosen. */
  function PlaceAt(w: World, i: nat, spawn: Spawn): World
    requires i <= |w.table|
  {
    var w' := w.(table := Place(w.table, i, spawn));
    match spawn
    case FirstPipeFails => w'
    case SecondPipeFails(fds) => w'.(open := w.open + fds, leaked := w.leaked + fds)
    case ForkFails(fds) => w'.(open := w.open + fds, leaked := w.leaked + fds)
    case Forked(pid, wr, rd) => w'.(open := w.open + {wr, rd}, children := w.children + {pid})
  }

  const START := World([], {}, {}, {}, 0)

  function Run(events: seq<Event>, max: nat): World {
    if events == [] then START
    else After(Run(events[..|events| - 1], max), events[|events| - 1], max)
  }

  ghost predicate Possible(events: seq<Event>, max: nat) {
    forall k :: 0 <= k < |events| ==> Allowed(Run(events[..k], max), events[k])
  }

  /** The descriptors a slot holds. */
  function Fds(d: Driver): set<int> {
    {d.writeFd, d.readFd}
  }

  predicate Apart(d: Driver, e: Driver) {
    d.writeFd != e.writeFd && d.writeFd != e.readFd && d.readFd != e.writeFd && d.readFd != e.readFd
  }

  ghost predicate PidsOk(t: Table, children: set<int>) {
    && (forall i :: 0 <= i < |t| && t[i].active ==> t[i].pid in children)
    && (forall p :: p in children ==> HasLive(t, p))
    && (forall i, j :: 0 <= i < j < |t| && t[i].active && t[j].active ==> t[i].pid != t[j].pid)
    // a stale pid is never found before the live one
    && (forall i, j :: 0 <= i < j < |t| && !t[i].active && t[j].active ==> t[i].pid != t[j].pid)
  }

  ghost predicate HasLive(t: Table, p: int) {
    exists i :: 0 <= i < |t| && t[i].active && t[i].pid == p
  }

  ghost predicate FdsOk(t: Table, open: set<int>, leaked: set<int>) {
    && leaked <= open
    && (forall i :: 0 <= i < |t| && t[i].active ==> Holds(t[i], open, leaked))
    && (forall i, j :: 0 <= i < j < |t| && t[i].active && t[j].active ==> Apart(t[i], t[j]))
  }

  /** Both descriptors of the slot are open, distinct, and not among the leaked. */
  ghost predicate Holds(d: Driver, open: set<int>, leaked: set<int>) {
    && d.writeFd != d.readFd
    && d.writeFd in open && d.readFd in open
    && d.writeFd !in leaked && d.readFd !in leaked
  }

  ghost predicate Inv(w: World) {
    PidsOk(w.table, w.children) && FdsOk(w.table, w.open, w.leaked) && w.badCloses == 0
  }

  lemma PlaceKeepsOthers(t: Table, i: nat, spawn: Spawn)
    requires i <= |t|
    ensures var t' := Place(t, i, spawn);
            && |t'| == (if i == |t| then |t| + 1 else |t|)
            && (forall j :: 0 <= j < |t| && j != i ==> t'[j] == t[j])
            && t'[i] == if spawn.Forked? then Driver(spawn.pid, spawn.writeFd, spawn.readFd, true)
                        else if i == |t| then EMPTY else t[i]
  {
  }

  /** Slot i may be given to a new driver. */
  predicate Free(t: Table, i: nat) {
    i <= |t| && (i < |t| ==> !t[i].active)
  }

  /** No inactive slot below i carries a pid the kernel could issue now. */
  predicate CleanBelow(t: Table, children: set<int>, i: nat)
    requires i <= |t|
  {
    forall j :: 0 <= j < i && !t[j].active ==> t[j].pid <= 0 || t[j].pid in children
  }

  lemma ForkKeepsPids(t: Table, children: set<int>, i: nat, spawn: Spawn)
    requires PidsOk(t, children) && Free(t, i) && CleanBelow(t, children, i)
    requires spawn.Forked? && spawn.pid > 0 && spawn.pid !in children
    ensures PidsOk(Place(t, i, spawn), children + {spawn.pid})
  {
    var t' := Place(t, i, spawn);
    PlaceKeepsOthers(t, i, spawn);
    forall p | p in children + {spawn.pid}
      ensures HasLive(t', p)
    {
      if p == spawn.pid {
        assert t'[i].active && t'[i].pid == p;
      } else {
        var k :| 0 <= k < |t| && t[k].active && t[k].pid == p;
        assert t'[k].active && t'[k].pid == p;
      }
    }
  }

  /** A slot taken for a driver that could not be started stays inactive. */
  lemma FailureKeepsPids(t: Table, children: set<int>, i: nat, spawn: Spawn)
    requires PidsOk(t, children) && Free(t, i) && !spawn.Forked?
    ensures PidsOk(Place(t, i, spawn), children)
  {
    var t' := Place(t, i, spawn);
    PlaceKeepsOthers(t, i, spawn);
    forall p | p in children
      ensures HasLive(t', p)
    {
      var k :| 0 <= k < |t| && t[k].active && t[k].pid == p;
      assert t'[k].active && t'[k].pid == p;
    }
  }

  lemma CreateKeepsFds(w: World, i: nat, spawn: Spawn)
    requires FdsOk(w.table, w.open, w.leaked) && Free(w.table, i) && Allowed(w, CreateDriver(spawn))
    ensures var w' := PlaceAt(w, i, spawn);
            FdsOk(w'.table, w'.open, w'.leaked)
  {
    PlaceKeepsOthers(w.table, i, spawn);
    var w' := PlaceAt(w, i, spawn);
    forall j | 0 <= j < |w'.table| && w'.table[j].active
      ensures Holds(w'.table[j], w'.open, w'.leaked)
    {
      if j != i {
        assert Holds(w.table[j], w.open, w.leaked);
      }
    }
  }

  /** Any free slot that is clean below would do. */
  lemma PlaceKeepsInv(w: World, i: nat, spawn: Spawn)
    requires Inv(w) && Allowed(w, CreateDriver(spawn))
    requires Free(w.table, i) && CleanBelow(w.table, w.children, i)
    ensures Inv(PlaceAt(w, i, spawn))
  {
    if spawn.Forked? {
      ForkKeepsPids(w.table, w.children, i, spawn);
    } else {
      FailureKeepsPids(w.table, w.children, i, spawn);
    }
    CreateKeepsFds(w, i, spawn);
  }

  /** The match on pid alone finds the live slot. */
  lemma ReapFindsLiveSlot(t: Table, children: set<int>, pid: int)
    requires PidsOk(t, children) && pid in children
    ensures var i := FirstWithPid(t, pid);
            i < |t| && t[i].active
  {
    assert HasLive(t, pid);
    var k :| 0 <= k < |t| && t[k].active && t[k].pid == pid;
  }

  lemma ReapKeepsPids(t: Table, children: set<int>, pid: int)
    requires PidsOk(t, children) && pid in children
    ensures PidsOk(Reap(t, pid), children - {pid})
  {
    ReapFindsLiveSlot(t, children, pid);
    var t' := Reap(t, pid);
    forall p | p in children - {pid}
      ensures HasLive(t', p)
    {
      assert HasLive(t, p);
      var k :| 0 <= k < |t| && t[k].active && t[k].pid == p;
      assert t'[k] == t[k];
    }
  }

  lemma ReapKeepsFds(t: Table, open: set<int>, leaked: set<int>, i: nat)
    requires FdsOk(t, open, leaked) && i < |t| && t[i].active
    ensures FdsOk(t[i := t[i].(active := false)], open - Fds(t[i]), leaked)
  {
    var t' := t[i := t[i].(active := false)];
    assert Holds(t[i], open, leaked);
    forall j | 0 <= j < |t'| && t'[j].active
      ensures Holds(t'[j], open - Fds(t[i]), leaked)
    {
      assert t'[j] == t[j] && Holds(t[j], open, leaked);
      assert if i < j then Apart(t[i], t[j]) else Apart(t[j], t[i]);
    }
  }

  lemma CloseTwo(w: World, a: int, b: int)
    requires a != b && a in w.open && b in w.open
    ensures CloseAll(w, [a, b]) == w.(open := w.open - {a, b})
  {
    assert CloseAll(w, [a, b]) == CloseAll(Close(w, a), [b]);
    assert CloseAll(Close(w, a), [b]) == CloseAll(Close(Close(w, a), b), []);
    assert w.open - {a} - {b} == w.open - {a, b};
  }

  /** Reaping closes the two descriptors of the child's own slot, and nothing else happens. */
  lemma ReapIsExact(w: World, pid: int, max: nat)
    requires Inv(w) && pid in w.children
    ensures var i := FirstWithPid(w.table, pid);
            && i < |w.table| && w.table[i].active && w.table[i].pid == pid
            && w.table[i].writeFd != w.table[i].readFd
            && Fds(w.table[i]) <= w.open
            && After(w, ChildReaped(pid), max)
               == w.(table := w.table[i := w.table[i].(active := false)],
                     children := w.children - {pid}, open := w.open - Fds(w.table[i]))
  {
    ReapFindsLiveSlot(w.table, w.children, pid);
    var d := w.table[FirstWithPid(w.table, pid)];
    assert Holds(d, w.open, w.leaked);
    CloseTwo(w, d.writeFd, d.readFd);
  }

  lemma StepKeepsInv(w: World, e: Event, max: nat)
    requires Inv(w) && Allowed(w, e)
    ensures Inv(After(w, e, max))
  {
    match e
    case CreateDriver(spawn) =>
      if !Full(w.table, max) {
        PlaceKeepsInv(w, LowestFree(w.table), spawn);
      }
    case ChildReaped(pid) =>
      ReapIsExact(w, pid, max);
      ReapKeepsPids(w.table, w.children, pid);
      ReapKeepsFds(w.table, w.open, w.leaked, FirstWithPid(w.table, pid));
  }

  /** The method and the run model make the same table. */
  lemma CreateIsPlacing(w: World, spawn: Spawn, max: nat)
    ensures After(w, CreateDriver(spawn), max).table == Create(w.table, max, spawn)
  {
  }

  /** create_driver starts the forked driver, with its own pid and descriptors, if and only
      if the table has a slot never used or one that is inactive; otherwise nothing changes,
      and no active slot changes in either case. */
  lemma CreateStartsIff(w: World, pid: int, wr: int, rd: int, max: nat)
    requires Inv(w) && Allowed(w, CreateDriver(Forked(pid, wr, rd)))
    ensures var w' := After(w, CreateDriver(Forked(pid, wr, rd)), max);
            var room := |w.table| < max || exists i :: 0 <= i < |w.table| && !w.table[i].active;
            && (Driver(pid, wr, rd, true) in w'.table <==> room)
            && (!room ==> w' == w)
            && |w.table| <= |w'.table|
            && (forall i :: 0 <= i < |w.table| && w.table[i].active ==> w'.table[i] == w.table[i])
  {
    var i := LowestFree(w.table);
    if !Full(w.table, max) {
      PlaceKeepsOthers(w.table, i, Forked(pid, wr, rd));
      assert After(w, CreateDriver(Forked(pid, wr, rd)), max).table[i] == Driver(pid, wr, rd, true);
    }
  }

  /** Event k started driver d, and d has not been reaped since. */
  ghost predicate StartedBy(events: seq<Event>, d: Driver, k: nat) {
    && k < |events| && events[k] == CreateDriver(Forked(d.pid, d.writeFd, d.readFd))
    && forall m :: k < m < |events| ==> events[m] != ChildReaped(d.pid)
  }

  /** In every run an active slot holds the pid and the two descriptors that one
      create_driver got from fork and pipe, for a driver not reaped since. */
  lemma {:induction false} ActiveSlotsRemember(events: seq<Event>, max: nat, i: nat) returns (k: nat)
    requires Possible(events, max)
    requires i < |Run(events, max).table| && Run(events, max).table[i].active
    ensures StartedBy(events, Run(events, max).table[i], k)
  {
    assert events != [];
    var n := |events| - 1;
    var w, e := Run(events[..n], max), events[n];
    var d := After(w, e, max).table[i];
    PossiblePrefix(events, max, n);
    RunKeepsInv(events[..n], max);
    StepKeepsSlot(w, e, max, i);
    if e == CreateDriver(Forked(d.pid, d.writeFd, d.readFd)) {
      k := n;
    } else {
      k := ActiveSlotsRemember(events[..n], max, i);
      StartedExtends(events, d, k);
    }
  }

  lemma StartedExtends(events: seq<Event>, d: Driver, k: nat)
    requires events != [] && StartedBy(events[..|events| - 1], d, k)
    requires events[|events| - 1] != ChildReaped(d.pid)
    ensures StartedBy(events, d, k)
  {
    var before := events[..|events| - 1];
    forall m | k < m < |events|
      ensures events[m] != ChildReaped(d.pid)
    {
      assert m < |before| ==> events[m] == before[m];
    }
  }

  lemma StepKeepsSlot(w: World, e: Event, max: nat, i: nat)
    requires Inv(w) && Allowed(w, e)
    requires i < |After(w, e, max).table| && After(w, e, max).table[i].active
    ensures var d := After(w, e, max).table[i];
            || (i < |w.table| && w.table[i] == d && e != ChildReaped(d.pid))
            || e == CreateDriver(Forked(d.pid, d.writeFd, d.readFd))
  {
    match e
    case CreateDriver(spawn) =>
      if !Full(w.table, max) {
        PlaceKeepsOthers(w.table, LowestFree(w.table), spawn);
      }
    case ChildReaped(pid) =>
      ReapsLiveSlot(w, pid, max);
  }

  lemma PossiblePrefix(events: seq<Event>, max: nat, n: nat)
    requires Possible(events, max) && n <= |events|
    ensures Possible(events[..n], max)
    ensures n < |events| ==> Allowed(Run(events[..n], max), events[n])
  {
    assert forall k :: 0 <= k <= n ==> events[..n][..k] == events[..k];
  }

  lemma {:induction false} RunKeepsInv(events: seq<Event>, max: nat)
    requires Possible(events, max)
    ensures Inv(Run(events, max))
  {
    if events != [] {
      var n := |events| - 1;
      PossiblePrefix(events, max, n);
      RunKeepsInv(events[..n], max);
      StepKeepsInv(Run(events[..n], max), events[n], max);
    }
  }

  lemma {:induction false} TableNeverOverflows(events: seq<Event>, max: nat)
    ensures |Run(events, max).table| <= max
  {
    if events != [] {
      var n := |events| - 1;
      TableNeverOverflows(events[..n], max);
      var w := Run(events[..n], max);
      if events[n].ChildReaped? {
        CloseAllKeepsTable(w, ClosedBy(w.table, events[n].pid));
      }
    }
  }

  lemma {:induction false} CloseAllKeepsTable(w: World, fds: seq<int>)
    ensures CloseAll(w, fds).table == w.table
    decreases |fds|
  {
    if fds != [] {
      CloseAllKeepsTable(Close(w, fds[0]), fds[1..]);
    }
  }

  /** Reaping pid deactivates slot i, the only active one with that pid, closes its two
      descriptors, both open until then, and touches nothing else. */
  ghost predicate ReapsSlot(w: World, w': World, pid: int, i: nat) {
    && i < |w.table| && w.table[i].active && w.table[i].pid == pid
    && (forall j :: 0 <= j < |w.table| && j != i && w.table[j].active ==> w.table[j].pid != pid)
    && w.table[i].writeFd != w.table[i].readFd && Fds(w.table[i]) <= w.open
    && w' == w.(table := w.table[i := w.table[i].(active := false)],
                children := w.children - {pid}, open := w.open - Fds(w.table[i]))
  }

  lemma ReapsLiveSlot(w: World, pid: int, max: nat)
    requires Inv(w) && pid in w.children
    ensures ReapsSlot(w, After(w, ChildReaped(pid), max), pid, FirstWithPid(w.table, pid))
  {
    ReapIsExact(w, pid, max);
    var i := FirstWithPid(w.table, pid);
    assert w.table[i].active && w.table[i].pid == pid;
  }

  lemma RunSnoc(events: seq<Event>, e: Event, max: nat)
    ensures Run(events + [e], max) == After(Run(events, max), e, max)
  {
    assert (events + [e])[..|events|] == events;
  }

  /** Over all runs in which a pid is reissued only after its child is reaped, every
      reaping is of the live slot, and no descriptor is ever closed twice. */
  lemma ReapingIsRight(events: seq<Event>, max: nat, pid: int)
    requires Possible(events, max) && pid in Run(events, max).children
    ensures var w, w' := Run(events, max), Run(events + [ChildReaped(pid)], max);
            ReapsSlot(w, w', pid, FirstWithPid(w.table, pid)) && w.badCloses == 0
  {
    RunKeepsInv(events, max);
    RunSnoc(events, ChildReaped(pid), max);
    ReapsLiveSlot(Run(events, max), pid, max);
  }

  /** A whole cleanup_zombies: the reapings of the dead children one after the other,
      with the descriptors closed in the order the method returns them. */
  function AfterReaps(w: World, pids: seq<int>, max: nat): World
    decreases |pids|
  {
    if pids == [] then w else AfterReaps(After(w, ChildReaped(pids[0]), max), pids[1..], max)
  }

  lemma {:induction false} CleanupIsReaping(w: World, pids: seq<int>, max: nat)
    ensures AfterReaps(w, pids, max).table == ReapAll(w.table, pids)
    ensures AfterReaps(w, pids, max).open == CloseAll(w, ClosedByAll(w.table, pids)).open
    decreases |pids|
  {
    if pids != [] {
      var w1 := After(w, ChildReaped(pids[0]), max);
      var c := ClosedBy(w.table, pids[0]);
      CloseAllKeepsTable(w, c);
      CleanupIsReaping(w1, pids[1..], max);
      CloseAllSplits(w, c, ClosedByAll(w1.table, pids[1..]));
      CloseAllOpen(CloseAll(w, c), w1, ClosedByAll(w1.table, pids[1..]));
    }
  }

  lemma {:induction false} CloseAllSplits(w: World, a: seq<int>, b: seq<int>)
    ensures CloseAll(w, a + b) == CloseAll(CloseAll(w, a), b)
    decreases |a|
  {
    if a == [] {
      assert a + b == b;
    } else {
      assert (a + b)[1..] == a[1..] + b;
      CloseAllSplits(Close(w, a[0]), a[1..], b);
    }
  }

  lemma {:induction false} CloseAllOpen(v: World, w: World, fds: seq<int>)
    requires v.open == w.open
    ensures CloseAll(v, fds).open == CloseAll(w, fds).open
    decreases |fds|
  {
    if fds != [] {
      CloseAllOpen(Close(v, fds[0]), Close(w, fds[0]), fds[1..]);
    }
  }

  /** Descriptors are conserved over every run: two for each active slot, and two or
      four more for each spawn that failed half-way. */
  lemma {:induction false} DescriptorsConserved(events: seq<Event>, max: nat)
    requires Possible(events, max)
    ensures |Run(events, max).open| == 2 * ActiveCount(Run(events, max).table) + Leaks(events, max)
  {
    if events != [] {
      var n := |events| - 1;
      PossiblePrefix(events, max, n);
      DescriptorsConserved(events[..n], max);
      RunKeepsInv(events[..n], max);
      var w := Run(events[..n], max);
      match events[n]
      case CreateDriver(spawn) =>
        if !Full(w.table, max) {
          CreateCounts(w, spawn, max);
        }
      case ChildReaped(pid) => ReapCounts(w, pid, max);
    }
  }

  lemma CreateCounts(w: World, spawn: Spawn, max: nat)
    requires Allowed(w, CreateDriver(spawn)) && !Full(w.table, max)
    ensures var w' := PlaceAt(w, LowestFree(w.table), spawn);
            |w'.open| - 2 * ActiveCount(w'.table) == |w.open| - 2 * ActiveCount(w.table) + LeaksOf(spawn)
  {
    ActiveAfterPlace(w.table, LowestFree(w.table), spawn);
    if spawn.Forked? {
      assert w.open + {spawn.writeFd, spawn.readFd} == (w.open + {spawn.writeFd}) + {spawn.readFd};
    }
  }

  lemma ReapCounts(w: World, pid: int, max: nat)
    requires Inv(w) && pid in w.children
    ensures var w' := After(w, ChildReaped(pid), max);
            |w'.open| - 2 * ActiveCount(w'.table) == |w.open| - 2 * ActiveCount(w.table)
  {
    ReapIsExact(w, pid, max);
    var i := FirstWithPid(w.table, pid);
    var d := w.table[i];
    ActiveUpdate(w.table, i, d.(active := false));
    assert w.open == ((w.open - Fds(d)) + {d.writeFd}) + {d.readFd};
  }

  /** A failed second pipe leaks two descriptors, a failed fork four. */
  function LeaksOf(spawn: Spawn): nat {
    match spawn
    case SecondPipeFails(_) => 2
    case ForkFails(_) => 4
    case _ => 0
  }

  ghost function Leaks(events: seq<Event>, max: nat): nat {
    if events == [] then 0
    else
      var before, e := events[..|events| - 1], events[|events| - 1];
      Leaks(before, max)
      + if e.CreateDriver? && !Full(Run(before, max).table, max) then LeaksOf(e.spawn) else 0
  }

  ghost function ActiveCount(t: Table): nat {
    if t == [] then 0 else ActiveCount(t[..|t| - 1]) + (if t[|t| - 1].active then 1 else 0)
  }

  lemma {:induction false} ActiveUpdate(t: Table, i: nat, d: Driver)
    requires i < |t|
    ensures ActiveCount(t[i := d]) + (if t[i].active then 1 else 0)
         == ActiveCount(t) + (if d.active then 1 else 0)
  {
    var n := |t| - 1;
    if i < n {
      ActiveUpdate(t[..n], i, d);
      assert t[i := d][..n] == t[..n][i := d];
    } else {
      assert t[i := d][..n] == t[..n];
    }
  }

  lemma ActiveAfterPlace(t: Table, i: nat, spawn: Spawn)
    requires i <= |t| && (i < |t| ==> !t[i].active)
    ensures ActiveCount(Place(t, i, spawn)) == ActiveCount(t) + (if spawn.Forked? then 1 else 0)
  {
    var grown := if i == |t| then t + [EMPTY] else t;
    if i == |t| {
      assert grown[..|t|] == t;
    }
    if spawn.Forked? {
      ActiveUpdate(grown, i, Driver(spawn.pid, spawn.writeFd, spawn.readFd, true));
    }
  }

  /** Whatever pid and descriptors the kernel may give a driver put into slot i, its
      reaping will find that slot and do to it, and to nothing else, what it should. */
  ghost predicate SafeSlot(w: World, i: nat, max: nat)
    requires i <= |w.table|
  {
    forall pid, wr, rd :: Allowed(w, CreateDriver(Forked(pid, wr, rd))) ==> SafeFor(w, i, Forked(pid, wr, rd), max)
  }

  ghost predicate SafeFor(w: World, i: nat, spawn: Spawn, max: nat)
    requires i <= |w.table| && spawn.Forked?
  {
    var placed := PlaceAt(w, i, spawn);
    ReapsSlot(placed, After(placed, ChildReaped(spawn.pid), max), spawn.pid, i)
  }

  /** Which free slots create_driver could use, decided before it forks: those with no
      stale pid below them that the kernel is free to issue again. */
  lemma SafeSlotIff(w: World, i: nat, max: nat)
    requires Inv(w) && Free(w.table, i)
    ensures SafeSlot(w, i, max) <==> CleanBelow(w.table, w.children, i)
  {
    if CleanBelow(w.table, w.children, i) {
      forall pid, wr, rd | Allowed(w, CreateDriver(Forked(pid, wr, rd)))
        ensures SafeFor(w, i, Forked(pid, wr, rd), max)
      {
        CleanSlotIsSafe(w, i, Forked(pid, wr, rd), max);
      }
    }
    if !CleanBelow(w.table, w.children, i) {
      var j :| 0 <= j < i && !w.table[j].active && w.table[j].pid > 0 && w.table[j].pid !in w.children;
      var spawn := StalePidMisleads(w, i, j, max);
    }
  }

  lemma CleanSlotIsSafe(w: World, i: nat, spawn: Spawn, max: nat)
    requires Inv(w) && Free(w.table, i) && CleanBelow(w.table, w.children, i)
    requires spawn.Forked? && Allowed(w, CreateDriver(spawn))
    ensures SafeFor(w, i, spawn, max)
  {
    PlaceKeepsInv(w, i, spawn);
    PlaceKeepsOthers(w.table, i, spawn);
    var placed := PlaceAt(w, i, spawn);
    FirstWithPidIs(placed.table, spawn.pid, i);
    ReapsLiveSlot(placed, spawn.pid, max);
  }

  /** A stale pid in slot j below i can be issued again, and is then found first. */
  lemma StalePidMisleads(w: World, i: nat, j: nat, max: nat) returns (spawn: Spawn)
    requires Free(w.table, i) && j < i && !w.table[j].active
    requires 0 < w.table[j].pid && w.table[j].pid !in w.children
    ensures spawn.Forked? && Allowed(w, CreateDriver(spawn)) && !SafeFor(w, i, spawn, max)
  {
    var wr := FreshFd(w.open);
    var rd := FreshFd(w.open + {wr});
    spawn := Forked(w.table[j].pid, wr, rd);
    PlaceKeepsOthers(w.table, i, spawn);
    var placed := PlaceAt(w, i, spawn);
    assert placed.table[j].pid == spawn.pid;
    assert FirstWithPid(placed.table, spawn.pid) <= j;
    var reaped := After(placed, ChildReaped(spawn.pid), max);
    assert reaped.table[i].active;
  }

  lemma {:induction false} FreshFd(open: set<int>) returns (fd: int)
    ensures forall x :: x in open ==> x < fd
    decreases open
  {
    if y :| y in open {
      var above := FreshFd(open - {y});
      fd := if above <= y then y + 1 else above;
      assert forall x :: x in open ==> x == y || x in open - {y};
    } else {
      fd := 0;
    }
  }

  /** The slot create_driver takes is safe in every run, because nothing below it is inactive. */
  lemma LowestFreeIsSafe(events: seq<Event>, max: nat)
    requires Possible(events, max)
    ensures var w := Run(events, max); SafeSlot(w, LowestFree(w.table), max)
  {
    RunKeepsInv(events, max);
    SafeSlotIff(Run(events, max), LowestFree(Run(events, max).table), max);
  }

  /** And a run after which the next slot up is not safe: two drivers have come and
      gone, and the kernel reissues the first one's pid. */
  function TwoCameAndWent(): seq<Event> {
    [CreateDriver(Forked(5, 10, 11)), CreateDriver(Forked(6, 12, 13)), ChildReaped(5), ChildReaped(6)]
  }

  lemma TwoCameAndWentRun()
    ensures Possible(TwoCameAndWent(), 2)
    ensures Run(TwoCameAndWent(), 2)
         == World([Driver(5, 10, 11, false), Driver(6, 12, 13, false)], {}, {}, {}, 0)
  {
    var events := TwoCameAndWent();
    var e0, e1, e2, e3 := events[0], events[1], events[2], events[3];
    var d0, d1 := Driver(5, 10, 11, true), Driver(6, 12, 13, true);
    assert events[..0] == [] && events[..1] == [e0] && events[..2] == [e0, e1]
        && events[..3] == [e0, e1, e2] && events[..4] == events;
    assert [e0][..0] == [] && [e0, e1][..1] == [e0] && [e0, e1, e2][..2] == [e0, e1];
    LowestFreeIs([], 0);
    var w1 := World([d0], {5}, {10, 11}, {}, 0);
    assert Run([e0], 2) == After(START, e0, 2) == w1;
    LowestFreeIs([d0], 1);
    var w2 := World([d0, d1], {5, 6}, {10, 11, 12, 13}, {}, 0);
    assert Run([e0, e1], 2) == After(w1, e1, 2) == w2;
    FirstWithPidIs([d0, d1], 5, 0);
    CloseTwo(w2, 10, 11);
    var w3 := World([d0.(active := false), d1], {6}, {12, 13}, {}, 0);
    assert Run([e0, e1, e2], 2) == After(w2, e2, 2) == w3;
    FirstWithPidIs(w3.table, 6, 1);
    CloseTwo(w3, 12, 13);
    assert Run(events, 2) == After(w3, e3, 2);
  }

  lemma HigherSlotGoesWrong()
    ensures Possible(TwoCameAndWent(), 2)
    ensures var w := Run(TwoCameAndWent(), 2);
            && Allowed(w, CreateDriver(Forked(5, 10, 11)))
            && |w.table| == 2 && !w.table[1].active
            && var bad := After(PlaceAt(w, 1, Forked(5, 10, 11)), ChildReaped(5), 2);
               bad.children == {} && bad.table[1].active
    ensures !SafeSlot(Run(TwoCameAndWent(), 2), 1, 2)
  {
    TwoCameAndWentRun();
    var placed := PlaceAt(Run(TwoCameAndWent(), 2), 1, Forked(5, 10, 11));
    FirstWithPidIs(placed.table, 5, 0);
    CloseAllKeepsTable(placed, ClosedBy(placed.table, 5));
    RunKeepsInv(TwoCameAndWent(), 2);
    SafeSlotIff(Run(TwoCameAndWent(), 2), 1, 2);
  }
}
