/** Shoppers and a loader working on an array of shops, each with its own mutex taken
    by trylock (Streams/pthread_shopper.c, Streams/pthread_loader.c), as a transition
    system. Reading the stock, lowering the need and emptying the shop are separate
    steps, and so are the read and the write of the loader's += 200. */
module Shops {

  datatype Owner = Nobody | Shopper(index: nat) | Loader

  datatype ShopperPc =
    | While
    | Try(shop: nat)
    | Check(shop: nat)
    | Subtract(shop: nat)
    | Empty(shop: nat, taken: int)
    | Unlock(shop: nat)
    | AfterUnlock(shop: nat)
    | AfterFor
    | Done

  datatype LoaderPc =
    | Sleep
    | TryLoad(shop: nat)
    | ReadStock(shop: nat)
    | WriteStock(shop: nat, read: int)
    | UnlockLoaded(shop: nat)

  /** `initial`, `bought`, `purchases`, `last` (the latest purchase) and `tried` (the shops
      tried in this round) are history. */
  datatype ShopperState = ShopperState(
    pc: ShopperPc, need: int, initial: int, bought: int, purchases: nat, last: int, tried: seq<nat>)

  /** History: the stock at the start, the loader's visits and completed loads, and the
      shops it has tried in this round. */
  datatype State = State(
    stock: seq<int>, lock: seq<Owner>, shoppers: seq<ShopperState>, loader: LoaderPc,
    initial: int, visits: nat, loads: nat, loaderTried: seq<nat>)

  function Sum(xs: seq<int>): int {
    if xs == [] then 0 else Sum(xs[..|xs| - 1]) + xs[|xs| - 1]
  }

  ghost predicate StockShape(stock: seq<int>) {
    forall i :: 0 <= i < |stock| ==> stock[i] == 0 || stock[i] >= 200
  }

  ghost predicate Init(s: State) {
    && |s.lock| == |s.stock|
    && StockShape(s.stock)
    && (forall i :: 0 <= i < |s.lock| ==> s.lock[i] == Nobody)
    && (forall k :: 0 <= k < |s.shoppers| ==>
          var me := s.shoppers[k];
          me == ShopperState(While, me.initial, me.initial, 0, 0, 0, []))
    && s.loader == Sleep && s.initial == Sum(s.stock)
    && s.visits == 0 && s.loads == 0 && s.loaderTried == []
  }

  // ---------------------------------------------------------------------------
  // Steps: each thread's next statement

  datatype Action = ShopperStep(k: nat) | LoaderStep

  ghost predicate Enabled(s: State, a: Action) {
    a.ShopperStep? ==> a.k < |s.shoppers| && s.shoppers[a.k].pc != Done
  }

  /** Is the thread inside the shop it is at? */
  predicate Inside(pc: ShopperPc) {
    pc.Check? || pc.Subtract? || pc.Empty? || pc.Unlock?
  }

  predicate LoaderInside(pc: LoaderPc) {
    pc.ReadStock? || pc.WriteStock? || pc.UnlockLoaded?
  }

  predicate Open(s: State, i: nat) {
    i < |s.stock| && i < |s.lock|
  }

  function Go(s: State, k: nat, pc: ShopperPc): State
    requires k < |s.shoppers|
  {
    s.(shoppers := s.shoppers[k := s.shoppers[k].(pc := pc)])
  }

  /** The next step of a shopper that has just tried shop i. */
  function Tried(s: State, k: nat, i: nat, pc: ShopperPc): State
    requires k < |s.shoppers|
  {
    s.(shoppers := s.shoppers[k := s.shoppers[k].(pc := pc, tried := s.shoppers[k].tried + [i])])
  }

  function DoShopper(s: State, k: nat): State
    requires k < |s.shoppers|
  {
    var me := s.shoppers[k];
    match me.pc
    case While =>
      s.(shoppers := s.shoppers[k := me.(pc := if me.need > 0 then Try(0) else Done, tried := [])])
    case Try(i) =>
      if !Open(s, i) then Go(s, k, AfterFor)
      else if s.lock[i] == Nobody then Tried(s, k, i, Check(i)).(lock := s.lock[i := Shopper(k)])
      else Tried(s, k, i, Try(i + 1))
    case Check(i) => Go(s, k, if Open(s, i) && s.stock[i] > 0 then Subtract(i) else Unlock(i))
    case Subtract(i) =>
      var n := if Open(s, i) then s.stock[i] else 0;
      s.(shoppers := s.shoppers[k := me.(pc := Empty(i, n), need := me.need - n,
                                         bought := me.bought + n, purchases := me.purchases + 1, last := n)])
    case Empty(i, _) => Go(s, k, Unlock(i)).(stock := if Open(s, i) then s.stock[i := 0] else s.stock)
    case Unlock(i) => Go(s, k, AfterUnlock(i)).(lock := if Open(s, i) then s.lock[i := Nobody] else s.lock)
    case AfterUnlock(i) => Go(s, k, if me.need <= 0 then AfterFor else Try(i + 1))
    case AfterFor => Go(s, k, While)
    case Done => s
  }

  function DoLoader(s: State): State {
    match s.loader
    case Sleep => s.(loader := TryLoad(0), loaderTried := [])
    case TryLoad(i) =>
      if !Open(s, i) then s.(loader := Sleep)
      else if s.lock[i] == Nobody then
        s.(loader := ReadStock(i), lock := s.lock[i := Loader], visits := s.visits + 1,
           loaderTried := s.loaderTried + [i])
      else s.(loader := TryLoad(i + 1), loaderTried := s.loaderTried + [i])
    case ReadStock(i) => s.(loader := WriteStock(i, if Open(s, i) then s.stock[i] else 0))
    case WriteStock(i, n) =>
      s.(loader := UnlockLoaded(i), loads := s.loads + 1,
         stock := if Open(s, i) then s.stock[i := n + 200] else s.stock)
    case UnlockLoaded(i) =>
      s.(loader := TryLoad(i + 1), lock := if Open(s, i) then s.lock[i := Nobody] else s.lock)
  }

  function Do(s: State, a: Action): State {
    match a
    case ShopperStep(k) => if k < |s.shoppers| then DoShopper(s, k) else s
    case LoaderStep => DoLoader(s)
  }

  // ---------------------------------------------------------------------------
  // Invariants

  /** A shop's mutex is held by exactly the thread inside the shop. */
  ghost predicate Locks(s: State) {
    && |s.lock| == |s.stock|
    && (forall k :: 0 <= k < |s.shoppers| && Inside(s.shoppers[k].pc) ==>
          s.shoppers[k].pc.shop < |s.lock| && s.lock[s.shoppers[k].pc.shop] == Shopper(k))
    && (forall i :: 0 <= i < |s.lock| && s.lock[i].Shopper? ==>
          var k := s.lock[i].index;
          k < |s.shoppers| && Inside(s.shoppers[k].pc) && s.shoppers[k].pc.shop == i)
    && (LoaderInside(s.loader) ==> s.loader.shop < |s.lock| && s.lock[s.loader.shop] == Loader)
    && (forall i :: 0 <= i < |s.lock| && s.lock[i] == Loader ==> LoaderInside(s.loader) && s.loader.shop == i)
  }

  /** What a shopper has read from the shop it is inside is still true, and when it is about
      to leave, it leaves no goods behind. */
  ghost predicate LocalOk(pc: ShopperPc, stock: seq<int>) {
    && (pc.Subtract? ==> pc.shop < |stock| && stock[pc.shop] > 0)
    && (pc.Empty? ==> pc.shop < |stock| && stock[pc.shop] == pc.taken && pc.taken > 0)
    && (pc.Unlock? ==> pc.shop < |stock| && stock[pc.shop] == 0)
  }

  ghost predicate Locals(s: State) {
    && (forall k :: 0 <= k < |s.shoppers| ==> LocalOk(s.shoppers[k].pc, s.stock))
    && (s.loader.WriteStock? ==> s.loader.shop < |s.stock| && s.stock[s.loader.shop] == s.loader.read)
    && Loaded(s)
  }

  /** The loader about to leave a shop leaves at least its 200. */
  ghost predicate Loaded(s: State) {
    && (s.loader.UnlockLoaded? ==> s.loader.shop < |s.stock| && s.stock[s.loader.shop] >= 200)
    && s.visits == s.loads + (if s.loader.ReadStock? || s.loader.WriteStock? then 1 else 0)
  }

  ghost predicate InOrder(tried: seq<nat>, n: nat) {
    |tried| == n && forall j :: 0 <= j < n ==> tried[j] == j
  }

  /** The shops are tried one after the other, and a round ends early only when the
      shopper is satisfied. */
  ghost predicate RoundOk(me: ShopperState, shops: nat) {
    match me.pc
    case While => true
    case Try(i) => i <= shops && InOrder(me.tried, i)
    case Check(i) => InOrder(me.tried, i + 1)
    case Subtract(i) => InOrder(me.tried, i + 1)
    case Empty(i, _) => InOrder(me.tried, i + 1)
    case Unlock(i) => InOrder(me.tried, i + 1)
    case AfterUnlock(i) => i < shops && InOrder(me.tried, i + 1)
    case AfterFor => me.need <= 0 || InOrder(me.tried, shops)
    case Done => true
  }

  ghost predicate LoaderRoundOk(s: State) {
    match s.loader
    case Sleep => s.loaderTried == [] || InOrder(s.loaderTried, |s.stock|)
    case TryLoad(i) => i <= |s.stock| && InOrder(s.loaderTried, i)
    case ReadStock(i) => InOrder(s.loaderTried, i + 1)
    case WriteStock(i, _) => InOrder(s.loaderTried, i + 1)
    case UnlockLoaded(i) => InOrder(s.loaderTried, i + 1)
  }

  ghost predicate Rounds(s: State) {
    && (forall k :: 0 <= k < |s.shoppers| ==> RoundOk(s.shoppers[k], |s.stock|))
    && LoaderRoundOk(s)
  }

  ghost predicate NeedOk(me: ShopperState) {
    && me.need == me.initial - me.bought
    && me.bought >= 200 * me.purchases
    && (me.purchases == 0 ==> me.bought == 0)
    && (me.purchases > 0 ==> me.need + me.last > 0 && 200 * (me.purchases - 1) <= me.bought - me.last)
    && (me.pc.Try? || me.pc.Check? || me.pc.Subtract? ==> me.need > 0)
    && (me.pc.Empty? ==> me.last == me.pc.taken)
    && (me.pc.Done? ==> me.need <= 0)
  }

  /** Bought goods that the shop still shows. */
  function Pending(pc: ShopperPc): int {
    if pc.Empty? then pc.taken else 0
  }

  /** Goods that have left the shops for good. */
  ghost function Gone(shoppers: seq<ShopperState>): int {
    if shoppers == [] then 0
    else
      var me := shoppers[|shoppers| - 1];
      Gone(shoppers[..|shoppers| - 1]) + me.bought - Pending(me.pc)
  }

  ghost predicate Conserved(s: State) {
    Sum(s.stock) + Gone(s.shoppers) == s.initial + 200 * s.loads
  }

  ghost predicate Inv(s: State) {
    && Locks(s) && Locals(s) && StockShape(s.stock) && Conserved(s) && Rounds(s)
    && (forall k :: 0 <= k < |s.shoppers| ==> NeedOk(s.shoppers[k]))
  }

  lemma {:induction false} SumUpdate(xs: seq<int>, i: nat, x: int)
    requires i < |xs|
    ensures Sum(xs[i := x]) == Sum(xs) - xs[i] + x
  {
    var n := |xs| - 1;
    if i < n {
      SumUpdate(xs[..n], i, x);
      assert xs[i := x][..n] == xs[..n][i := x];
    } else {
      assert xs[i := x][..n] == xs[..n];
    }
  }

  lemma {:induction false} GoneUpdate(ss: seq<ShopperState>, k: nat, me: ShopperState)
    requires k < |ss|
    ensures Gone(ss[k := me]) == Gone(ss) - (ss[k].bought - Pending(ss[k].pc)) + (me.bought - Pending(me.pc))
  {
    var n := |ss| - 1;
    if k < n {
      GoneUpdate(ss[..n], k, me);
      assert ss[k := me][..n] == ss[..n][k := me];
    } else {
      assert ss[k := me][..n] == ss[..n];
    }
  }

  lemma {:induction false} NothingGone(ss: seq<ShopperState>)
    requires forall k :: 0 <= k < |ss| ==> ss[k].bought == 0 && Pending(ss[k].pc) == 0
    ensures Gone(ss) == 0
  {
    if ss != [] {
      NothingGone(ss[..|ss| - 1]);
    }
  }

  /** pthread_mutex_trylock succeeds on a free mutex only. */
  lemma TakeKeepsLocks(s: State, k: nat)
    requires Locks(s) && k < |s.shoppers| && s.shoppers[k].pc.Try?
    requires Open(s, s.shoppers[k].pc.shop) && s.lock[s.shoppers[k].pc.shop] == Nobody
    ensures Locks(DoShopper(s, k))
  {
  }

  lemma UnlockKeepsLocks(s: State, k: nat)
    requires Locks(s) && k < |s.shoppers| && s.shoppers[k].pc.Unlock?
    ensures Locks(DoShopper(s, k))
  {
  }

  /** Every other step leaves the mutexes alone and the shopper where it is. */
  lemma OtherStepKeepsLocks(s: State, k: nat)
    requires Locks(s) && k < |s.shoppers| && !s.shoppers[k].pc.Unlock?
    requires var pc := s.shoppers[k].pc; pc.Try? && Open(s, pc.shop) ==> s.lock[pc.shop] != Nobody
    ensures Locks(DoShopper(s, k))
  {
    var s', pc := DoShopper(s, k), s.shoppers[k].pc;
    assert s'.lock == s.lock && s'.loader == s.loader && |s'.stock| == |s.stock|;
    assert |s'.shoppers| == |s.shoppers| && forall j :: 0 <= j < |s.shoppers| && j != k ==> s'.shoppers[j] == s.shoppers[j];
    assert Inside(s'.shoppers[k].pc) <==> Inside(pc);
    assert Inside(pc) ==> s'.shoppers[k].pc.shop == pc.shop;
  }

  lemma ShopperKeepsLocks(s: State, k: nat)
    requires Locks(s) && k < |s.shoppers|
    ensures Locks(DoShopper(s, k))
  {
    var pc := s.shoppers[k].pc;
    if pc.Try? && Open(s, pc.shop) && s.lock[pc.shop] == Nobody {
      TakeKeepsLocks(s, k);
    } else if s.shoppers[k].pc.Unlock? {
      UnlockKeepsLocks(s, k);
    } else {
      OtherStepKeepsLocks(s, k);
    }
  }

  /** A step of one shopper changes the stock of the shop it is inside only. */
  lemma ShopperFrame(s: State, k: nat)
    requires Locks(s) && Enabled(s, ShopperStep(k))
    ensures var s', pc := DoShopper(s, k), s.shoppers[k].pc;
            && |s'.shoppers| == |s.shoppers|
            && (forall j :: 0 <= j < |s.shoppers| && j != k ==> s'.shoppers[j] == s.shoppers[j])
            && s'.stock == (if pc.Empty? then s.stock[pc.shop := 0] else s.stock)
            && s'.loader == s.loader && s'.loaderTried == s.loaderTried
            && s'.visits == s.visits && s'.loads == s.loads && s'.initial == s.initial
    ensures s.shoppers[k].pc.Empty? ==> s.shoppers[k].pc.shop < |s.stock|
  {
  }

  lemma OwnLocal(s: State, k: nat)
    requires Locks(s) && Enabled(s, ShopperStep(k))
    requires LocalOk(s.shoppers[k].pc, s.stock) && StockShape(s.stock)
    ensures LocalOk(DoShopper(s, k).shoppers[k].pc, DoShopper(s, k).stock)
  {
  }

  lemma ShopperKeepsLocals(s: State, k: nat)
    requires Inv(s) && Enabled(s, ShopperStep(k))
    ensures Locals(DoShopper(s, k)) && StockShape(DoShopper(s, k).stock)
  {
    var s', pc := DoShopper(s, k), s.shoppers[k].pc;
    ShopperFrame(s, k);
    forall j: nat | j < |s.shoppers|
      ensures LocalOk(s'.shoppers[j].pc, s'.stock)
    {
      if j == k {
        OwnLocal(s, k);
      } else {
        assert Inside(pc) && Inside(s.shoppers[j].pc) ==> s.shoppers[j].pc.shop != pc.shop;
        assert LocalOk(s.shoppers[j].pc, s.stock);
      }
    }
    assert Inside(pc) && LoaderInside(s.loader) ==> s.loader.shop != pc.shop;
  }

  lemma OwnNeed(s: State, k: nat)
    requires Locks(s) && Enabled(s, ShopperStep(k)) && NeedOk(s.shoppers[k])
    requires LocalOk(s.shoppers[k].pc, s.stock) && StockShape(s.stock)
    ensures NeedOk(DoShopper(s, k).shoppers[k])
  {
  }

  lemma ShopperKeepsNeeds(s: State, k: nat)
    requires Inv(s) && Enabled(s, ShopperStep(k))
    ensures forall j :: 0 <= j < |s.shoppers| ==> NeedOk(DoShopper(s, k).shoppers[j])
  {
    ShopperFrame(s, k);
    OwnNeed(s, k);
  }

  lemma ShopperConserves(s: State, k: nat)
    requires Inv(s) && Enabled(s, ShopperStep(k))
    ensures Conserved(DoShopper(s, k))
  {
    ShopperFrame(s, k);
    OwnGone(s, k);
    var me, pc := DoShopper(s, k).shoppers[k], s.shoppers[k].pc;
    GoneUpdate(s.shoppers, k, me);
    assert DoShopper(s, k).shoppers == s.shoppers[k := me];
    if pc.Empty? {
      SumUpdate(s.stock, pc.shop, 0);
    }
  }

  /** What a shopper has taken away for good changes only when it empties a shop. */
  lemma OwnGone(s: State, k: nat)
    requires Locks(s) && Enabled(s, ShopperStep(k))
    ensures var me, me' := s.shoppers[k], DoShopper(s, k).shoppers[k];
            me'.bought - Pending(me'.pc) == me.bought - Pending(me.pc) + (if me.pc.Empty? then me.pc.taken else 0)
  {
  }

  lemma LoaderKeepsLocks(s: State)
    requires Locks(s)
    ensures Locks(DoLoader(s))
  {
    if s.loader.TryLoad? {
      TryLoadKeepsLocks(s);
    } else if s.loader.UnlockLoaded? {
      UnlockLoadedKeepsLocks(s);
    } else {
      var s' := DoLoader(s);
      assert s'.lock == s.lock && s'.shoppers == s.shoppers && |s'.stock| == |s.stock|;
    }
  }

  lemma TryLoadKeepsLocks(s: State)
    requires Locks(s) && s.loader.TryLoad?
    ensures Locks(DoLoader(s))
  {
  }

  lemma UnlockLoadedKeepsLocks(s: State)
    requires Locks(s) && s.loader.UnlockLoaded?
    ensures Locks(DoLoader(s))
  {
  }

  /** The loader writes only the shop it holds, which no shopper is inside. */
  lemma LoaderKeepsLocals(s: State)
    requires Locks(s) && Locals(s) && StockShape(s.stock)
    ensures Locals(DoLoader(s)) && StockShape(DoLoader(s).stock)
  {
    if s.loader.WriteStock? {
      assert forall k :: 0 <= k < |s.shoppers| && Inside(s.shoppers[k].pc) ==>
          s.shoppers[k].pc.shop != s.loader.shop;
    }
  }

  lemma LoaderConserves(s: State)
    requires Locals(s) && Locks(s) && Conserved(s)
    ensures Conserved(DoLoader(s)) && DoLoader(s).shoppers == s.shoppers
  {
    if s.loader.WriteStock? {
      SumUpdate(s.stock, s.loader.shop, s.loader.read + 200);
    }
  }

  lemma OwnRound(s: State, k: nat)
    requires Locks(s) && Enabled(s, ShopperStep(k)) && RoundOk(s.shoppers[k], |s.stock|)
    ensures RoundOk(DoShopper(s, k).shoppers[k], |s.stock|)
  {
  }

  lemma ShopperKeepsRounds(s: State, k: nat)
    requires Locks(s) && Rounds(s) && Enabled(s, ShopperStep(k))
    ensures Rounds(DoShopper(s, k))
  {
    ShopperFrame(s, k);
    OwnRound(s, k);
  }

  lemma LoaderKeepsRounds(s: State)
    requires Locks(s) && Rounds(s)
    ensures Rounds(DoLoader(s))
  {
    assert |DoLoader(s).stock| == |s.stock| && DoLoader(s).shoppers == s.shoppers;
  }

  lemma StepKeepsInv(s: State, a: Action)
    requires Inv(s) && Enabled(s, a)
    ensures Inv(Do(s, a))
  {
    if a.ShopperStep? {
      ShopperKeepsLocks(s, a.k);
      ShopperKeepsLocals(s, a.k);
      ShopperKeepsNeeds(s, a.k);
      ShopperConserves(s, a.k);
      ShopperKeepsRounds(s, a.k);
    } else {
      LoaderKeepsLocks(s);
      LoaderKeepsLocals(s);
      LoaderConserves(s);
      LoaderKeepsRounds(s);
    }
  }

  lemma InitIsInv(s: State)
    requires Init(s)
    ensures Inv(s)
  {
    NothingGone(s.shoppers);
  }

  // ---------------------------------------------------------------------------
  // Runs

  /** A path of the system; a run is a path from an initial state. */
  ghost predicate Path(states: seq<State>, acts: seq<Action>) {
    && |states| == |acts| + 1
    && (forall i :: 0 <= i < |acts| ==> Enabled(states[i], acts[i]) && states[i + 1] == Do(states[i], acts[i]))
  }

  ghost predicate Run(states: seq<State>, acts: seq<Action>) {
    Path(states, acts) && Init(states[0])
  }

  lemma {:induction false} RunKeepsInv(states: seq<State>, acts: seq<Action>, i: nat)
    requires Run(states, acts) && i < |states|
    ensures Inv(states[i])
  {
    if i == 0 {
      InitIsInv(states[0]);
    } else {
      RunKeepsInv(states, acts, i - 1);
      StepKeepsInv(states[i - 1], acts[i - 1]);
    }
  }

  ghost function Bought(shoppers: seq<ShopperState>): int {
    if shoppers == [] then 0 else Bought(shoppers[..|shoppers| - 1]) + shoppers[|shoppers| - 1].bought
  }

  /** What shoppers between their two writes have taken from their need but not yet
      from the shop. */
  ghost function InTransit(shoppers: seq<ShopperState>): int {
    if shoppers == [] then 0 else InTransit(shoppers[..|shoppers| - 1]) + Pending(shoppers[|shoppers| - 1].pc)
  }

  lemma {:induction false} GoneIsBoughtLessTransit(ss: seq<ShopperState>)
    ensures Gone(ss) == Bought(ss) - InTransit(ss)
  {
    if ss != [] {
      GoneIsBoughtLessTransit(ss[..|ss| - 1]);
    }
  }

  /** In every interleaving goods are conserved: stock and purchases make up the first
      stock and 200 for each visit of the loader, the one it has not finished left out. */
  lemma GoodsAreConserved(states: seq<State>, acts: seq<Action>, i: nat)
    requires Run(states, acts) && i < |states|
    ensures var s := states[i];
            && Sum(s.stock) + Bought(s.shoppers) - InTransit(s.shoppers) == Sum(states[0].stock) + 200 * s.loads
            && s.loads == s.visits - (if s.loader.ReadStock? || s.loader.WriteStock? then 1 else 0)
  {
    RunKeepsInv(states, acts, i);
    GoneIsBoughtLessTransit(states[i].shoppers);
    InitialIsKept(states, acts, i);
  }

  lemma {:induction false} InitialIsKept(states: seq<State>, acts: seq<Action>, i: nat)
    requires Run(states, acts) && i < |states|
    ensures states[i].initial == Sum(states[0].stock)
    ensures |states[i].shoppers| == |states[0].shoppers|
    ensures forall k :: 0 <= k < |states[i].shoppers| ==>
              states[i].shoppers[k].initial == states[0].shoppers[k].need
  {
    if i > 0 {
      InitialIsKept(states, acts, i - 1);
    }
  }

  /** No two threads are ever inside the same shop. */
  lemma ShopsAreExclusive(states: seq<State>, acts: seq<Action>, i: nat)
    requires Run(states, acts) && i < |states|
    ensures var s := states[i];
            && (forall j, k :: 0 <= j < k < |s.shoppers| && Inside(s.shoppers[j].pc) && Inside(s.shoppers[k].pc) ==>
                  s.shoppers[j].pc.shop != s.shoppers[k].pc.shop)
            && (forall k :: 0 <= k < |s.shoppers| && Inside(s.shoppers[k].pc) && LoaderInside(s.loader) ==>
                  s.shoppers[k].pc.shop != s.loader.shop)
  {
    RunKeepsInv(states, acts, i);
  }

  /** A shopper buys a shop out: when it leaves one, nothing is left there; and when it ends
      a round unsatisfied it has tried every shop, in order. The loader tries them all, too. */
  lemma ShopsAreBoughtOut(states: seq<State>, acts: seq<Action>, i: nat)
    requires Run(states, acts) && i < |states|
    ensures var s := states[i];
            && (forall k :: 0 <= k < |s.shoppers| && s.shoppers[k].pc.Unlock? ==>
                  s.shoppers[k].pc.shop < |s.stock| && s.stock[s.shoppers[k].pc.shop] == 0)
            && (forall k :: 0 <= k < |s.shoppers| && s.shoppers[k].pc.AfterFor? && s.shoppers[k].need > 0 ==>
                  InOrder(s.shoppers[k].tried, |s.stock|))
            && (s.loader.Sleep? && s.loaderTried != [] ==> InOrder(s.loaderTried, |s.stock|))
  {
    RunKeepsInv(states, acts, i);
    forall k | 0 <= k < |states[i].shoppers| ensures RoundOk(states[i].shoppers[k], |states[i].stock|) {
    }
  }

  ghost predicate Occupied(s: State, shop: nat) {
    || (LoaderInside(s.loader) && s.loader.shop == shop)
    || exists j :: 0 <= j < |s.shoppers| && Inside(s.shoppers[j].pc) && s.shoppers[j].pc.shop == shop
  }

  /** A shop is passed by only because another thread is inside: whoever tries it when it
      is not occupied gets in. */
  lemma TryFailsOnlyIfOccupied(states: seq<State>, acts: seq<Action>, i: nat, shop: nat)
    requires Run(states, acts) && i < |acts| && shop < |states[i].stock|
    ensures var s, s' := states[i], states[i + 1];
            && (acts[i].ShopperStep? && s.shoppers[acts[i].k].pc == Try(shop) ==>
                  (s'.shoppers[acts[i].k].pc == Check(shop) <==> !Occupied(s, shop))
                  && (s'.shoppers[acts[i].k].pc == Try(shop + 1) <==> Occupied(s, shop)))
            && (acts[i].LoaderStep? && s.loader == TryLoad(shop) ==>
                  (s'.loader == ReadStock(shop) <==> !Occupied(s, shop))
                  && (s'.loader == TryLoad(shop + 1) <==> Occupied(s, shop)))
  {
    RunKeepsInv(states, acts, i);
    FreeIffNotOccupied(states[i], shop);
  }

  lemma FreeIffNotOccupied(s: State, shop: nat)
    requires Locks(s) && shop < |s.stock|
    ensures s.lock[shop] == Nobody <==> !Occupied(s, shop)
  {
    if s.lock[shop].Shopper? {
      assert Inside(s.shoppers[s.lock[shop].index].pc);
    }
  }

  /** ceil(need / 200). */
  function MostPurchases(need: int): int {
    (need + 199) / 200
  }

  /** Shop stock is 0 or at least 200, so a shopper buys at most ceil(need/200) times;
      it stops only when satisfied, and without its last purchase, the whole stock of
      one shop, it would not be. */
  lemma PurchasesAreBounded(states: seq<State>, acts: seq<Action>, i: nat, k: nat)
    requires Run(states, acts) && i < |states| && k < |states[i].shoppers|
    ensures |states[0].shoppers| == |states[i].shoppers|
    ensures var me, need := states[i].shoppers[k], states[0].shoppers[k].need;
            && me.need == need - me.bought
            && me.purchases <= (if need <= 0 then 0 else MostPurchases(need))
            && (me.pc.Done? ==> me.need <= 0)
            && (me.purchases > 0 ==> me.need + me.last > 0)
            && (me.pc.Empty? ==> me.pc.shop < |states[i].stock| && me.last == states[i].stock[me.pc.shop])
    ensures forall j :: 0 <= j < |states[i].stock| ==> states[i].stock[j] == 0 || states[i].stock[j] >= 200
  {
    RunKeepsInv(states, acts, i);
    InitialIsKept(states, acts, i);
    var me := states[i].shoppers[k];
    assert NeedOk(me);
    if me.purchases > 0 {
      assert 200 * (me.purchases - 1) < me.initial;
      CeilingBound(me.purchases, me.initial);
    }
  }

  lemma CeilingBound(p: int, need: int)
    requires 200 * (p - 1) < need
    ensures p <= MostPurchases(need)
  {
  }

  /** With the program's initial needs, 9100 to 9300, that is at most 47. */
  lemma FortySevenAtMost(states: seq<State>, acts: seq<Action>, i: nat, k: nat)
    requires Run(states, acts) && i < |states| && k < |states[i].shoppers|
    requires forall j :: 0 <= j < |states[0].shoppers| ==> 9100 <= states[0].shoppers[j].need <= 9300
    ensures states[i].shoppers[k].purchases <= 47
  {
    PurchasesAreBounded(states, acts, i, k);
  }

  // ---------------------------------------------------------------------------
  // Nobody is ever held up: trylock does not wait, and a round ends

  /** How many steps a shopper is at most from the end of its round. */
  function ShopperRank(pc: ShopperPc, shops: nat): int {
    match pc
    case While => 6 * shops + 3
    case Try(i) => 6 * (shops - i) + 2
    case Check(i) => 6 * (shops - i) + 1
    case Subtract(i) => 6 * (shops - i)
    case Empty(i, _) => 6 * (shops - i) - 1
    case Unlock(i) => 6 * (shops - i) - 2
    case AfterUnlock(i) => 6 * (shops - i) - 3
    case AfterFor => 1
    case Done => 0
  }

  function LoaderRank(pc: LoaderPc, shops: nat): int {
    match pc
    case Sleep => 0
    case TryLoad(i) => 5 * (shops - i) + 1
    case ReadStock(i) => 5 * (shops - i)
    case WriteStock(i, _) => 5 * (shops - i) - 1
    case UnlockLoaded(i) => 5 * (shops - i) - 2
  }

  /** Does the step begin a new round of shopper k? */
  predicate NewRound(s: State, s': State, k: nat) {
    k < |s.shoppers| == |s'.shoppers| && s.shoppers[k].pc.AfterFor? && s'.shoppers[k].pc.While?
  }

  predicate NewLoaderRound(s: State, s': State) {
    s.loader.Sleep? && s'.loader == TryLoad(0)
  }

  /** How many of the first n steps were shopper k's, since its round began. */
  ghost function StepsThisRound(states: seq<State>, acts: seq<Action>, k: nat, n: nat): nat
    requires n <= |acts| && n < |states|
  {
    if n == 0 || NewRound(states[n - 1], states[n], k) then 0
    else StepsThisRound(states, acts, k, n - 1) + One(acts[n - 1] == ShopperStep(k))
  }

  ghost function LoaderStepsThisRound(states: seq<State>, acts: seq<Action>, n: nat): nat
    requires n <= |acts| && n < |states|
  {
    if n == 0 || NewLoaderRound(states[n - 1], states[n]) then 0
    else LoaderStepsThisRound(states, acts, n - 1) + One(acts[n - 1] == LoaderStep)
  }

  function One(b: bool): nat {
    if b then 1 else 0
  }

  lemma OwnStepRank(s: State, k: nat)
    requires Locks(s) && Enabled(s, ShopperStep(k)) && RoundOk(s.shoppers[k], |s.stock|)
    ensures var s', shops := DoShopper(s, k), |s.stock|;
            && ShopperRank(s'.shoppers[k].pc, shops) <= 6 * shops + 3
            && (NewRound(s, s', k) || ShopperRank(s'.shoppers[k].pc, shops) < ShopperRank(s.shoppers[k].pc, shops))
  {
  }

  /** A step of shopper k lowers its rank, but for the one that begins a new round; other
      threads do not touch it. */
  lemma ShopperStepRank(s: State, a: Action, k: nat)
    requires Inv(s) && Enabled(s, a) && k < |s.shoppers|
    ensures var s', shops := Do(s, a), |s.stock|;
            && |s'.stock| == shops && |s'.shoppers| == |s.shoppers|
            && (if NewRound(s, s', k) then ShopperRank(s'.shoppers[k].pc, shops) <= 6 * shops + 3
                else ShopperRank(s'.shoppers[k].pc, shops) + One(a == ShopperStep(k))
                     <= ShopperRank(s.shoppers[k].pc, shops))
  {
    if a.ShopperStep? {
      ShopperFrame(s, a.k);
      assert RoundOk(s.shoppers[a.k], |s.stock|);
      OwnStepRank(s, a.k);
    }
  }

  lemma LoaderStepRank(s: State, a: Action)
    requires Inv(s) && Enabled(s, a)
    ensures var s', shops := Do(s, a), |s.stock|;
            if NewLoaderRound(s, s') then LoaderRank(s'.loader, shops) <= 5 * shops + 1
            else LoaderRank(s'.loader, shops) + One(a == LoaderStep) <= LoaderRank(s.loader, shops)
  {
    if a.ShopperStep? {
      ShopperFrame(s, a.k);
    }
  }

  lemma {:induction false} RanksAlongRun(states: seq<State>, acts: seq<Action>, k: nat, n: nat)
    requires Run(states, acts) && n <= |acts| && k < |states[0].shoppers|
    ensures |states[n].stock| == |states[0].stock| && |states[n].shoppers| == |states[0].shoppers|
    ensures StepsThisRound(states, acts, k, n) + ShopperRank(states[n].shoppers[k].pc, |states[0].stock|)
              <= 6 * |states[0].stock| + 3
    ensures LoaderStepsThisRound(states, acts, n) + LoaderRank(states[n].loader, |states[0].stock|)
              <= 5 * |states[0].stock| + 1
  {
    if n == 0 {
      assert states[0].shoppers[k].pc == While && states[0].loader == Sleep;
    } else {
      RanksAlongRun(states, acts, k, n - 1);
      RunKeepsInv(states, acts, n - 1);
      ShopperStepRank(states[n - 1], acts[n - 1], k);
      LoaderStepRank(states[n - 1], acts[n - 1]);
    }
  }

  /** Nobody is held up by the others: a shopper ends each of its rounds within 6S + 3 of its
      own steps, and the loader within 5S + 1, whatever the others do meanwhile. */
  lemma RoundsEnd(states: seq<State>, acts: seq<Action>, k: nat, n: nat)
    requires Run(states, acts) && n <= |acts| && k < |states[0].shoppers|
    ensures StepsThisRound(states, acts, k, n) <= 6 * |states[0].stock| + 3
    ensures LoaderStepsThisRound(states, acts, n) <= 5 * |states[0].stock| + 1
  {
    RanksAlongRun(states, acts, k, n);
    RunKeepsInv(states, acts, n);
    RanksArePositive(states[n], k);
  }

  lemma RanksArePositive(s: State, k: nat)
    requires Inv(s) && k < |s.shoppers|
    ensures ShopperRank(s.shoppers[k].pc, |s.stock|) >= 0 && LoaderRank(s.loader, |s.stock|) >= 0
  {
    assert RoundOk(s.shoppers[k], |s.stock|);
  }

  // ---------------------------------------------------------------------------
  // Setting up

  /** creat_shop; `random` stands for the results of rand(). */
  method CreatShop(product: array<int>, random: seq<nat>)
    requires |random| == product.Length
    modifies product
    ensures forall i :: 0 <= i < product.Length ==> product[i] == 900 + random[i] % 201
    ensures StockShape(product[..])
  {
    for i := 0 to product.Length
      invariant forall j :: 0 <= j < i ==> product[j] == 900 + random[j] % 201
    {
      product[i] := 900 + random[i] % 201;
    }
  }

  /** creat_shoppers. */
  method CreatShoppers(need: array<int>, random: seq<nat>)
    requires |random| == need.Length
    modifies need
    ensures forall i :: 0 <= i < need.Length ==> need[i] == 9100 + random[i] % 201 && need[i] <= 9300
  {
    for i := 0 to need.Length
      invariant forall j :: 0 <= j < i ==> need[j] == 9100 + random[j] % 201
    {
      need[i] := 9100 + random[i] % 201;
    }
  }
}
