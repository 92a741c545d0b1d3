/** The client table of the UDP echo server (SocketsEcho/server.c): an array with a
    count, linear search, append, and removal by shifting. It is proved to refine a map
    from addresses to counters, and the replies are characterised by the message
    history alone. */
module EchoTable {
  import opened Text

  const BUFFER_SIZE := 1024
  const CLIENT_SHUTDOWN := "CLIENT_SHUTDOWN"
  const FULL := "server history is full"

  datatype Key = Key(ip: nat, port: nat)

  datatype Client = Client(port: nat, ip: nat, number: int)

  type Table = seq<Client>

  function KeyOf(c: Client): Key {
    Key(c.ip, c.port)
  }

  // ---------------------------------------------------------------------------
  // The table as a value

  /** Index of the first client with that address, or the length. */
  function Find(t: Table, key: Key): (i: nat)
    ensures i <= |t|
    ensures i < |t| ==> KeyOf(t[i]) == key
    ensures forall j :: 0 <= j < i ==> KeyOf(t[j]) != key
  {
    if t == [] || KeyOf(t[0]) == key then 0 else 1 + Find(t[1..], key)
  }

  function Without(t: Table, key: Key): Table {
    var i := Find(t, key);
    if i < |t| then t[..i] + t[i + 1..] else t
  }

  /** snprintf into the response buffer cuts what does not fit before the NUL. */
  function Fit(s: string): string {
    if |s| < BUFFER_SIZE then s else s[..BUFFER_SIZE - 1]
  }

  datatype Request = Leave | Say(text: string)

  /** strcmp(buffer, CLIENT_SHUTDOWN) == 0 decides what a text is. */
  function Parse(text: string): Request {
    if text == CLIENT_SHUTDOWN then Leave else Say(text)
  }

  datatype Reply = Silence | TableFull | Echo(text: string, number: int)

  /** The bytes sent back, if any. */
  function Wire(reply: Reply): Option<string> {
    match reply
    case Silence => None
    case TableFull => Some(FULL)
    case Echo(text, number) => Some(Fit(text + " " + Decimal(number)))
  }

  /** One pass of the message loop. */
  function Handle(t: Table, max: nat, key: Key, request: Request): (r: (Table, Reply)) {
    match request
    case Leave => (Without(t, key), Silence)
    case Say(text) =>
      var i := Find(t, key);
      if i == |t| && |t| >= max then (t, TableFull)
      else
        var t1 := if i == |t| then t + [Client(key.port, key.ip, 1)] else t;
        (t1[i := t1[i].(number := t1[i].number + 1)], Echo(text, t1[i].number))
  }

  // ---------------------------------------------------------------------------
  // The program

  class History {
    const client: array<Client>
    var count: nat

    ghost predicate Valid()
      reads this
    {
      count <= client.Length
    }

    ghost function View(): Table
      requires Valid()
      reads this, client
    {
      client[..count]
    }

    constructor (maxHistory: nat)
      ensures Valid() && View() == [] && fresh(client) && client.Length == maxHistory
    {
      client := new Client[maxHistory](_ => Client(0, 0, 0));
      count := 0;
    }

    method FindClient(ip: nat, port: nat) returns (index: int)
      requires Valid()
      ensures index == (var i := Find(View(), Key(ip, port)); if i < count then i else -1)
    {
      for i := 0 to count
        invariant forall j :: 0 <= j < i ==> KeyOf(View()[j]) != Key(ip, port)
      {
        if client[i].ip == ip && client[i].port == port {
          FindIs(View(), Key(ip, port), i);
          return i;
        }
      }
      FindIs(View(), Key(ip, port), count);
      return -1;
    }

    method AddClient(ip: nat, port: nat) returns (index: int)
      requires Valid()
      modifies this, client
      ensures Valid()
      ensures if old(count) < client.Length
              then index == old(count) && View() == old(View()) + [Client(port, ip, 1)]
              else index == -1 && View() == old(View())
    {
      if count >= client.Length {
        return -1;
      }
      client[count] := Client(port, ip, 1);
      count := count + 1;
      return count - 1;
    }

    method RemoveClient(ip: nat, port: nat)
      requires Valid()
      modifies this, client
      ensures Valid() && View() == Without(old(View()), Key(ip, port))
    {
      var clientIndex := FindClient(ip, port);
      if clientIndex == -1 {
        return;
      }
      CloseGap(clientIndex);
    }

    /** The shifting loop of remove_client. */
    method CloseGap(clientIndex: nat)
      requires Valid() && clientIndex < count
      modifies this, client
      ensures Valid() && View() == old(View()[..clientIndex] + View()[clientIndex + 1..])
    {
      ghost var before := View();
      for i := clientIndex to count - 1
        invariant count == |before|
        invariant forall j :: 0 <= j < clientIndex ==> client[j] == before[j]
        invariant forall j :: clientIndex <= j < i ==> client[j] == before[j + 1]
        invariant forall j :: i <= j < count ==> client[j] == before[j]
      {
        client[i] := client[i + 1];
        assert client[i] == before[i + 1];
      }
      count := count - 1;
      assert View() == before[..clientIndex] + before[clientIndex + 1..];
    }

    /** The body of the message loop. The datagram stands in a zeroed buffer, so the text is
        what stands before its first NUL, or all of it when that leaves room for one. */
    method HandleMessage(ip: nat, port: nat, datagram: string) returns (reply: Option<string>)
      requires Valid() && |datagram| <= BUFFER_SIZE && |CStr(datagram)| < BUFFER_SIZE
      modifies this, client
      ensures Valid()
      ensures var (t, r) := Handle(old(View()), client.Length, Key(ip, port), Parse(CStr(datagram)));
              View() == t && reply == Wire(r)
    {
      ghost var before := View();
      var text := CStr(datagram);
      if text == CLIENT_SHUTDOWN {
        RemoveClient(ip, port);
        return None;
      }
      var clientIndex := FindClient(ip, port);
      if clientIndex == -1 {
        clientIndex := AddClient(ip, port);
        if clientIndex == -1 {
          return Some(FULL);
        }
      }
      ghost var t1 := View();
      var msgNumber := client[clientIndex].number;
      client[clientIndex] := client[clientIndex].(number := msgNumber + 1);
      assert View() == t1[clientIndex := t1[clientIndex].(number := msgNumber + 1)];
      return Some(Fit(text + " " + Decimal(msgNumber)));
    }
  }

  lemma FindIs(t: Table, key: Key, i: nat)
    requires i <= |t| && (i < |t| ==> KeyOf(t[i]) == key) && forall j :: 0 <= j < i ==> KeyOf(t[j]) != key
    ensures Find(t, key) == i
  {
  }

  // ---------------------------------------------------------------------------
  // Refinement of a map

  ghost predicate Distinct(t: Table) {
    forall i, j :: 0 <= i < j < |t| ==> KeyOf(t[i]) != KeyOf(t[j])
  }

  ghost function AsMap(t: Table): map<Key, int> {
    if t == [] then map[]
    else AsMap(t[..|t| - 1])[KeyOf(t[|t| - 1]) := t[|t| - 1].number]
  }

  function HandleInMap(m: map<Key, int>, max: nat, key: Key, request: Request): (map<Key, int>, Reply) {
    match request
    case Leave => (m - {key}, Silence)
    case Say(text) =>
      if key !in m && |m| >= max then (m, TableFull)
      else
        var n := if key in m then m[key] else 1;
        (m[key := n + 1], Echo(text, n))
  }

  ghost predicate Has(t: Table, k: Key) {
    exists i :: 0 <= i < |t| && KeyOf(t[i]) == k
  }

  /** m holds exactly the entries of t. */
  ghost predicate Matches(t: Table, m: map<Key, int>) {
    && (forall i :: 0 <= i < |t| ==> KeyOf(t[i]) in m && m[KeyOf(t[i])] == t[i].number)
    && (forall k :: k in m ==> Has(t, k))
  }

  lemma FindsIffHas(t: Table, k: Key)
    ensures Find(t, k) < |t| <==> Has(t, k)
  {
    if Find(t, k) < |t| {
      assert KeyOf(t[Find(t, k)]) == k;
    }
  }

  lemma MatchesSnoc(t: Table, m: map<Key, int>, c: Client)
    requires Matches(t, m) && KeyOf(c) !in m
    ensures Matches(t + [c], m[KeyOf(c) := c.number])
  {
    var u := t + [c];
    forall k | k in m[KeyOf(c) := c.number]
      ensures Has(u, k)
    {
      if k in m {
        var i :| 0 <= i < |t| && KeyOf(t[i]) == k;
        assert KeyOf(u[i]) == k;
      } else {
        assert KeyOf(u[|t|]) == k;
      }
    }
  }

  lemma {:induction false} AsMapMatches(t: Table)
    requires Distinct(t)
    ensures Matches(t, AsMap(t)) && |AsMap(t)| == |t|
  {
    if t != [] {
      var n := |t| - 1;
      AsMapMatches(t[..n]);
      assert !Has(t[..n], KeyOf(t[n]));
      MatchesSnoc(t[..n], AsMap(t[..n]), t[n]);
      assert t == t[..n] + [t[n]];
    }
  }

  lemma MatchingMapIsAsMap(t: Table, m: map<Key, int>)
    requires Distinct(t) && Matches(t, m)
    ensures AsMap(t) == m
  {
    AsMapMatches(t);
    forall k | k in m || k in AsMap(t)
      ensures k in m && k in AsMap(t) && AsMap(t)[k] == m[k]
    {
      var i :| 0 <= i < |t| && KeyOf(t[i]) == k;
    }
  }

  lemma RemovalMatches(t: Table, m: map<Key, int>, i: nat)
    requires Distinct(t) && Matches(t, m) && i < |t|
    ensures var u := t[..i] + t[i + 1..];
            Distinct(u) && Matches(u, m - {KeyOf(t[i])})
  {
    var u := t[..i] + t[i + 1..];
    assert forall j :: 0 <= j < |u| ==> u[j] == t[if j < i then j else j + 1];
    forall k | k in m - {KeyOf(t[i])}
      ensures Has(u, k)
    {
      var j :| 0 <= j < |t| && KeyOf(t[j]) == k;
      assert KeyOf(u[if j < i then j else j - 1]) == k;
    }
  }

  lemma RemovalIsRemoval(t: Table, i: nat)
    requires Distinct(t) && i < |t|
    ensures var u := t[..i] + t[i + 1..];
            Distinct(u) && AsMap(u) == AsMap(t) - {KeyOf(t[i])}
  {
    var u, m := t[..i] + t[i + 1..], AsMap(t);
    AsMapMatches(t);
    RemovalMatches(t, m, i);
    MatchingMapIsAsMap(u, m - {KeyOf(t[i])});
  }

  lemma WithoutIsRemoval(t: Table, key: Key)
    requires Distinct(t)
    ensures Distinct(Without(t, key)) && AsMap(Without(t, key)) == AsMap(t) - {key}
  {
    if Find(t, key) < |t| {
      RemovalIsRemoval(t, Find(t, key));
    } else {
      FoundIffInMap(t, key);
      assert AsMap(t) - {key} == AsMap(t);
    }
  }

  lemma CountedRefines(t: Table, i: nat)
    requires Distinct(t) && i < |t|
    ensures var u := t[i := t[i].(number := t[i].number + 1)];
            Distinct(u) && AsMap(u) == AsMap(t)[KeyOf(t[i]) := t[i].number + 1]
  {
    var u := t[i := t[i].(number := t[i].number + 1)];
    var m := AsMap(t)[KeyOf(t[i]) := t[i].number + 1];
    AsMapMatches(t);
    assert forall j :: 0 <= j < |u| ==> KeyOf(u[j]) == KeyOf(t[j]);
    forall k | k in m
      ensures Has(u, k)
    {
      var j :| 0 <= j < |t| && KeyOf(t[j]) == k;
      assert KeyOf(u[j]) == k;
    }
    MatchingMapIsAsMap(u, m);
  }

  lemma LookUp(t: Table, i: nat)
    requires Distinct(t) && i < |t|
    ensures KeyOf(t[i]) in AsMap(t) && AsMap(t)[KeyOf(t[i])] == t[i].number
  {
    AsMapMatches(t);
  }

  lemma FoundIffInMap(t: Table, key: Key)
    requires Distinct(t)
    ensures Find(t, key) < |t| <==> key in AsMap(t)
    ensures |AsMap(t)| == |t|
  {
    AsMapMatches(t);
    FindsIffHas(t, key);
  }

  /** Table u with reply r is what the map operation makes of table t. */
  ghost predicate Follows(t: Table, max: nat, key: Key, request: Request, u: Table, r: Reply) {
    && Distinct(u) && |u| <= max
    && (AsMap(u), r) == HandleInMap(AsMap(t), max, key, request)
  }

  lemma LeaveFollows(t: Table, max: nat, key: Key)
    requires Distinct(t) && |t| <= max
    ensures Follows(t, max, key, Leave, Without(t, key), Silence)
  {
    WithoutIsRemoval(t, key);
    WithoutShrinks(t, key);
  }

  lemma WithoutShrinks(t: Table, key: Key)
    ensures |Without(t, key)| <= |t|
  {
  }

  lemma FullFollows(t: Table, max: nat, key: Key, text: string)
    requires Distinct(t) && |t| == max && Find(t, key) == |t|
    ensures Follows(t, max, key, Say(text), t, TableFull)
  {
    FoundIffInMap(t, key);
  }

  lemma KnownFollows(t: Table, max: nat, i: nat, text: string)
    requires Distinct(t) && |t| <= max && i < |t|
    ensures Follows(t, max, KeyOf(t[i]), Say(text), t[i := t[i].(number := t[i].number + 1)], Echo(text, t[i].number))
  {
    LookUp(t, i);
    CountedRefines(t, i);
  }

  lemma NewFollows(t: Table, max: nat, key: Key, text: string)
    requires Distinct(t) && |t| < max && Find(t, key) == |t|
    ensures Follows(t, max, key, Say(text),
                    (t + [Client(key.port, key.ip, 1)])[|t| := Client(key.port, key.ip, 2)], Echo(text, 1))
  {
    FoundIffInMap(t, key);
    FindsIffHas(t, key);
    JoinRefines(t, key);
  }

  /** Whatever arrives, the array does what the map does, and keys stay distinct. */
  lemma HandleRefinesMap(t: Table, max: nat, key: Key, request: Request)
    requires Distinct(t) && |t| <= max
    ensures var (u, r) := Handle(t, max, key, request);
            Follows(t, max, key, request, u, r)
  {
    var i := Find(t, key);
    if request.Leave? {
      LeaveFollows(t, max, key);
    } else if i < |t| {
      KnownFollows(t, max, i, request.text);
    } else if |t| < max {
      NewFollows(t, max, key, request.text);
    } else {
      FullFollows(t, max, key, request.text);
    }
  }

  lemma JoinRefines(t: Table, key: Key)
    requires Distinct(t) && !Has(t, key)
    ensures var u := (t + [Client(key.port, key.ip, 1)])[|t| := Client(key.port, key.ip, 2)];
            Distinct(u) && AsMap(u) == AsMap(t)[key := 2]
  {
    var u := t + [Client(key.port, key.ip, 2)];
    assert u == (t + [Client(key.port, key.ip, 1)])[|t| := Client(key.port, key.ip, 2)];
    assert u[..|t|] == t;
    assert forall j :: 0 <= j < |t| ==> u[j] == t[j];
  }

  lemma OthersOfUpdate(t: Table, i: nat, mine: Client, key: Key)
    requires i < |t| && KeyOf(t[i]) == key && KeyOf(mine) == key
    ensures Others(t[i := mine], key) == Others(t, key)
  {
    OthersOfParts(t[..i], t[i], t[i + 1..], key);
    OthersOfParts(t[..i], mine, t[i + 1..], key);
    assert t == t[..i] + [t[i]] + t[i + 1..];
    assert t[i := mine] == t[..i] + [mine] + t[i + 1..];
  }

  lemma OthersWithout(a: Table, mine: Client, b: Table, key: Key)
    requires KeyOf(mine) == key
    ensures Others(a + [mine] + b, key) == Others(a + b, key)
  {
    OthersOfParts(a, mine, b, key);
    OthersOfConcat(a, b, key);
  }

  lemma OthersOfRemoval(t: Table, i: nat, key: Key)
    requires i < |t| && KeyOf(t[i]) == key
    ensures Others(t[..i] + t[i + 1..], key) == Others(t, key)
  {
    OthersWithout(t[..i], t[i], t[i + 1..], key);
    assert t == t[..i] + [t[i]] + t[i + 1..];
  }

  lemma OthersOfJoin(t: Table, key: Key)
    ensures Others(t + [Client(key.port, key.ip, 1)], key) == Others(t, key)
  {
    OthersOfParts(t, Client(key.port, key.ip, 1), [], key);
    assert t + [Client(key.port, key.ip, 1)] + [] == t + [Client(key.port, key.ip, 1)];
  }

  /** Whatever one client sends leaves the other clients' records and their order alone. */
  lemma OthersKeepRecordAndOrder(t: Table, max: nat, key: Key, request: Request)
    ensures Others(Handle(t, max, key, request).0, key) == Others(t, key)
  {
    var i := Find(t, key);
    if request.Leave? {
      if i < |t| {
        OthersOfRemoval(t, i, key);
      }
    } else if i < |t| {
      OthersOfUpdate(t, i, t[i].(number := t[i].number + 1), key);
    } else if |t| < max {
      OthersOfJoin(t, key);
      var t1 := t + [Client(key.port, key.ip, 1)];
      OthersOfUpdate(t1, i, t1[i].(number := 2), key);
    }
  }

  ghost function Other(c: Client, key: Key): Table {
    if KeyOf(c) == key then [] else [c]
  }

  ghost function Others(t: Table, key: Key): Table {
    if t == [] then [] else Other(t[0], key) + Others(t[1..], key)
  }

  lemma Regroup(x: Table, y: Table, z: Table)
    ensures x + (y + z) == x + y + z
  {
  }

  lemma {:induction false} OthersOfConcat(a: Table, b: Table, key: Key)
    ensures Others(a + b, key) == Others(a, key) + Others(b, key)
  {
    if a == [] {
      assert a + b == b;
    } else {
      OthersOfConcat(a[1..], b, key);
      assert (a + b)[1..] == a[1..] + b;
      Regroup(Other(a[0], key), Others(a[1..], key), Others(b, key));
    }
  }

  lemma OthersOfParts(a: Table, mine: Client, b: Table, key: Key)
    requires KeyOf(mine) == key
    ensures Others(a + [mine] + b, key) == Others(a, key) + Others(b, key)
  {
    var m := [mine];
    assert m[1..] == [];
    assert Others(m, key) == [] + [];
    OthersOfConcat(a, m, key);
    OthersOfConcat(a + m, b, key);
  }

  // ---------------------------------------------------------------------------
  // Replies from the history alone

  datatype Event = Event(key: Key, request: Request)

  function TableAfter(events: seq<Event>, max: nat): Table {
    if events == [] then []
    else
      var e := events[|events| - 1];
      Handle(TableAfter(events[..|events| - 1], max), max, e.key, e.request).0
  }

  function ReplyTo(events: seq<Event>, max: nat, e: Event): Reply {
    Handle(TableAfter(events, max), max, e.key, e.request).1
  }

  /** How many of its messages were accepted since the client last joined: counted from
      its last shutdown, leaving out those answered "history is full". */
  ghost function AcceptedSince(events: seq<Event>, max: nat, key: Key): nat {
    if events == [] then 0
    else
      var before, e := events[..|events| - 1], events[|events| - 1];
      if e.key != key then AcceptedSince(before, max, key)
      else if e.request.Leave? then 0
      else if AcceptedSince(before, max, key) == 0 && Members(before, max) >= max then 0
      else AcceptedSince(before, max, key) + 1
  }

  /** How many clients have joined and not left. */
  ghost function Members(events: seq<Event>, max: nat): nat {
    if events == [] then 0
    else
      var before, e := events[..|events| - 1], events[|events| - 1];
      var was, count := AcceptedSince(before, max, e.key) > 0, Members(before, max);
      if e.request.Leave? then (if was && count > 0 then count - 1 else count)
      else if was || count >= max then count
      else count + 1
  }

  ghost predicate Agrees(m: map<Key, int>, events: seq<Event>, max: nat) {
    && |m| == Members(events, max)
    && forall key :: (key in m <==> AcceptedSince(events, max, key) > 0)
                     && (key in m ==> m[key] == 1 + AcceptedSince(events, max, key))
  }

  lemma AgreesAfter(m: map<Key, int>, events: seq<Event>, max: nat)
    requires events != [] && Agrees(m, events[..|events| - 1], max)
    ensures var e := events[|events| - 1];
            Agrees(HandleInMap(m, max, e.key, e.request).0, events, max)
  {
    var e := events[|events| - 1];
    SizeAfter(m, max, e.key, e.request);
  }

  lemma {:induction false} TableAgreesWithHistory(events: seq<Event>, max: nat)
    ensures Distinct(TableAfter(events, max)) && |TableAfter(events, max)| <= max
    ensures |TableAfter(events, max)| == Members(events, max)
    ensures Agrees(AsMap(TableAfter(events, max)), events, max)
  {
    if events != [] {
      var before, e := events[..|events| - 1], events[|events| - 1];
      TableAgreesWithHistory(before, max);
      HandleRefinesMap(TableAfter(before, max), max, e.key, e.request);
      AgreesAfter(AsMap(TableAfter(before, max)), events, max);
      AsMapMatches(TableAfter(events, max));
    }
  }

  lemma SizeWithout(m: map<Key, int>, key: Key)
    requires key in m
    ensures |m - {key}| == |m| - 1
  {
    assert m.Keys == (m - {key}).Keys + {key};
    assert |(m - {key}).Keys| == |m.Keys| - 1;
  }

  lemma SizeWith(m: map<Key, int>, key: Key)
    requires key !in m
    ensures |m[key := 2]| == |m| + 1
  {
    assert m[key := 2].Keys == m.Keys + {key};
    assert |m[key := 2].Keys| == |m.Keys| + 1;
  }

  lemma SizeAfter(m: map<Key, int>, max: nat, key: Key, request: Request)
    ensures var m' := HandleInMap(m, max, key, request).0;
            |m'| == if request.Leave? then (if key in m then |m| - 1 else |m|)
                    else if key in m || |m| >= max then |m| else |m| + 1
  {
    if key in m {
      SizeWithout(m, key);
      assert m[key := m[key] + 1].Keys == m.Keys;
      assert |m[key := m[key] + 1].Keys| == |m.Keys|;
    } else {
      assert m - {key} == m;
      SizeWith(m, key);
    }
  }

  /** Under any message sequence: a shutdown is not answered; a client that has not
      joined is turned away exactly when the table is full; any other message is echoed
      with 1 plus the number of that client's messages accepted since it joined. */
  lemma RepliesFollowHistory(events: seq<Event>, max: nat, e: Event)
    ensures ReplyTo(events, max, e) ==
            if e.request.Leave? then Silence
            else if AcceptedSince(events, max, e.key) == 0 && Members(events, max) >= max then TableFull
            else Echo(e.request.text, 1 + AcceptedSince(events, max, e.key))
    ensures Members(events, max) <= max
  {
    TableAgreesWithHistory(events, max);
    HandleRefinesMap(TableAfter(events, max), max, e.key, e.request);
  }

  /** The echo goes out whole, its number included, exactly when it fits the buffer. */
  lemma EchoIsWholeIff(text: string, number: int)
    ensures Wire(Echo(text, number)) == Some(text + " " + Decimal(number))
       <==> |text| + 1 + |Decimal(number)| < BUFFER_SIZE
  {
    assert |text + " " + Decimal(number)| == |text| + 1 + |Decimal(number)|;
  }

  /** Which text takes its sender off the table: that one, and no other. */
  lemma WhichTextLeaves(text: string)
    ensures Parse(text) == if text == "CLIENT_SHUTDOWN" then Leave else Say(text)
  {
  }

  /** What goes out: nothing to who leaves, that text to who finds the table full, and to
      everyone else the text and the number, or as much of that as fits 1023 characters. */
  lemma WhatIsSent(text: string, number: int)
    ensures Wire(Silence) == None
    ensures Wire(TableFull) == Some("server history is full")
    ensures Wire(Echo(text, number)).Some?
    ensures var sent, whole := Wire(Echo(text, number)).value, text + " " + Decimal(number);
            sent <= whole && |sent| == if |whole| <= 1023 then |whole| else 1023
  {
  }
}
