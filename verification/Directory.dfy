/** The subscriber directory of AbonentList/: a doubly linked list on the heap with
    head, tail and count, proved to be a sequence of entries. */
module Directory {
  import opened Text

  const MAX_STR := 10
  const MAX_NUMBER := 12

  /** What a subscriber's three fixed-size buffers say. */
  datatype Entry = Entry(name: string, secondName: string, tel: string)

  /** A buffer that holds a C string: somewhere in it there is a NUL. */
  type Buffer = b: string | |CStr(b)| < |b| witness ['\0']

  function Cut(text: string, size: nat): string {
    if |text| < size then text else if size == 0 then "" else text[..size - 1]
  }

  function Stored(name: string, secondName: string, tel: string): Entry {
    Entry(Cut(CStr(name), MAX_STR), Cut(CStr(secondName), MAX_STR), Cut(CStr(tel), MAX_NUMBER))
  }

  /** s is the longest prefix of the text that fits a buffer of that size with its NUL. */
  ghost predicate FitsBest(s: string, text: string, size: nat) {
    && |s| < size && s <= text
    && forall longer: string :: longer <= text && |longer| < size ==> |longer| <= |s|
  }

  /** Which text stands where: up to 9 characters of the name in the name, up to 9 of the
      second name in the second name, up to 11 of the telephone number in the number. */
  lemma StoredFields(name: string, secondName: string, tel: string)
    ensures FitsBest(Stored(name, secondName, tel).name, CStr(name), 10)
    ensures FitsBest(Stored(name, secondName, tel).secondName, CStr(secondName), 10)
    ensures FitsBest(Stored(name, secondName, tel).tel, CStr(tel), 12)
  {
  }

  /** my_strncpy: at most size - 1 characters, then a NUL. */
  method MyStrncpy(target: array<char>, source: Buffer, size: nat)
    requires 1 <= size <= target.Length
    modifies target
    ensures CStr(target[..]) == Cut(CStr(source), size) && |CStr(target[..])| < target.Length
  {
    var i := 0;
    while i < size - 1 && source[i] != '\0'
      invariant 0 <= i <= size - 1 && i <= |CStr(source)|
      invariant target[..i] == source[..i] == CStr(source)[..i]
    {
      target[i] := source[i];
      i := i + 1;
    }
    target[i] := '\0';
    CStrTerminated(CStr(source)[..i], target[i + 1..]);
    assert target[..] == CStr(source)[..i] + ['\0'] + target[i + 1..];
  }

  /** my_strcmp, None for NULL: 0 exactly for two equal C strings. */
  method MyStrcmp(p: Option<Buffer>, q: Option<Buffer>) returns (r: int)
    ensures r == 0 <==> p.Some? && q.Some? && CStr(p.value) == CStr(q.value)
  {
    if p == None || q == None {
      return 1;
    }
    var str1, str2 := p.value, q.value;
    var i := 0;
    while str1[i] != '\0' || str2[i] != '\0'
      invariant 0 <= i <= |CStr(str1)| && i <= |CStr(str2)|
      invariant CStr(str1)[..i] == CStr(str2)[..i]
      decreases |str1| - i
    {
      if str1[i] != str2[i] {
        return 1;
      }
      i := i + 1;
    }
    return 0;
  }

  class Abonent {
    /** The three buffers; nothing writes them after create_abonent. */
    const name: Buffer
    const secondName: Buffer
    const tel: Buffer
    var next: Abonent?
    var prev: Abonent?
    /** Has the node been given back with free? */
    ghost var freed: bool

    /** Reading a link of a node that is still allocated. */
    function Next(): Abonent?
      requires !freed
      reads this
    {
      next
    }

    function Prev(): Abonent?
      requires !freed
      reads this
    {
      prev
    }

    /** free: once only. */
    ghost method Free()
      requires !freed
      modifies this`freed
      ensures freed
    {
      freed := true;
    }

    function Says(): Entry {
      Entry(CStr(name), CStr(secondName), CStr(tel))
    }

    /** create_abonent, once malloc has succeeded. */
    constructor (name: Buffer, secondName: Buffer, tel: Buffer)
      ensures Says() == Stored(name, secondName, tel)
      ensures next == null && prev == null && !freed
    {
      var buffer1, buffer2, buffer3 := new char[MAX_STR], new char[MAX_STR], new char[MAX_NUMBER];
      MyStrncpy(buffer1, name, MAX_STR);
      MyStrncpy(buffer2, secondName, MAX_STR);
      MyStrncpy(buffer3, tel, MAX_NUMBER);
      this.name, this.secondName, this.tel := buffer1[..], buffer2[..], buffer3[..];
      next, prev, freed := null, null, false;
    }
  }

  // ---------------------------------------------------------------------------
  // The list as a sequence

  /** What the nodes say, in order. */
  function Entries(nodes: seq<Abonent>): seq<Entry> {
    seq(|nodes|, i requires 0 <= i < |nodes| => nodes[i].Says())
  }

  function Without<T>(s: seq<T>, i: nat): seq<T> {
    if i < |s| then s[..i] + s[i + 1..] else s
  }

  predicate IsMatch(e: Entry, name: string, secondName: string) {
    e.name == name && e.secondName == secondName
  }

  /** Index of the first entry with both names, or the length. */
  function FirstMatch(es: seq<Entry>, name: string, secondName: string): (i: nat)
    ensures i <= |es|
    ensures i < |es| ==> es[i].name == name && es[i].secondName == secondName
    ensures forall j :: 0 <= j < i ==> es[j].name != name || es[j].secondName != secondName
  {
    if es == [] || IsMatch(es[0], name, secondName) then 0 else 1 + FirstMatch(es[1..], name, secondName)
  }

  lemma FirstMatchIs(es: seq<Entry>, name: string, secondName: string, i: nat)
    requires i <= |es|
    requires i < |es| ==> IsMatch(es[i], name, secondName)
    requires forall j :: 0 <= j < i ==> !IsMatch(es[j], name, secondName)
    ensures FirstMatch(es, name, secondName) == i
  {
  }

  function Named(es: seq<Entry>, name: string): seq<Entry> {
    if es == [] then []
    else Named(es[..|es| - 1], name) + (if es[|es| - 1].name == name then [es[|es| - 1]] else [])
  }

  function Reversed(es: seq<Entry>): seq<Entry> {
    if es == [] then [] else [es[|es| - 1]] + Reversed(es[..|es| - 1])
  }

  /** Node i of the list, null beyond either end. */
  ghost function At(nodes: seq<Abonent>, i: int): Abonent? {
    if 0 <= i < |nodes| then nodes[i] else null
  }

  ghost predicate Distinct(nodes: seq<Abonent>) {
    forall i, j :: 0 <= i < j < |nodes| ==> nodes[i] != nodes[j]
  }

  /** Node i is linked to its neighbours on both sides. */
  ghost predicate Placed(nodes: seq<Abonent>, i: nat)
    requires i < |nodes|
    reads nodes`next, nodes`prev
  {
    nodes[i].next == At(nodes, i + 1) && nodes[i].prev == At(nodes, i - 1)
  }

  /** The same, passing over node i. */
  ghost predicate Bridged(nodes: seq<Abonent>, i: nat, k: nat)
    requires k < |nodes|
    reads nodes`next, nodes`prev
  {
    && nodes[k].next == At(nodes, if k + 1 == i then i + 1 else k + 1)
    && nodes[k].prev == At(nodes, if k - 1 == i then i - 1 else k - 1)
  }

  ghost predicate Linked(nodes: seq<Abonent>)
    reads nodes`next, nodes`prev
  {
    forall i :: 0 <= i < |nodes| ==> Placed(nodes, i)
  }

  ghost predicate Allocated(nodes: seq<Abonent>)
    reads nodes`freed
  {
    forall n :: n in nodes ==> !n.freed
  }

  lemma BridgedIsPlaced(nodes: seq<Abonent>, i: nat, k: nat)
    requires i < |nodes| && k < |nodes| - 1 && Bridged(nodes, i, if k < i then k else k + 1)
    ensures Placed(Without(nodes, i), k)
  {
  }

  lemma WithoutNode(nodes: seq<Abonent>, i: nat)
    requires i < |nodes| && Distinct(nodes)
    ensures Distinct(Without(nodes, i)) && nodes[i] !in Without(nodes, i)
    ensures |Without(nodes, i)| == |nodes| - 1
    ensures forall k :: 0 <= k < |nodes| - 1 ==> Without(nodes, i)[k] == nodes[if k < i then k else k + 1]
    ensures Entries(Without(nodes, i)) == Without(Entries(nodes), i)
  {
    assert Entries(Without(nodes, i)) == Without(Entries(nodes), i);
  }

  /** Passing over node i leaves a well linked list of the others. */
  lemma Shorten(nodes: seq<Abonent>, i: nat, shorter: seq<Abonent>)
    requires i < |nodes| && Distinct(nodes) && shorter == Without(nodes, i)
    requires forall k :: 0 <= k < |nodes| && k != i ==> Bridged(nodes, i, k)
    ensures Linked(shorter) && Distinct(shorter) && |shorter| == |nodes| - 1
    ensures forall n :: n in nodes <==> n in shorter || n == nodes[i]
    ensures nodes[i] !in shorter
    ensures At(shorter, 0) == At(nodes, if i == 0 then 1 else 0)
    ensures At(shorter, |shorter| - 1) == At(nodes, if i == |nodes| - 1 then i - 1 else |nodes| - 1)
  {
    WithoutNode(nodes, i);
    forall k | 0 <= k < |shorter| ensures Placed(shorter, k) {
      BridgedIsPlaced(nodes, i, k);
    }
    assert nodes == nodes[..i] + [nodes[i]] + nodes[i + 1..];
  }

  class Abonents {
    var head: Abonent?
    var tail: Abonent?
    var count: int
    /** The nodes from head to tail. */
    ghost var nodes: seq<Abonent>

    ghost predicate Valid()
      reads this, nodes
    {
      && count == |nodes| && Distinct(nodes)
      && head == At(nodes, 0) && tail == At(nodes, |nodes| - 1)
      && Linked(nodes) && Allocated(nodes)
    }

    constructor ()
      ensures Valid() && nodes == []
    {
      head, tail, count := null, null, 0;
      nodes := [];
    }

    /** add_abonent; `outOfMemory` is malloc returning NULL. */
    method Add(name: Buffer, secondName: Buffer, tel: Buffer, outOfMemory: bool)
      requires Valid()
      modifies this, nodes
      ensures Valid()
      ensures Entries(nodes) == Entries(old(nodes)) + (if outOfMemory then [] else [Stored(name, secondName, tel)])
      ensures if outOfMemory then nodes == old(nodes)
              else |nodes| == |old(nodes)| + 1 && nodes[..|nodes| - 1] == old(nodes) && fresh(nodes[|nodes| - 1])
    {
      if outOfMemory {
        return;
      }
      var newAbonent := new Abonent(name, secondName, tel);
      Append(newAbonent);
      assert Entries(nodes) == Entries(old(nodes)) + [newAbonent.Says()];
    }

    /** The linking in add_abonent. */
    method Append(newAbonent: Abonent)
      requires Valid() && newAbonent !in nodes && newAbonent.next == null && newAbonent.prev == null
      requires !newAbonent.freed
      modifies this, nodes`next, newAbonent`prev
      ensures Valid() && nodes == old(nodes) + [newAbonent]
    {
      if head == null {
        head := newAbonent;
        tail := newAbonent;
      } else {
        tail.next := newAbonent;
        newAbonent.prev := tail;
        tail := newAbonent;
      }
      count := count + 1;
      ghost var n := |nodes|;
      nodes := nodes + [newAbonent];
      forall i | 0 <= i <= n ensures Placed(nodes, i) {
        if i < n {
          assert old(Placed(nodes, i));
        }
      }
    }

    /** The search loop of delete_abonent. */
    method Locate(name: Buffer, secondName: Buffer) returns (current: Abonent?, ghost i: nat)
      requires Valid()
      ensures i == FirstMatch(Entries(nodes), CStr(name), CStr(secondName))
      ensures current == At(nodes, FirstMatch(Entries(nodes), CStr(name), CStr(secondName)))
    {
      current, i := head, 0;
      while current != null
        invariant i <= |nodes| && current == At(nodes, i)
        invariant forall j :: 0 <= j < i ==> !IsMatch(Entries(nodes)[j], CStr(name), CStr(secondName))
        decreases |nodes| - i
      {
        var same1 := MyStrcmp(Some(current.name), Some(name));
        var same2 := MyStrcmp(Some(current.secondName), Some(secondName));
        if same1 == 0 && same2 == 0 {
          break;
        }
        assert Placed(nodes, i);
        current, i := current.Next(), i + 1;
      }
      FirstMatchIs(Entries(nodes), CStr(name), CStr(secondName), i);
    }

    /** The pointer updates in delete_abonent: the neighbours of node i are joined. */
    method Bypass(current: Abonent, ghost i: nat)
      requires Valid() && i < |nodes| && current == nodes[i]
      modifies this`head, this`tail, nodes`next, nodes`prev
      ensures forall k :: 0 <= k < |nodes| && k != i ==> Bridged(nodes, i, k)
      ensures head == At(nodes, if i == 0 then 1 else 0)
      ensures tail == At(nodes, if i == |nodes| - 1 then i - 1 else |nodes| - 1)
    {
      assert Placed(nodes, i);
      SkipForwards(current, i);
      SkipBackwards(current, i);
      forall k | 0 <= k < |nodes| && k != i ensures Bridged(nodes, i, k) {
        assert old(Placed(nodes, k));
      }
    }

    method SkipForwards(current: Abonent, ghost i: nat)
      requires Distinct(nodes) && i < |nodes| && current == nodes[i] && current.prev == At(nodes, i - 1)
      requires !current.freed
      modifies this`head, nodes`next
      ensures forall k :: 0 <= k < |nodes| ==> nodes[k].next == old(if k == i - 1 then current.next else nodes[k].next)
      ensures head == if i == 0 then old(current.next) else old(head)
    {
      if current.Prev() != null {
        current.Prev().next := current.Next();
      } else {
        head := current.Next();
      }
    }

    method SkipBackwards(current: Abonent, ghost i: nat)
      requires Distinct(nodes) && i < |nodes| && current == nodes[i] && current.next == At(nodes, i + 1)
      requires !current.freed
      modifies this`tail, nodes`prev
      ensures forall k :: 0 <= k < |nodes| ==> nodes[k].prev == old(if k == i + 1 then current.prev else nodes[k].prev)
      ensures tail == if i == |nodes| - 1 then old(current.prev) else old(tail)
    {
      if current.Next() != null {
        current.Next().prev := current.Prev();
      } else {
        tail := current.Prev();
      }
    }

    /** The unlinking in delete_abonent: node i leaves the list and is freed. */
    method Unlink(current: Abonent, ghost i: nat)
      requires Valid() && i < |nodes| && current == nodes[i]
      modifies this, nodes
      ensures Valid() && nodes == Without(old(nodes), i)
      ensures forall n :: n in old(nodes) ==> (n.freed <==> n == current)
    {
      ghost var shorter := Without(nodes, i);
      Bypass(current, i);
      Shorten(nodes, i, shorter);
      current.Free();
      count := count - 1;
      nodes := shorter;
    }

    /** delete_abonent: the first entry with both names, and only that one, whose node is
        freed and no other. */
    method Delete(name: Buffer, secondName: Buffer) returns (deleted: bool)
      requires Valid()
      modifies this, nodes
      ensures Valid()
      ensures var i := FirstMatch(Entries(old(nodes)), CStr(name), CStr(secondName));
              && deleted == (i < |old(nodes)|)
              && nodes == Without(old(nodes), i) && Entries(nodes) == Without(Entries(old(nodes)), i)
              && forall n :: n in old(nodes) ==> (n.freed <==> deleted && n == old(nodes)[i])
    {
      if count == 0 {
        return false;
      }
      var current, i := Locate(name, secondName);
      if current == null {
        return false;
      }
      WithoutNode(nodes, i);
      Unlink(current, i);
      return true;
    }

    /** clear_directory: `order` lists the nodes as they are freed. Next and Free demand a
        node that is still allocated, so no link is read after the free, and none is freed twice. */
    method Clear() returns (ghost order: seq<Abonent>)
      requires Valid()
      modifies this, nodes`freed
      ensures Valid() && nodes == [] && count == 0 && head == null && tail == null
      ensures order == old(nodes) && forall n :: n in order ==> n.freed
    {
      var current := head;
      order := [];
      while current != null
        invariant unchanged(this) && |order| <= |nodes| && current == At(nodes, |order|)
        invariant order == nodes[..|order|]
        invariant Linked(nodes) && forall n :: n in nodes ==> (n.freed <==> n in order)
        decreases |nodes| - |order|
      {
        assert Placed(nodes, |order|);
        var next := current.Next();
        current.Free();
        order := order + [current];
        current := next;
      }
      head, tail, count := null, null, 0;
      nodes := [];
    }

    /** display_all: the rows it prints. */
    method DisplayAll() returns (rows: seq<Entry>)
      requires Valid()
      ensures rows == Entries(nodes)
    {
      rows := [];
      if count == 0 {
        return;
      }
      var current, i := head, 0;
      while current != null
        invariant 0 <= i <= |nodes| && current == At(nodes, i)
        invariant rows == Entries(nodes)[..i]
        decreases |nodes| - i
      {
        assert Placed(nodes, i);
        rows := rows + [current.Says()];
        current := current.Next();
        i := i + 1;
      }
    }

    /** display_all_reverse. */
    method DisplayAllReverse() returns (rows: seq<Entry>)
      requires Valid()
      ensures rows == Reversed(Entries(nodes))
    {
      rows := [];
      if count == 0 {
        return;
      }
      var current, i := tail, 0;
      ghost var mirror := Reversed(Entries(nodes));
      ReversedMirrors(Entries(nodes));
      while current != null
        invariant 0 <= i <= |nodes| && current == At(nodes, |nodes| - 1 - i)
        invariant rows == mirror[..i]
        decreases |nodes| - i
      {
        assert Placed(nodes, |nodes| - 1 - i);
        rows := rows + [current.Says()];
        current := current.Prev();
        i := i + 1;
      }
    }

    /** search_by_name: the rows found, in list order. */
    method SearchByName(name: Buffer) returns (rows: seq<Entry>)
      requires Valid()
      ensures rows == Named(Entries(nodes), CStr(name))
    {
      rows := [];
      if count == 0 {
        return;
      }
      var current := head;
      ghost var i, es := 0, Entries(nodes);
      while current != null
        invariant 0 <= i <= |nodes| && current == At(nodes, i)
        invariant rows == Named(es[..i], CStr(name))
        decreases |nodes| - i
      {
        assert Placed(nodes, i);
        NamedStep(es, i, CStr(name));
        var same := MyStrcmp(Some(current.name), Some(name));
        if same == 0 {
          rows := rows + [current.Says()];
        }
        current := current.Next();
        i := i + 1;
      }
      assert es[..i] == es;
    }
  }

  // ---------------------------------------------------------------------------
  // Whole sessions of main's menu loop

  /** The choices that change the directory; `outOfMemory` is malloc returning NULL. */
  datatype Choice =
    | AddIt(name: Buffer, secondName: Buffer, tel: Buffer, outOfMemory: bool)
    | DeleteIt(name: Buffer, secondName: Buffer)
    | ClearIt

  function AfterChoice(es: seq<Entry>, c: Choice): seq<Entry> {
    match c
    case AddIt(name, secondName, tel, outOfMemory) =>
      if outOfMemory then es else es + [Stored(name, secondName, tel)]
    case DeleteIt(name, secondName) => Without(es, FirstMatch(es, CStr(name), CStr(secondName)))
    case ClearIt => []
  }

  function After(choices: seq<Choice>): seq<Entry> {
    if choices == [] then [] else AfterChoice(After(choices[..|choices| - 1]), choices[|choices| - 1])
  }

  /** One turn of the menu loop. */
  method Choose(abs: Abonents, c: Choice)
    requires abs.Valid()
    modifies abs, abs.nodes
    ensures abs.Valid() && Entries(abs.nodes) == AfterChoice(Entries(old(abs.nodes)), c)
    ensures forall n :: n in abs.nodes ==> n in old(abs.nodes) || fresh(n)
  {
    match c {
      case AddIt(name, secondName, tel, outOfMemory) =>
        abs.Add(name, secondName, tel, outOfMemory);
      case DeleteIt(name, secondName) =>
        var _ := abs.Delete(name, secondName);
      case ClearIt =>
        ghost var _ := abs.Clear();
    }
  }

  /** Any run of add, delete and clear, from the empty directory. */
  method Session(choices: seq<Choice>) returns (abs: Abonents)
    ensures abs.Valid() && Entries(abs.nodes) == After(choices)
  {
    abs := new Abonents();
    for n := 0 to |choices|
      invariant fresh(abs) && abs.Valid() && fresh(set x | x in abs.nodes)
      invariant Entries(abs.nodes) == After(choices[..n])
    {
      assert choices[..n + 1][..n] == choices[..n];
      Choose(abs, choices[n]);
    }
    assert choices[..|choices|] == choices;
  }

  lemma NamedStep(es: seq<Entry>, i: nat, name: string)
    requires i < |es|
    ensures Named(es[..i + 1], name) == Named(es[..i], name) + if es[i].name == name then [es[i]] else []
  {
    assert es[..i + 1][..i] == es[..i];
  }

  // ---------------------------------------------------------------------------
  // What the entries mean

  /** Backwards is the mirror image of forwards. */
  lemma {:induction false} ReversedMirrors(es: seq<Entry>)
    ensures |Reversed(es)| == |es|
    ensures forall i :: 0 <= i < |es| ==> Reversed(es)[i] == es[|es| - 1 - i]
  {
    if es != [] {
      ReversedMirrors(es[..|es| - 1]);
    }
  }

  /** search_by_name keeps exactly the entries with that name. */
  lemma {:induction false} NamedKeepsThose(es: seq<Entry>, name: string)
    ensures forall e :: e in Named(es, name) <==> e in es && e.name == name
    ensures multiset(Named(es, name)) <= multiset(es)
  {
    if es != [] {
      var n := |es| - 1;
      NamedKeepsThose(es[..n], name);
      assert es == es[..n] + [es[n]];
    }
  }

  /** And in list order: the search of a list is that of its parts, one after the other. */
  lemma {:induction false} NamedOfConcat(a: seq<Entry>, b: seq<Entry>, name: string)
    ensures Named(a + b, name) == Named(a, name) + Named(b, name)
  {
    if b == [] {
      assert a + b == a;
    } else {
      var n := |b| - 1;
      NamedOfConcat(a, b[..n], name);
      assert (a + b)[..|a + b| - 1] == a + b[..n];
    }
  }

  /** The entries that do, or do not, carry both names. */
  function Matching(es: seq<Entry>, name: string, secondName: string, wanted: bool): seq<Entry> {
    if es == [] then []
    else (if IsMatch(es[0], name, secondName) == wanted then [es[0]] else [])
         + Matching(es[1..], name, secondName, wanted)
  }

  lemma MatchingFrom(es: seq<Entry>, rest: seq<Entry>, name: string, secondName: string, wanted: bool)
    requires es != [] && es[1..] == rest
    ensures Matching(es, name, secondName, wanted)
         == (if IsMatch(es[0], name, secondName) == wanted then [es[0]] else []) + Matching(rest, name, secondName, wanted)
  {
  }

  /** Deleting drops the oldest of the entries with both names, if there is one, and keeps
      all the others in order. */
  lemma {:induction false} DeleteDropsOldest(es: seq<Entry>, name: string, secondName: string)
    ensures var left := Without(es, FirstMatch(es, name, secondName));
            var those := Matching(es, name, secondName, true);
            && Matching(left, name, secondName, true) == (if those == [] then [] else those[1..])
            && Matching(left, name, secondName, false) == Matching(es, name, secondName, false)
  {
    var i := FirstMatch(es, name, secondName);
    if es != [] {
      var rest, left := es[1..], Without(es, i);
      MatchingFrom(es, rest, name, secondName, true);
      MatchingFrom(es, rest, name, secondName, false);
      if i == 0 {
        assert left == rest;
      } else {
        DeleteDropsOldest(rest, name, secondName);
        WithoutLater(es, i);
        MatchingFrom(left, Without(rest, i - 1), name, secondName, true);
        MatchingFrom(left, Without(rest, i - 1), name, secondName, false);
      }
    }
  }

  lemma WithoutLater(es: seq<Entry>, i: nat)
    requires es != [] && i > 0
    ensures Without(es, i) != [] && Without(es, i)[0] == es[0] && Without(es, i)[1..] == Without(es[1..], i - 1)
  {
  }

  /** Deleting undoes adding, as long as nobody had those names before. */
  lemma {:induction false} DeleteUndoesAdd(es: seq<Entry>, e: Entry)
    requires FirstMatch(es, e.name, e.secondName) == |es|
    ensures Without(es + [e], FirstMatch(es + [e], e.name, e.secondName)) == es
  {
    FirstMatchIs(es + [e], e.name, e.secondName, |es|);
  }
}
