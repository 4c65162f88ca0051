/** The linked list of loaded drivers, and the table made from it. */
module DriverRegistry {
  import opened Basics
  import opened Bytes
  import opened DriverTable

  class Node {
    const info: Info
    var next: Node?

    constructor (info: Info)
      ensures this.info == info && next == null
    {
      this.info := info;
      next := null;
    }
  }

  /** Starting at `head` and following `next`, the list visits `nodes`, each once, and ends. */
  ghost predicate IsList(head: Node?, nodes: seq<Node>)
    reads nodes
  {
    && head == (if nodes == [] then null else nodes[0])
    && Distinct(nodes)
    && forall i :: 0 <= i < |nodes| ==> nodes[i].next == if i + 1 < |nodes| then nodes[i + 1] else null
  }

  /** The node the list reaches after `i` steps; null past the end. */
  ghost function NodeAt(nodes: seq<Node>, i: nat): Node? {
    if i < |nodes| then nodes[i] else null
  }

  lemma StepAlong(head: Node?, nodes: seq<Node>, i: nat)
    requires IsList(head, nodes)
    ensures head == NodeAt(nodes, 0)
    ensures i < |nodes| ==> nodes[i].next == NodeAt(nodes, i + 1)
  {
  }

  function Infos(nodes: seq<Node>): (infos: seq<Info>)
    ensures |infos| == |nodes| && forall i :: 0 <= i < |nodes| ==> infos[i] == nodes[i].info
  {
    seq(|nodes|, i requires 0 <= i < |nodes| => nodes[i].info)
  }

  /** Sorted before position `n`, leaving out position `hole`. */
  ghost predicate SortedBut(a: seq<Node>, n: nat, hole: int, machine: Endian)
    requires n <= |a|
  {
    forall i, j :: 0 <= i < j < n && j != hole ==> Compare(a[i].info, a[j].info, machine) <= 0
  }

  lemma CompareTransitive(a: Info, b: Info, c: Info, machine: Endian)
    requires Compare(a, b, machine) <= 0 && Compare(b, c, machine) <= 0
    ensures Compare(a, c, machine) <= 0
  {
    CompareIsKeyOrder(a, b, machine);
    CompareIsKeyOrder(b, c, machine);
    CompareIsKeyOrder(a, c, machine);
  }

  lemma CompareTotal(a: Info, b: Info, machine: Endian)
    requires Compare(a, b, machine) > 0
    ensures Compare(b, a, machine) <= 0
  {
    CompareIsKeyOrder(a, b, machine);
    CompareIsKeyOrder(b, a, machine);
  }

  /** `qsort` with the comparator, as an insertion sort: all that its callers know is that the result
      is a sorted permutation. */
  method Sort(a: array<Node>, machine: Endian)
    modifies a
    ensures multiset(a[..]) == multiset(old(a[..]))
    ensures SortedByCompare(Infos(a[..]), machine)
  {
    hide Compare, SortedBut, SortedByCompare;
    SortedNone(a[..], machine);
    for n := 0 to a.Length
      invariant multiset(a[..]) == multiset(old(a[..]))
      invariant SortedBut(a[..], n, -1, machine)
    {
      Insert(a, n, machine);
    }
    SortedAll(a[..], machine);
  }

  /** Put the element at position `n` in its place among the ones before it. */
  method Insert(a: array<Node>, n: nat, machine: Endian)
    requires n < a.Length && SortedBut(a[..], n, -1, machine)
    modifies a
    ensures multiset(a[..]) == multiset(old(a[..]))
    ensures SortedBut(a[..], n + 1, -1, machine)
  {
    hide Compare, SortedBut, Inserting, Swapped;
    var j := n;
    InsertStart(a[..], n, machine);
    while j > 0 && Compare(a[j - 1].info, a[j].info, machine) > 0
      invariant 0 <= j <= n && multiset(a[..]) == multiset(old(a[..]))
      invariant Inserting(a[..], n, j, machine)
    {
      SwapStep(a[..], n, j, machine);
      ghost var swapped := Swapped(a[..], j);
      a[j - 1], a[j] := a[j], a[j - 1];
      assert a[..] == swapped;
      j := j - 1;
    }
    InsertDone(a[..], n, j, machine);
  }

  /** The element at `j` is on its way down: the rest of the first `n + 1` is sorted, and it goes
      before all that it has passed. */
  ghost predicate Inserting(s: seq<Node>, n: nat, j: nat, machine: Endian)
    requires j <= n < |s|
  {
    && SortedBut(s, n + 1, j, machine)
    && forall k :: j < k <= n ==> Compare(s[j].info, s[k].info, machine) <= 0
  }

  lemma SortedNone(s: seq<Node>, machine: Endian)
    ensures SortedBut(s, 0, -1, machine)
  {
  }

  lemma SortedAll(s: seq<Node>, machine: Endian)
    requires SortedBut(s, |s|, -1, machine)
    ensures SortedByCompare(Infos(s), machine)
  {
    hide Compare;
  }

  lemma InsertStart(s: seq<Node>, n: nat, machine: Endian)
    requires n < |s| && SortedBut(s, n, -1, machine)
    ensures Inserting(s, n, n, machine)
  {
    hide Compare;
  }

  ghost function Swapped(s: seq<Node>, j: nat): (t: seq<Node>)
    requires 0 < j < |s|
    ensures |t| == |s| && t[j - 1] == s[j] && t[j] == s[j - 1]
    ensures forall k :: 0 <= k < |s| && k != j - 1 && k != j ==> t[k] == s[k]
    ensures multiset(t) == multiset(s)
  {
    s[j - 1 := s[j]][j := s[j - 1]]
  }

  lemma SwapStep(s: seq<Node>, n: nat, j: nat, machine: Endian)
    requires 0 < j <= n < |s| && Inserting(s, n, j, machine)
    requires Compare(s[j - 1].info, s[j].info, machine) > 0
    ensures Inserting(Swapped(s, j), n, j - 1, machine)
  {
    CompareTotal(s[j - 1].info, s[j].info, machine);
    hide Compare;
  }

  lemma InsertDone(s: seq<Node>, n: nat, j: nat, machine: Endian)
    requires j <= n < |s| && Inserting(s, n, j, machine)
    requires j > 0 ==> Compare(s[j - 1].info, s[j].info, machine) <= 0
    ensures SortedBut(s, n + 1, -1, machine)
  {
    hide Compare;
    forall i | 0 <= i < j ensures Compare(s[i].info, s[j].info, machine) <= 0 {
      if i < j - 1 {
        CompareTransitive(s[i].info, s[j - 1].info, s[j].info, machine);
      }
    }
  }

  lemma PermutedDistinct(a: seq<Node>, b: seq<Node>)
    requires Distinct(a) && multiset(a) == multiset(b)
    ensures Distinct(b)
  {
    forall i, j | 0 <= i < j < |b| ensures b[i] != b[j] {
      OnceEach(a, b[i]);
      TwiceIn(b, i, j);
    }
  }

  lemma {:induction false} OnceEach(a: seq<Node>, x: Node)
    requires Distinct(a)
    ensures multiset(a)[x] <= 1
  {
    if a != [] {
      var n := |a| - 1;
      assert a == a[..n] + [a[n]];
      OnceEach(a[..n], x);
    }
  }

  lemma TwiceIn(b: seq<Node>, i: nat, j: nat)
    requires i < j < |b|
    ensures b[i] == b[j] ==> multiset(b)[b[i]] >= 2
  {
    assert b == b[..i] + [b[i]] + b[i + 1..j] + [b[j]] + b[j + 1..];
  }

  lemma SortedTable(infos: seq<Info>, machine: Endian)
    requires SortedByCompare(infos, machine)
    ensures (forall i :: 0 <= i < |infos| ==> 0 <= infos[i].priority <= 255) ==>
              forall i, j :: 0 <= i < j < |infos| ==> infos[i].priority >= infos[j].priority
  {
    if forall i :: 0 <= i < |infos| ==> 0 <= infos[i].priority <= 255 {
      SortedIsDescending(infos, machine);
    }
  }

  lemma SameMembers(a: seq<Node>, b: seq<Node>)
    requires multiset(a) == multiset(b)
    ensures |a| == |b| && forall i :: 0 <= i < |a| ==> a[i] in b
  {
    assert |multiset(a)| == |multiset(b)|;
    forall i | 0 <= i < |a| ensures a[i] in b {
      assert a[i] in multiset(a);
    }
  }

  class Registry {
    const machine: Endian
    var head: Node?
    var infoTable: seq<Info>
    var driverCount: nat

    /** The drivers, in list order. */
    ghost var nodes: seq<Node>

    ghost predicate Valid()
      reads this, nodes
    {
      IsList(head, nodes)
    }

    /** The table has been made and belongs to the list. */
    ghost predicate Initialized()
      reads this, nodes
    {
      && Valid() && driverCount == |nodes| && infoTable == Infos(nodes)
      && SortedByCompare(infoTable, machine)
    }

    /** Any nonempty list of drivers can have been loaded. */
    constructor (machine: Endian, head: Node, ghost nodes: seq<Node>)
      requires IsList(head, nodes)
      ensures Valid() && this.nodes == nodes && this.machine == machine
    {
      this.machine, this.head, this.nodes := machine, head, nodes;
      infoTable, driverCount := [], 0;
    }

    method CountDrivers() returns (i: nat)
      requires Valid()
      ensures i == |nodes|
    {
      var list := head;
      i := 0;
      while list != null
        invariant i <= |nodes| && list == NodeAt(nodes, i)
        decreases |nodes| - i
      {
        StepAlong(head, nodes, i);
        i := i + 1;
        list := list.next;
      }
    }

    /** The drivers of the list in an array. */
    method ListToArray(count: nat) returns (table: array<Node>)
      requires Valid() && count == |nodes| > 0 && head != null
      ensures fresh(table) && table[..] == nodes
    {
      var first: Node := head;
      table := new Node[count](_ => first);
      var list := head;
      for i := 0 to count
        invariant list == NodeAt(nodes, i)
        invariant fresh(table) && forall k :: 0 <= k < i ==> table[k] == nodes[k]
      {
        StepAlong(head, nodes, i);
        table[i] := list;
        list := list.next;
      }
    }

    /** Chain the nodes in the order of the array. */
    method Relink(table: array<Node>)
      requires table.Length > 0 && Distinct(table[..])
      requires forall i :: 0 <= i < table.Length ==> table[i] in nodes
      modifies this`head, nodes
      ensures IsList(head, table[..]) && table[..] == old(table[..])
      ensures head == table[0] && table[table.Length - 1].next == null
      ensures forall i :: 0 <= i < table.Length - 1 ==> table[i].next == table[i + 1]
    {
      ghost var order := table[..];
      head := table[0];
      var i := 1;
      while i < table.Length
        invariant 1 <= i <= table.Length && table[..] == order && nodes == old(nodes) && head == order[0]
        invariant forall k :: 0 <= k < i - 1 ==> order[k].next == order[k + 1]
      {
        assert order[i - 1] == table[i - 1] && order[i] == table[i];
        table[i - 1].next := table[i];
        i := i + 1;
      }
      assert order[i - 1] == table[i - 1];
      table[i - 1].next := null;
      assert table[..] == order && head == order[0];
      forall k | 0 <= k < |order| - 1 ensures order[k].next == order[k + 1] {
        assert order[k] != order[|order| - 1];
      }
    }

    /** The infos in the order of the array. */
    method TableOf(table: array<Node>) returns (infos: seq<Info>)
      ensures infos == Infos(table[..])
    {
      infos := [];
      for i := 0 to table.Length
        invariant |infos| == i && forall k :: 0 <= k < i ==> infos[k] == table[k].info
      {
        infos := infos + [table[i].info];
      }
    }

    /** The drivers of the list in an array, sorted. */
    method SortedDrivers(count: nat) returns (table: array<Node>)
      requires Valid() && count == |nodes| > 0
      ensures fresh(table) && Distinct(table[..])
      ensures multiset(table[..]) == multiset(nodes) && SortedByCompare(Infos(table[..]), machine)
    {
      hide SortedByCompare, Distinct;
      table := ListToArray(count);
      Sort(table, machine);
      PermutedDistinct(nodes, table[..]);
    }

    /** `_make_info_table`: sort the list by priority and make a table of the infos. */
    method MakeInfoTable()
      requires Valid() && nodes != []
      modifies this, nodes
      ensures Initialized()
      ensures multiset(nodes) == multiset(old(nodes))
      ensures driverCount == |old(nodes)| && infoTable == Infos(nodes) && IsList(head, nodes)
      ensures (forall i :: 0 <= i < |infoTable| ==> 0 <= infoTable[i].priority <= 255) ==>
                forall i, j :: 0 <= i < j < |infoTable| ==> infoTable[i].priority >= infoTable[j].priority
    {
      hide SortedByCompare, Distinct, IsList, Infos;
      var count := CountDrivers();
      var table := SortedDrivers(count);
      SameMembers(table[..], nodes);
      Relink(table);
      nodes := table[..];
      driverCount := count;
      infoTable := TableOf(table);
      SortedTable(infoTable, machine);
    }

    /** `_get_driver` */
    method GetDriver(id: int) returns (driver: Node?)
      requires Valid()
      ensures driver == if 0 <= id < |nodes| then nodes[id] else null
    {
      if id < 0 {
        return null;
      }
      var i := 0;
      driver := head;
      while driver != null && i < id
        invariant 0 <= i <= id && i <= |nodes|
        invariant driver == NodeAt(nodes, i)
        decreases |nodes| - i
      {
        StepAlong(head, nodes, i);
        i := i + 1;
        driver := driver.next;
      }
      if i != id {
        driver := null;
      }
    }

    /** `ao_driver_id` */
    method DriverId(name: string) returns (id: int)
      requires Valid()
      ensures id == IdOf(Infos(nodes), name)
    {
      var driver := head;
      id := 0;
      while driver != null
        invariant 0 <= id <= |nodes| && driver == NodeAt(nodes, id)
        invariant forall k :: 0 <= k < id ==> nodes[k].info.shortName != name
        decreases |nodes| - id
      {
        StepAlong(head, nodes, id);
        if driver.info.shortName == name {
          return;
        }
        driver := driver.next;
        id := id + 1;
      }
      return -1;
    }

    /** `_find_default_driver_id` */
    method FindDefaultDriverId(name: Option<string>) returns (defId: int)
      requires Valid()
      ensures defId == DefaultId(Infos(nodes), name)
      ensures name.Some? && (exists i :: 0 <= i < |nodes| && nodes[i].info.shortName == name.value) ==>
                && 0 <= defId < |nodes| && nodes[defId].info.shortName == name.value
                && forall i :: 0 <= i < defId ==> nodes[i].info.shortName != name.value
    {
      defId := -1;
      if name.Some? {
        defId := DriverId(name.value);
      }
      if defId < 0 {
        defId := -1;
        var id, dl := 0, head;
        while dl != null
          invariant 0 <= id <= |nodes| && dl == NodeAt(nodes, id)
          invariant forall k :: 0 <= k < id ==> !Candidate(nodes[k].info)
          invariant defId == -1
          decreases |nodes| - id
        {
          StepAlong(head, nodes, id);
          if dl.info.kind == Live && dl.info.priority > 0 && dl.info.usable {
            defId := id;
            break;
          }
          dl := dl.next;
          id := id + 1;
        }
      }
    }

    /** `ao_driver_info`: agrees with the table at every number, and gives nothing outside. */
    method DriverInfo(id: int) returns (info: Option<Info>)
      requires Initialized()
      ensures info == if 0 <= id < driverCount then Some(infoTable[id]) else None
    {
      var driver := GetDriver(id);
      info := if driver == null then None else Some(driver.info);
    }
  }
}
