/** Singly linked lists and the stable insertion of SortedList (lib/list.cc). */
module LinkedLists {
  import opened Sequences

  // s with x put in at place k, and with the item at place k taken out.
  function SpliceIn<T>(s: seq<T>, k: nat, x: T): (r: seq<T>)
    requires k <= |s|
    ensures |r| == |s| + 1
    ensures forall i :: 0 <= i < |r| ==> r[i] == if i < k then s[i] else if i == k then x else s[i - 1]
  {
    s[..k] + [x] + s[k..]
  }

  function CutOut<T>(s: seq<T>, k: nat): (r: seq<T>)
    requires k < |s|
    ensures |r| == |s| - 1
    ensures forall i :: 0 <= i < |r| ==> r[i] == if i < k then s[i] else s[i + 1]
  {
    s[..k] + s[k + 1..]
  }

  // ----- what the operations do to the items in the list -----

  // SortedList::Insert puts x before the first item that is bigger.
  function Inserted<T>(s: seq<T>, x: T, compare: (T, T) -> int): (r: seq<T>)
    ensures |r| == |s| + 1
  {
    if s == [] then [x]
    else if compare(x, s[0]) < 0 then [x] + s
    else [s[0]] + Inserted(s[1..], x, compare)
  }

  function Without<T(==)>(s: seq<T>, x: T): (r: seq<T>)
    requires x in s
    ensures |r| == |s| - 1
  {
    if s[0] == x then s[1..] else [s[0]] + Without(s[1..], x)
  }

  ghost predicate Sorted<T(!new)>(s: seq<T>, compare: (T, T) -> int) {
    forall i, j :: 0 <= i < j < |s| ==> compare(s[i], s[j]) <= 0
  }

  // What the comparison functions of the repository satisfy.
  ghost predicate TotalPreorder<T(!new)>(compare: (T, T) -> int) {
    && (forall x, y :: compare(x, y) < 0 <==> compare(y, x) > 0)
    && (forall x, y, z :: compare(x, y) <= 0 && compare(y, z) <= 0 ==> compare(x, z) <= 0)
  }

  lemma {:induction false} InsertedAt<T>(s: seq<T>, x: T, compare: (T, T) -> int, k: nat)
    requires k <= |s|
    requires forall j :: 0 <= j < k ==> compare(x, s[j]) >= 0
    requires k < |s| ==> compare(x, s[k]) < 0
    ensures Inserted(s, x, compare) == SpliceIn(s, k, x)
  {
    if k == 0 {
      assert SpliceIn(s, 0, x) == [x] + s;
    } else {
      InsertedAt(s[1..], x, compare, k - 1);
      assert SpliceIn(s, k, x) == [s[0]] + SpliceIn(s[1..], k - 1, x);
    }
  }

  // Where the new item goes: after everything that is not bigger.
  lemma {:induction false} InsertedPlace<T>(s: seq<T>, x: T, compare: (T, T) -> int) returns (k: nat)
    ensures k <= |s|
    ensures forall j :: 0 <= j < k ==> compare(x, s[j]) >= 0
    ensures k < |s| ==> compare(x, s[k]) < 0
    ensures Inserted(s, x, compare) == SpliceIn(s, k, x)
  {
    k := 0;
    while k < |s| && compare(x, s[k]) >= 0
      invariant k <= |s|
      invariant forall j :: 0 <= j < k ==> compare(x, s[j]) >= 0
    {
      k := k + 1;
    }
    InsertedAt(s, x, compare, k);
  }

  // Sorting by repeated insertion, as the device simulators use the list.
  function InsertAll<T>(xs: seq<T>, compare: (T, T) -> int): seq<T> {
    if xs == [] then [] else Inserted(InsertAll(xs[..|xs| - 1], compare), xs[|xs| - 1], compare)
  }

  lemma InsertedSorted<T(!new)>(s: seq<T>, x: T, compare: (T, T) -> int)
    requires TotalPreorder(compare) && Sorted(s, compare)
    ensures Sorted(Inserted(s, x, compare), compare)
  {
    var k := InsertedPlace(s, x, compare);
    var r := Inserted(s, x, compare);
    forall i, j | 0 <= i < j < |r|
      ensures compare(r[i], r[j]) <= 0
    {
      if i < k && j > k {
        assert r[i] == s[i] && r[j] == s[j - 1];
      } else if i == k {
        assert r[j] == s[j - 1];
        assert compare(x, s[k]) < 0 && (j - 1 > k ==> compare(s[k], s[j - 1]) <= 0);
      } else if j == k {
        assert compare(x, s[i]) >= 0;
      }
    }
  }

  // The items equivalent to y, in order.
  function Ties<T>(s: seq<T>, y: T, compare: (T, T) -> int): seq<T> {
    if s == [] then []
    else if compare(s[0], y) == 0 then [s[0]] + Ties(s[1..], y, compare)
    else Ties(s[1..], y, compare)
  }

  lemma {:induction false} TiesConcat<T>(s: seq<T>, t: seq<T>, y: T, compare: (T, T) -> int)
    ensures Ties(s + t, y, compare) == Ties(s, y, compare) + Ties(t, y, compare)
  {
    if s == [] {
      assert s + t == t;
    } else {
      assert (s + t)[1..] == s[1..] + t;
      TiesConcat(s[1..], t, y, compare);
    }
  }

  lemma {:induction false} NoTies<T>(s: seq<T>, y: T, compare: (T, T) -> int)
    requires forall j :: 0 <= j < |s| ==> compare(s[j], y) != 0
    ensures Ties(s, y, compare) == []
  {
    if s != [] {
      NoTies(s[1..], y, compare);
    }
  }

  // A new item goes behind those it ties with.
  lemma InsertedTies<T(!new)>(s: seq<T>, x: T, y: T, compare: (T, T) -> int)
    requires TotalPreorder(compare) && Sorted(s, compare)
    ensures Ties(Inserted(s, x, compare), y, compare) == Ties(s, y, compare) + Ties([x], y, compare)
  {
    hide Ties, Inserted, TotalPreorder, Sorted;
    var k := InsertedPlace(s, x, compare);
    if compare(x, y) == 0 {
      BiggerAfter(s, x, y, compare, k);
    } else {
      NoTie(x, y, compare);
    }
    assert s == s[..k] + s[k..];
    SplicedTies(s[..k], x, s[k..], y, compare);
  }

  lemma SplicedTies<T>(pre: seq<T>, x: T, post: seq<T>, y: T, compare: (T, T) -> int)
    ensures Ties(pre + post, y, compare) == Ties(pre, y, compare) + Ties(post, y, compare)
    ensures Ties(pre + [x] + post, y, compare) == Ties(pre, y, compare) + Ties([x], y, compare) + Ties(post, y, compare)
  {
    TiesConcat(pre, post, y, compare);
    TiesConcat(pre + [x], post, y, compare);
    TiesConcat(pre, [x], y, compare);
  }

  lemma NoTie<T>(x: T, y: T, compare: (T, T) -> int)
    ensures compare(x, y) != 0 ==> Ties([x], y, compare) == []
  {
  }

  lemma Bigger<T(!new)>(x: T, y: T, a: T, b: T, compare: (T, T) -> int)
    requires TotalPreorder(compare) && compare(x, y) == 0 && compare(x, a) < 0
    requires a == b || compare(a, b) <= 0
    ensures compare(b, y) != 0
  {
    assert compare(a, b) <= 0 && compare(b, y) <= 0 ==> compare(a, y) <= 0;
    assert compare(a, y) <= 0 && compare(y, x) <= 0 ==> compare(a, x) <= 0;
    assert compare(y, x) > 0 <==> compare(x, y) < 0;
  }

  // Nothing behind the new item's place ties with it.
  lemma BiggerAfter<T(!new)>(s: seq<T>, x: T, y: T, compare: (T, T) -> int, k: nat)
    requires TotalPreorder(compare) && Sorted(s, compare) && compare(x, y) == 0
    requires k <= |s| && (k < |s| ==> compare(x, s[k]) < 0)
    ensures Ties(s[k..], y, compare) == []
  {
    forall j | k <= j < |s|
      ensures compare(s[j], y) != 0
    {
      assert j == k || compare(s[k], s[j]) <= 0;
      Bigger(x, y, s[k], s[j], compare);
    }
    NoTies(s[k..], y, compare);
  }

  /** Inserting items one by one sorts them, and stably: those that tie come out in
      the order they went in. */
  lemma {:induction false} InsertAllSorts<T(!new)>(xs: seq<T>, compare: (T, T) -> int, y: T)
    requires TotalPreorder(compare)
    ensures Sorted(InsertAll(xs, compare), compare)
    ensures multiset(InsertAll(xs, compare)) == multiset(xs)
    ensures Ties(InsertAll(xs, compare), y, compare) == Ties(xs, y, compare)
  {
    if xs != [] {
      var n := |xs| - 1;
      InsertAllSorts(xs[..n], compare, y);
      InsertedSorted(InsertAll(xs[..n], compare), xs[n], compare);
      InsertedItems(InsertAll(xs[..n], compare), xs[n], compare);
      InsertedTies(InsertAll(xs[..n], compare), xs[n], y, compare);
      TiesConcat(xs[..n], [xs[n]], y, compare);
      assert xs == xs[..n] + [xs[n]];
    }
  }

  lemma InsertedItems<T>(s: seq<T>, x: T, compare: (T, T) -> int)
    ensures multiset(Inserted(s, x, compare)) == multiset(s) + multiset{x}
  {
    hide Inserted, SpliceIn;
    var k := InsertedPlace(s, x, compare);
    SpliceItems(s, k, x);
  }

  lemma SpliceItems<T>(s: seq<T>, k: nat, x: T)
    requires k <= |s|
    ensures multiset(SpliceIn(s, k, x)) == multiset(s) + multiset{x}
  {
    assert SpliceIn(s, k, x) == s[..k] + [x] + s[k..];
    assert s == s[..k] + s[k..];
    hide SpliceIn;
  }

  lemma {:induction false} WithoutAt<T>(s: seq<T>, x: T, k: nat)
    requires k < |s| && s[k] == x && forall j :: 0 <= j < k ==> s[j] != x
    ensures Without(s, x) == CutOut(s, k)
  {
    if k > 0 {
      WithoutAt(s[1..], x, k - 1);
      assert CutOut(s, k) == [s[0]] + CutOut(s[1..], k - 1);
    }
  }

  lemma Singleton<T>(x: T, compare: (T, T) -> int)
    ensures Distinct([x]) && Inserted([], x, compare) == [x]
  {
  }

  lemma OnlyAt<T>(s: seq<T>, k: nat)
    requires Distinct(s) && k < |s|
    ensures forall i :: 0 <= i < |s| && i != k ==> s[i] != s[k]
  {
  }

  lemma DistinctSplice<T>(s: seq<T>, x: T, k: nat)
    requires Distinct(s) && k <= |s| && x !in s
    ensures Distinct(SpliceIn(s, k, x))
  {
  }

  lemma DistinctCut<T>(s: seq<T>, k: nat)
    requires Distinct(s) && k < |s|
    ensures Distinct(CutOut(s, k)) && s[k] !in CutOut(s, k)
  {
  }

  lemma SameIndex<T>(s: seq<T>, i: nat, j: nat)
    requires Distinct(s) && i < |s| && j < |s| && s[i] == s[j]
    ensures i == j
  {
  }

  lemma AppendDistinct<T>(s: seq<T>, x: T)
    requires Distinct(s) && x !in s
    ensures Distinct(s + [x])
  {
    DistinctSplice(s, x, |s|);
    assert SpliceIn(s, |s|, x) == s + [x];
  }

  lemma WithoutItems<T>(s: seq<T>, x: T)
    requires Distinct(s) && x in s
    ensures Distinct(Without(s, x))
    ensures forall y :: y in Without(s, x) <==> y in s && y != x
  {
    var k :| 0 <= k < |s| && s[k] == x;
    OnlyAt(s, k);
    WithoutAt(s, x, k);
    DistinctCut(s, k);
    hide Distinct, Without, CutOut;
    var r := CutOut(s, k);
    forall y | y in s && y != x
      ensures y in r
    {
      var j :| 0 <= j < |s| && s[j] == y;
      assert y == if j < k then r[j] else r[j - 1];
    }
  }

  // ----- the list -----

  class ListElement<T> {
    const item: T
    var next: ListElement?<T>

    constructor (item: T)
      ensures this.item == item && next == null
    {
      this.item := item;
      next := null;
    }
  }

  class List<T(==)> {
    var first: ListElement?<T>
    var last: ListElement?<T>
    var numInList: int
    ghost var nodes: seq<ListElement<T>>

    ghost function NodeAt(i: nat): ListElement?<T>
      reads this
    {
      if i < |nodes| then nodes[i] else null
    }

    ghost predicate Linked()
      reads this, nodes
    {
      numInList == |nodes| && Chained()
    }

    // The pointers run through the nodes, whatever the count says.
    ghost predicate Chained()
      reads this, nodes
    {
      && Distinct(nodes)
      && (nodes == [] ==> first == null && last == null)
      && (nodes != [] ==> first == nodes[0] && last == nodes[|nodes| - 1])
      && (forall i {:trigger nodes[i].next} :: 0 <= i < |nodes| ==> nodes[i].next == NodeAt(i + 1))
    }

    ghost function Contents(): (s: seq<T>)
      reads this
      ensures |s| == |nodes|
    {
      seq(|nodes|, i requires 0 <= i < |nodes| reads this => nodes[i].item)
    }

    ghost predicate Valid()
      reads this, nodes
    {
      Linked() && Distinct(Contents())
    }

    constructor ()
      ensures Valid() && Contents() == [] && nodes == []
    {
      first := null;
      last := null;
      numInList := 0;
      nodes := [];
    }

    method IsInList(item: T) returns (found: bool)
      requires Valid()
      ensures found <==> item in Contents()
    {
      var ptr := first;
      ghost var k := 0;
      while ptr != null
        invariant 0 <= k <= |nodes|
        invariant ptr == if k < |nodes| then nodes[k] else null
        invariant forall j :: 0 <= j < k ==> Contents()[j] != item
        decreases |nodes| - k
      {
        if item == ptr.item {
          assert Contents()[k] == item;
          return true;
        }
        ptr := ptr.next;
        k := k + 1;
      }
      return false;
    }

    method IsEmpty() returns (empty: bool)
      requires Valid()
      ensures empty <==> Contents() == []
    {
      empty := numInList == 0;
    }

    method Append(item: T)
      requires Valid() && item !in Contents()
      modifies this, nodes
      ensures Valid() && Contents() == old(Contents()) + [item]
      ensures fresh(set n | n in nodes && n !in old(nodes))
    {
      hide Distinct;
      var element := new ListElement(item);
      DistinctSplice(Contents(), item, |nodes|);
      if first == null {
        LinkOnly(element);
      } else {
        LinkLast(element);
      }
      assert Contents() == SpliceIn(old(Contents()), |old(nodes)|, item);
      assert Contents() == old(Contents()) + [item];
    }

    method Prepend(item: T)
      requires Valid() && item !in Contents()
      modifies this, nodes
      ensures Valid() && Contents() == [item] + old(Contents())
      ensures fresh(set n | n in nodes && n !in old(nodes))
    {
      hide Distinct;
      var element := new ListElement(item);
      DistinctSplice(Contents(), item, 0);
      if first == null {
        LinkOnly(element);
      } else {
        LinkFirst(element);
      }
      assert Contents() == SpliceIn(old(Contents()), 0, item);
      assert Contents() == [item] + old(Contents());
    }

    method RemoveFront() returns (thing: T)
      requires Valid() && Contents() != []
      modifies this
      ensures Valid() && [thing] + Contents() == old(Contents())
      ensures nodes == old(nodes[1..])
    {
      var element := first;
      thing := element.item;
      if first == last {
        SameIndex(nodes, 0, |nodes| - 1);
        first := null;
        last := null;
      } else {
        first := element.next;
      }
      nodes := nodes[1..];
      numInList := numInList - 1;
      assert [thing] + Contents() == old(Contents());
      assert forall i :: 0 <= i < |nodes| ==> Contents()[i] == old(Contents())[i + 1];
    }

    method Remove(item: T)
      requires Valid() && item in Contents()
      modifies this, nodes
      ensures Valid() && Contents() == Without(old(Contents()), item) && item !in Contents()
      ensures forall n :: n in nodes ==> n in old(nodes)
    {
      hide Distinct, Without;
      if item == first.item {
        WithoutAt(Contents(), item, 0);
        DistinctCut(Contents(), 0);
        var removed := RemoveFront();
        assert item == removed;
        assert Contents() == CutOut(old(Contents()), 0);
      } else {
        var prev := first;
        var ptr := first.next;
        ghost var k := 1;
        assert ptr == NodeAt(1);
        ghost var found :| 0 <= found < |nodes| && Contents()[found] == item;
        while item != ptr.item
          invariant 1 <= k <= found && prev == nodes[k - 1] && ptr == nodes[k]
          invariant forall j :: 0 <= j < k ==> Contents()[j] != item
          decreases |nodes| - k
        {
          assert ptr.next == NodeAt(k + 1);
          prev := ptr;
          ptr := ptr.next;
          k := k + 1;
        }
        WithoutAt(Contents(), item, k);
        DistinctCut(Contents(), k);
        Unlink(prev, ptr, k);
        assert Contents() == CutOut(old(Contents()), k);
      }
    }

    /** SortedList::Insert. */
    method Insert(item: T, compare: (T, T) -> int)
      requires Valid() && item !in Contents()
      modifies this, nodes
      ensures Valid() && Contents() == Inserted(old(Contents()), item, compare)
      ensures fresh(set n | n in nodes && n !in old(nodes))
    {
      hide Distinct, Inserted;
      var element := new ListElement(item);
      if first == null {
        Singleton(item, compare);
        LinkOnly(element);
        assert Contents() == [item];
      } else if compare(item, first.item) < 0 {
        InsertedAt(Contents(), item, compare, 0);
        DistinctSplice(Contents(), item, 0);
        LinkFirst(element);
        assert Contents() == SpliceIn(old(Contents()), 0, item);
      } else {
        InsertBehind(element, compare);
      }
    }

    // Looks for the first item that is bigger, past the first.
    method InsertBehind(element: ListElement<T>, compare: (T, T) -> int)
      requires Valid() && element.item !in Contents() && element !in nodes && element.next == null
      requires first != null && compare(element.item, first.item) >= 0
      modifies this, nodes, element
      ensures Valid() && Contents() == Inserted(old(Contents()), element.item, compare)
      ensures forall n :: n in nodes ==> n in old(nodes) || n == element
    {
      hide Distinct, Inserted;
      var ptr, k := FindPlace(element.item, compare);
      InsertedAt(Contents(), element.item, compare, k + 1);
      DistinctSplice(Contents(), element.item, k + 1);
      if ptr.next == null {
        LinkLast(element);
      } else {
        LinkAfter(ptr, element, k);
      }
      assert Contents() == SpliceIn(old(Contents()), k + 1, element.item);
    }

    // The loop of Insert: the last element before the item's place.
    method FindPlace(item: T, compare: (T, T) -> int) returns (ptr: ListElement<T>, ghost k: nat)
      requires Linked() && first != null && compare(item, first.item) >= 0
      ensures k < |nodes| && ptr == nodes[k] && ptr.next == NodeAt(k + 1)
      ensures forall j :: 0 <= j <= k ==> compare(item, Contents()[j]) >= 0
      ensures k + 1 < |nodes| ==> compare(item, Contents()[k + 1]) < 0
    {
      hide Distinct;
      ptr, k := first, 0;
      while ptr.next != null && compare(item, ptr.next.item) >= 0
        invariant 0 <= k < |nodes| && ptr == nodes[k]
        invariant forall j :: 0 <= j <= k ==> compare(item, Contents()[j]) >= 0
        decreases |nodes| - k
      {
        assert ptr.next == NodeAt(k + 1);
        ptr := ptr.next;
        k := k + 1;
      }
      assert ptr.next == NodeAt(k + 1);
    }

    // ----- the pointer work -----

    method LinkOnly(element: ListElement<T>)
      requires Linked() && nodes == [] && element.next == null
      modifies this
      ensures Linked() && nodes == [element]
    {
      first := element;
      last := element;
      nodes := [element];
      numInList := numInList + 1;
    }

    method LinkFirst(element: ListElement<T>)
      requires Linked() && nodes != [] && element !in nodes
      modifies this, element
      ensures Linked() && nodes == SpliceIn(old(nodes), 0, element)
    {
      DistinctSplice(nodes, element, 0);
      hide Distinct, SpliceIn;
      element.next := first;
      first := element;
      nodes := SpliceIn(nodes, 0, element);
      numInList := numInList + 1;
    }

    // Puts element behind node k, which is not the last.
    method LinkAfter(ptr: ListElement<T>, element: ListElement<T>, ghost k: nat)
      requires Linked() && k + 1 < |nodes| && ptr == nodes[k] && element !in nodes
      modifies this`nodes, this`numInList, ptr, element
      ensures Linked() && nodes == SpliceIn(old(nodes), k + 1, element)
    {
      OnlyAt(nodes, k);
      DistinctSplice(nodes, element, k + 1);
      hide Distinct, SpliceIn;
      element.next := ptr.next;
      ptr.next := element;
      numInList := numInList + 1;
      ghost var was := nodes;
      nodes := SpliceIn(was, k + 1, element);
      forall i | 0 <= i < |nodes|
        ensures nodes[i].next == NodeAt(i + 1)
      {
        if i < k {
          assert nodes[i] == was[i] && was[i].next == was[i + 1];
        } else if i > k + 1 {
          assert nodes[i] == was[i - 1] && was[i - 1].next == old(NodeAt(i));
        }
      }
    }

    // Puts element behind the last node.
    method LinkLast(element: ListElement<T>)
      requires Linked() && nodes != [] && element.next == null && element !in nodes
      modifies this, last
      ensures Linked() && nodes == SpliceIn(old(nodes), |old(nodes)|, element)
    {
      OnlyAt(nodes, |nodes| - 1);
      DistinctSplice(nodes, element, |nodes|);
      hide Distinct, SpliceIn;
      last.next := element;
      last := element;
      ghost var was := nodes;
      nodes := SpliceIn(was, |was|, element);
      numInList := numInList + 1;
      assert forall i :: 0 <= i < |was| - 1 ==> was[i].next == was[i + 1];
    }

    // Takes node k out.
    method Unlink(prev: ListElement<T>, ptr: ListElement<T>, ghost k: nat)
      requires Linked() && 0 < k < |nodes| && prev == nodes[k - 1] && ptr == nodes[k]
      modifies this, nodes
      ensures Linked() && nodes == CutOut(old(nodes), k)
    {
      OnlyAt(nodes, k - 1);
      DistinctCut(nodes, k);
      hide Distinct, CutOut;
      assert ptr.next == NodeAt(k + 1);
      prev.next := ptr.next;
      if prev.next == null {
        last := prev;
      }
      numInList := numInList - 1;
      ghost var was := nodes;
      nodes := CutOut(was, k);
      forall i | 0 <= i < |nodes|
        ensures nodes[i].next == NodeAt(i + 1)
      {
        if i < k - 1 {
          assert nodes[i] == was[i] && was[i].next == was[i + 1];
        } else if i >= k {
          assert nodes[i] == was[i + 1] && was[i + 1].next == old(NodeAt(i + 2));
        }
      }
    }

    /** On a chain of nodes the ASSERTs pass exactly when the count is right. */
    method SanityCheck() returns (ok: bool)
      requires Chained()
      ensures ok <==> numInList == |nodes|
    {
      if first == null {
        return numInList == 0 && last == null;
      }
      if first == last {
        SameIndex(nodes, 0, |nodes| - 1);
        return numInList == 1 && last.next == null;
      }
      var numFound, ptr := 1, first;
      while ptr != last
        invariant 1 <= numFound <= |nodes| && ptr == nodes[numFound - 1]
        decreases |nodes| - numFound
      {
        numFound := numFound + 1;
        if numFound > numInList {
          return false;
        }
        ptr := ptr.next;
      }
      SameIndex(nodes, numFound - 1, |nodes| - 1);
      return numFound == numInList && last.next == null;
    }
  }
}
