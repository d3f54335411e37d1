// The circular doubly linked list of rt-thread/include/rtservice.h, on which wait
// lists and ready queues are built: why they can be taken for sequences.

module RtList {
  import opened Common

  // The neighbours of position j of a circle.
  function Succ(c: seq<int>, j: nat): int
    requires j < |c|
  {
    c[if j + 1 == |c| then 0 else j + 1]
  }

  function Pred(c: seq<int>, j: nat): int
    requires j < |c|
  {
    c[if j == 0 then |c| - 1 else j - 1]
  }

  // struct rt_list_node
  datatype Link = Link(next: int, prev: int)

  type Links = map<int, Link>

  ghost predicate NodeAt(m: Links, c: seq<int>, j: nat)
    requires j < |c|
  {
    c[j] in m && m[c[j]] == Link(Succ(c, j), Pred(c, j))
  }

  // The nodes of c, in this order, form a circle. A list is a circle that starts
  // with its head.
  ghost predicate Ring(m: Links, c: seq<int>) {
    c != [] && NoDup(c) && forall j :: 0 <= j < |c| ==> NodeAt(m, c, j)
  }

  // Only nodes of the circle c have been written.
  ghost predicate OnlyOn(m: Links, n: Links, c: seq<int>) {
    (forall x :: x in m <==> x in n) && forall x :: x in m && x !in c ==> n[x] == m[x]
  }

  // Any list apart from the one written is untouched.
  lemma OtherListsKept(m: Links, n: Links, c: seq<int>, d: seq<int>)
    requires OnlyOn(m, n, c) && Ring(m, d) && forall j :: 0 <= j < |d| ==> d[j] !in c
    ensures Ring(n, d)
  {
    forall j | 0 <= j < |d| ensures NodeAt(n, d, j) {
      var x := d[j];
      assert NodeAt(m, d, j) && x in m && x in n && x !in c;
    }
  }

  lemma Neighbours(m: Links, c: seq<int>, j: nat)
    requires Ring(m, c) && j < |c|
    ensures c[j] in m && m[c[j]] == Link(Succ(c, j), Pred(c, j))
    ensures m[c[j]].next in m && m[c[j]].prev in m
    ensures |c| > 1 ==> m[c[j]].next != c[j] && m[c[j]].prev != c[j]
  {
    assert NodeAt(m, c, j);
    assert NodeAt(m, c, if j + 1 == |c| then 0 else j + 1);
    assert NodeAt(m, c, if j == 0 then |c| - 1 else j - 1);
  }

  // n between position j of the circle and the next.
  function Inserted(c: seq<int>, j: nat, n: int): seq<int>
    requires j < |c|
  {
    c[..j + 1] + [n] + c[j + 1..]
  }

  function Linked(m: Links, l: int, n: int): Links
    requires l in m && m[l].next in m && n in m
  {
    var next := m[l].next;
    var m1 := m[next := m[next].(prev := n)];
    var m2 := m1[n := m1[n].(next := next)];
    var m3 := m2[l := m2[l].(next := n)];
    m3[n := m3[n].(prev := l)]
  }

  lemma LinkedRing(m: Links, c: seq<int>, j: nat, n: int)
    requires Ring(m, c) && j < |c| && n !in c && n in m
    ensures c[j] in m && m[c[j]].next in m
    ensures Ring(Linked(m, c[j], n), Inserted(c, j, n))
    ensures OnlyOn(m, Linked(m, c[j], n), Inserted(c, j, n))
  {
    Neighbours(m, c, j);
    var d, r := Inserted(c, j, n), Linked(m, c[j], n);
    assert forall i :: 0 <= i < |d| && i != j + 1 ==> d[i] == c[if i <= j then i else i - 1];
    forall i | 0 <= i < |d| ensures NodeAt(r, d, i) {
      if i != j + 1 { assert NodeAt(m, c, if i <= j then i else i - 1); }
    }
    assert Succ(c, j) in d by { assert d[if j + 1 == |c| then 0 else j + 2] == Succ(c, j); }
    assert c[j] == d[j] && n == d[j + 1];
  }

  function Unlinked(m: Links, n: int): Links
    requires n in m && m[n].next in m && m[n].prev in m
  {
    var m1 := m[m[n].next := m[m[n].next].(prev := m[n].prev)];
    var m2 := m1[m1[n].prev := m1[m1[n].prev].(next := m1[n].next)];
    m2[n := Link(n, n)]
  }

  // A circle with position j left out.
  lemma SkipAt(c: seq<int>, j: nat, i: nat)
    requires j < |c| && i < |c| - 1
    ensures (c[..j] + c[j + 1..])[i] == c[if i < j then i else i + 1]
  {}

  lemma UnlinkedRing(m: Links, c: seq<int>, j: nat)
    requires Ring(m, c) && j < |c| && |c| > 1
    ensures c[j] in m && m[c[j]].next in m && m[c[j]].prev in m
    ensures Ring(Unlinked(m, c[j]), c[..j] + c[j + 1..]) && Ring(Unlinked(m, c[j]), [c[j]])
    ensures OnlyOn(m, Unlinked(m, c[j]), c)
  {
    Neighbours(m, c, j);
    var d, r := c[..j] + c[j + 1..], Unlinked(m, c[j]);
    forall i | 0 <= i < |d| ensures NodeAt(r, d, i) {
      SkipAt(c, j, i);
      if i + 1 < |d| { SkipAt(c, j, i + 1); }
      assert NodeAt(m, c, if i < j then i else i + 1);
    }
    forall i, k | 0 <= i < k < |d| ensures d[i] != d[k] {
      SkipAt(c, j, i);
      SkipAt(c, j, k);
    }
    assert NodeAt(r, [c[j]], 0);
  }

  class Memory {
    var links: Links

    // rt_list_insert_after
    method InsertAfter(l: int, n: int, ghost c: seq<int>, ghost j: nat)
      requires Ring(links, c) && j < |c| && c[j] == l && n !in c && n in links
      modifies this
      ensures Ring(links, Inserted(c, j, n)) && OnlyOn(old(links), links, Inserted(c, j, n))
    {
      LinkedRing(links, c, j, n);
      Neighbours(links, c, j);
      var next := links[l].next;
      links := links[next := links[next].(prev := n)];
      links := links[n := links[n].(next := next)];
      links := links[l := links[l].(next := n)];
      links := links[n := links[n].(prev := l)];
    }

    // rt_list_insert_before
    method InsertBefore(l: int, n: int, ghost c: seq<int>, ghost j: nat)
      requires Ring(links, c) && j < |c| && c[j] == l && n !in c && n in links
      modifies this
      ensures var k := if j == 0 then |c| - 1 else j - 1;
        Ring(links, Inserted(c, k, n)) && OnlyOn(old(links), links, Inserted(c, k, n))
    {
      ghost var k := if j == 0 then |c| - 1 else j - 1;
      ghost var m := links;
      LinkedRing(links, c, k, n);
      Neighbours(links, c, j);
      Neighbours(links, c, k);
      var prev := links[l].prev;
      links := links[prev := links[prev].(next := n)];
      links := links[n := links[n].(prev := prev)];
      links := links[l := links[l].(prev := n)];
      links := links[n := links[n].(next := l)];
      assert links == Linked(m, c[k], n);
    }

    // rt_list_remove: from the list it is in, or from none.
    method RemoveNode(n: int, ghost c: seq<int>, ghost j: nat)
      requires Ring(links, c) && j < |c| && c[j] == n
      modifies this
      ensures |c| > 1 ==> Ring(links, c[..j] + c[j + 1..])
      ensures Ring(links, [n]) && OnlyOn(old(links), links, c)
      ensures |c| == 1 ==> links == old(links)
    {
      ghost var m := links;
      if |c| > 1 { UnlinkedRing(links, c, j); }
      Neighbours(links, c, j);
      var next := links[n].next;
      links := links[next := links[next].(prev := links[n].prev)];
      var prev := links[n].prev;
      links := links[prev := links[prev].(next := links[n].next)];
      links := links[n := Link(n, n)];
      assert |c| == 1 ==> c == [n];
    }

    // rt_list_isempty
    method IsEmpty(l: int, ghost items: seq<int>) returns (r: bool)
      requires Ring(links, [l] + items)
      ensures r <==> items == []
    {
      Neighbours(links, [l] + items, 0);
      r := links[l].next == l;
    }

    // rt_list_len
    method Len(l: int, ghost items: seq<int>) returns (len: nat)
      requires Ring(links, [l] + items)
      ensures len == |items|
    {
      ghost var c := [l] + items;
      len := 0;
      var p := l;
      Neighbours(links, c, 0);
      while links[p].next != l
        invariant len <= |items| && p == c[len] && p in links
        decreases |items| - len
      {
        Neighbours(links, c, len);
        p := links[p].next;
        len := len + 1;
        if len < |c| { Neighbours(links, c, len); }
      }
      Neighbours(links, c, len);
    }
  }

  // In terms of the items behind a head: insert_before the head appends,
  // insert_after it prepends, and remove takes out.
  lemma HeadInsertions(l: int, items: seq<int>, n: int)
    ensures Inserted([l] + items, |items|, n) == [l] + (items + [n])
    ensures Inserted([l] + items, 0, n) == [l] + ([n] + items)
  {}

  lemma ItemRemoved(l: int, items: seq<int>, j: nat)
    requires j < |items| && NoDup(items)
    ensures var c := [l] + items; c[..j + 1] + c[j + 2..] == [l] + Remove(items, items[j])
  {
    hide Remove;
    RemoveAt(items, j);
    WithoutItem(l, items, j);
  }

  lemma WithoutItem(l: int, items: seq<int>, j: nat)
    requires j < |items|
    ensures var c := [l] + items; c[..j + 1] + c[j + 2..] == [l] + (items[..j] + items[j + 1..])
  {
    var c := [l] + items;
    assert c[..j + 1] == [l] + items[..j] && c[j + 2..] == items[j + 1..];
  }

  lemma RemoveAt(s: seq<int>, j: nat)
    requires j < |s| && NoDup(s)
    ensures Remove(s, s[j]) == s[..j] + s[j + 1..]
  {
    hide Remove;
    var i := RemoveSplit(s, s[j]);
    assert i == j;
  }
}
