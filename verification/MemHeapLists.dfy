// rt-thread/src/memheap.c: the two lists threaded through the block headers.
// All blocks form a circle in address order, closed by a guard block; the free
// ones form another, closed by the header inside struct rt_memheap.

module MemHeapLists {
  import opened Common
  import opened BlockLayout
  import opened RtList

  const FREE_HEADER: int := -1    // the address of memheap->free_header
  const NIL: int := -2            // RT_NULL

  // struct rt_memheap_item; magic is reduced to its used bit
  datatype Item = Item(used: bool, next: int, prev: int, nextFree: int, prevFree: int)

  type Items = map<int, Item>

  // --- the free list -------------------------------------------------------------

  function Circle(free: seq<int>): seq<int> {
    [FREE_HEADER] + free
  }

  ghost predicate FreeNode(m: Items, c: seq<int>, j: nat)
    requires j < |c|
  {
    c[j] in m && m[c[j]].nextFree == Succ(c, j) && m[c[j]].prevFree == Pred(c, j)
  }

  ghost predicate FreeRing(m: Items, free: seq<int>) {
    NoDup(Circle(free)) && forall j :: 0 <= j < |free| + 1 ==> FreeNode(m, Circle(free), j)
  }

  // Only the free links of the two maps differ.
  ghost predicate SameBlockLinks(m: Items, n: Items) {
    m.Keys == n.Keys && forall a :: a in m ==> BlockLinksAt(m, n, a)
  }

  ghost predicate BlockLinksAt(m: Items, n: Items, a: int)
    requires a in m && a in n
  {
    m[a].used == n[a].used && m[a].next == n[a].next && m[a].prev == n[a].prev
  }

  // Take x out of the free list.
  function FreeUnlinked(m: Items, x: int): Items
    requires x in m && m[x].nextFree in m && m[x].prevFree in m
  {
    var n := m[m[x].nextFree := m[m[x].nextFree].(prevFree := m[x].prevFree)];
    n[n[x].prevFree := n[n[x].prevFree].(nextFree := n[x].nextFree)]
  }

  lemma FreeNeighbours(m: Items, free: seq<int>, j: nat)
    requires FreeRing(m, free) && j < |free|
    ensures free[j] in m && m[free[j]].nextFree in m && m[free[j]].prevFree in m
    ensures free[j] != FREE_HEADER
    ensures m[free[j]].nextFree == Succ(Circle(free), j + 1) && m[free[j]].prevFree == Pred(Circle(free), j + 1)
    ensures m[free[j]].nextFree != free[j] && m[free[j]].prevFree != free[j]
  {
    var c := Circle(free);
    assert c[j + 1] == free[j] && FreeNode(m, c, j + 1);
    assert c[0] == FREE_HEADER && c[0] != c[j + 1];
    assert FreeNode(m, c, if j + 2 == |c| then 0 else j + 2) && FreeNode(m, c, j);
  }

  lemma FreeUnlinkedRing(m: Items, free: seq<int>, j: nat)
    requires FreeRing(m, free) && j < |free|
    ensures free[j] in m && m[free[j]].nextFree in m && m[free[j]].prevFree in m
    ensures FreeRing(FreeUnlinked(m, free[j]), free[..j] + free[j + 1..])
    ensures SameBlockLinks(m, FreeUnlinked(m, free[j]))
  {
    FreeNeighbours(m, free, j);
    var c, d := Circle(free), Circle(free[..j] + free[j + 1..]);
    var n := FreeUnlinked(m, free[j]);
    forall i | 0 <= i < |d| ensures FreeNode(n, d, i) {
      var k := if i <= j then i else i + 1;
      assert d[i] == c[k] && FreeNode(m, c, k);
    }
    forall i, k | 0 <= i < k < |d| ensures d[i] != d[k] {
      assert d[i] == c[if i <= j then i else i + 1] && d[k] == c[if k <= j then k else k + 1];
    }
  }

  // Put x in front of the free list.
  function FreePushed(m: Items, x: int): Items
    requires x in m && FREE_HEADER in m && m[FREE_HEADER].nextFree in m && x != FREE_HEADER
  {
    var first := m[FREE_HEADER].nextFree;
    var n := m[x := m[x].(nextFree := first, prevFree := FREE_HEADER)];
    var o := n[first := n[first].(prevFree := x)];
    o[FREE_HEADER := o[FREE_HEADER].(nextFree := x)]
  }

  lemma FreePushedRing(m: Items, free: seq<int>, x: int)
    requires FreeRing(m, free) && x in m && x !in Circle(free)
    ensures x != FREE_HEADER && FREE_HEADER in m && m[FREE_HEADER].nextFree in m
    ensures FreeRing(FreePushed(m, x), [x] + free)
    ensures SameBlockLinks(m, FreePushed(m, x))
  {
    var c, d := Circle(free), Circle([x] + free);
    assert FreeNode(m, c, 0) && FreeNode(m, c, if |c| == 1 then 0 else 1);
    assert c[0] == FREE_HEADER;
    var n := FreePushed(m, x);
    assert forall i :: 2 <= i < |d| ==> d[i] == c[i - 1];
    forall i | 0 <= i < |d| ensures FreeNode(n, d, i) {
      if i != 1 { assert FreeNode(m, c, if i == 0 then 0 else i - 1); }
    }
  }

  // --- the block list --------------------------------------------------------------

  function Starts(lay: seq<Block>): (r: seq<int>)
    ensures |r| == |lay| && forall i :: 0 <= i < |lay| ==> r[i] == lay[i].start
  {
    seq(|lay|, i requires 0 <= i < |lay| => lay[i].start)
  }

  // The circle of all blocks, guard included.
  function BlockCircle(lay: seq<Block>, end: nat): seq<int> {
    Starts(lay) + [end]
  }

  ghost predicate BlockNode(m: Items, c: seq<int>, j: nat)
    requires j < |c|
  {
    c[j] in m && m[c[j]].next == Succ(c, j) && m[c[j]].prev == Pred(c, j)
  }

  ghost predicate BlockRing(m: Items, c: seq<int>) {
    NoDup(c) && forall j :: 0 <= j < |c| ==> BlockNode(m, c, j)
  }

  // Only the block links of the two maps differ.
  ghost predicate SameFreeLinks(m: Items, n: Items) {
    forall a :: a in m ==> a in n && FreeLinksAt(m, n, a)
  }

  ghost predicate FreeLinksAt(m: Items, n: Items, a: int)
    requires a in m && a in n
  {
    m[a].used == n[a].used && m[a].nextFree == n[a].nextFree && m[a].prevFree == n[a].prevFree
  }

  // Take block x out of the block list.
  function BlockUnlinked(m: Items, x: int): Items
    requires x in m && m[x].next in m && m[x].prev in m
  {
    var n := m[m[x].next := m[m[x].next].(prev := m[x].prev)];
    n[n[x].prev := n[n[x].prev].(next := n[x].next)]
  }

  lemma BlockNeighbours(m: Items, c: seq<int>, j: nat)
    requires BlockRing(m, c) && j < |c| && |c| >= 2
    ensures c[j] in m && m[c[j]].next in m && m[c[j]].prev in m
    ensures m[c[j]].next == Succ(c, j) != c[j] && m[c[j]].prev == Pred(c, j) != c[j]
  {
    assert BlockNode(m, c, j);
    assert BlockNode(m, c, if j + 1 == |c| then 0 else j + 1);
    assert BlockNode(m, c, if j == 0 then |c| - 1 else j - 1);
  }

  lemma BlockUnlinkedRing(m: Items, c: seq<int>, j: nat)
    requires BlockRing(m, c) && j < |c| && |c| >= 2
    ensures c[j] in m && m[c[j]].next in m && m[c[j]].prev in m
    ensures BlockRing(BlockUnlinked(m, c[j]), c[..j] + c[j + 1..])
    ensures SameFreeLinks(m, BlockUnlinked(m, c[j]))
  {
    BlockNeighbours(m, c, j);
    var d, n := c[..j] + c[j + 1..], BlockUnlinked(m, c[j]);
    forall i | 0 <= i < |d| ensures BlockNode(n, d, i) {
      var k := if i < j then i else i + 1;
      assert d[i] == c[k] && BlockNode(m, c, k);
    }
    forall i, k | 0 <= i < k < |d| ensures d[i] != d[k] {
      assert d[i] == c[if i < j then i else i + 1] && d[k] == c[if k < j then k else k + 1];
    }
  }

  // Make x the header of a free block behind a.
  function BlockInserted(m: Items, a: int, x: int): Items
    requires a in m && m[a].next in m && x != a && x != m[a].next
  {
    var next := m[a].next;
    var n := m[x := Item(false, next, a, NIL, NIL)];
    var o := n[next := n[next].(prev := x)];
    o[a := o[a].(next := x)]
  }

  lemma BlockInsertedRing(m: Items, c: seq<int>, j: nat, x: int)
    requires BlockRing(m, c) && j < |c| && |c| >= 2 && x !in c
    ensures c[j] in m && m[c[j]].next in m && x != c[j] && x != m[c[j]].next
    ensures BlockRing(BlockInserted(m, c[j], x), c[..j + 1] + [x] + c[j + 1..])
    ensures x !in m ==> SameFreeLinks(m, BlockInserted(m, c[j], x))
  {
    BlockNeighbours(m, c, j);
    var d, n := c[..j + 1] + [x] + c[j + 1..], BlockInserted(m, c[j], x);
    assert forall i :: 0 <= i < |d| && i != j + 1 ==> d[i] == c[if i <= j then i else i - 1];
    forall i | 0 <= i < |d| ensures BlockNode(n, d, i) {
      if i != j + 1 { assert BlockNode(m, c, if i <= j then i else i - 1); }
    }
  }

  // --- both lists at once ------------------------------------------------------------

  ghost predicate Rings(m: Items, circle: seq<int>, free: seq<int>) {
    && BlockRing(m, circle) && FreeRing(m, free)
    && FREE_HEADER !in circle
    && forall a :: a in m <==> a == FREE_HEADER || a in circle
  }

  ghost predicate UsedKept(m: Items, n: Items) {
    forall a :: a in m && a in n ==> m[a].used == n[a].used
  }

  lemma BlockRingFrame(m: Items, n: Items, c: seq<int>)
    requires BlockRing(m, c) && SameBlockLinks(m, n)
    ensures BlockRing(n, c)
  {
    forall j | 0 <= j < |c| ensures BlockNode(n, c, j) { assert BlockNode(m, c, j) && BlockLinksAt(m, n, c[j]); }
  }

  lemma FreeRingFrame(m: Items, n: Items, free: seq<int>)
    requires FreeRing(m, free) && SameFreeLinks(m, n)
    ensures FreeRing(n, free)
  {
    var c := Circle(free);
    forall j | 0 <= j < |c| ensures FreeNode(n, c, j) { assert FreeNode(m, c, j) && FreeLinksAt(m, n, c[j]); }
  }

  // Items that are not in the free list may be given any links there, and any
  // item may change its used bit.
  lemma FreeRingOther(m: Items, n: Items, free: seq<int>)
    requires FreeRing(m, free)
    requires forall j :: 0 <= j < |free| + 1 ==> KeptFree(m, n, Circle(free)[j])
    ensures FreeRing(n, free)
  {
    var c := Circle(free);
    forall j | 0 <= j < |c| ensures FreeNode(n, c, j) {
      assert FreeNode(m, c, j) && KeptFree(m, n, c[j]);
    }
  }

  ghost predicate KeptFree(m: Items, n: Items, x: int) {
    x in m ==> x in n && n[x].nextFree == m[x].nextFree && n[x].prevFree == m[x].prevFree
  }
}
