// rt-thread/src/memheap.c: the allocator's operations, in place on the items.
// Sizes are in words of RT_ALIGN_SIZE bytes.

module MemHeap {
  import opened Common
  import opened BlockLayout
  import opened MemHeapLists

  const ITEM: nat := 6     // RT_MEMHEAP_SIZE
  const MINI: nat := 3     // RT_MEMHEAP_MINIALLOC

  function Payload(b: Block): nat {
    if b.len < ITEM then 0 else b.len - ITEM
  }

  ghost predicate Roomy(lay: seq<Block>) {
    forall i :: 0 <= i < |lay| ==> lay[i].len >= ITEM
  }

  // Block k keeps `words` of payload, and gets the flag u; a free block follows.
  function Split(lay: seq<Block>, k: nat, words: nat, u: bool): seq<Block>
    requires k < |lay| && Payload(lay[k]) >= words + ITEM
  {
    Cut(lay, k, ITEM - HEADER + words, u)
  }

  // The free list holds exactly the free blocks.
  ghost predicate Listed(lay: seq<Block>, free: seq<int>) {
    && (forall i :: 0 <= i < |lay| ==> ListedAt(lay, free, i))
    && (forall j :: 0 <= j < |free| ==> StartAt(lay, free, j))
  }

  ghost predicate StartAt(lay: seq<Block>, free: seq<int>, j: nat)
    requires j < |free|
  {
    free[j] in Starts(lay)
  }

  ghost predicate ListedAt(lay: seq<Block>, free: seq<int>, i: nat)
    requires i < |lay|
  {
    lay[i].start in free <==> !lay[i].used
  }

  ghost predicate FlagAt(m: Items, lay: seq<Block>, i: nat)
    requires i < |lay|
  {
    lay[i].start in m && m[lay[i].start].used == lay[i].used
  }

  ghost predicate Flags(m: Items, lay: seq<Block>, end: nat) {
    && end in m && m[end].used
    && forall i :: 0 <= i < |lay| ==> FlagAt(m, lay, i)
  }

  // The payload of all free blocks together.
  function FreeWords(lay: seq<Block>): nat {
    if lay == [] then 0
    else (if lay[0].used then 0 else Payload(lay[0])) + FreeWords(lay[1..])
  }

  // --- how layouts, starts and the free list move together --------------------------

  lemma StartsCut(lay: seq<Block>, k: nat, words: nat, u: bool)
    requires k < |lay| && lay[k].len >= 2 * HEADER + words
    ensures Starts(Cut(lay, k, words, u)) ==
      Starts(lay)[..k + 1] + [lay[k].start + HEADER + words] + Starts(lay)[k + 1..]
  {
    CutAt(lay, k, words, u);
    var r, s := Starts(Cut(lay, k, words, u)), Starts(lay);
    var t := s[..k + 1] + [lay[k].start + HEADER + words] + s[k + 1..];
    assert |r| == |t|;
    forall i | 0 <= i < |r| ensures r[i] == t[i] {
      if i > k + 1 { assert t[i] == s[i - 1]; }
    }
  }

  lemma CircleSplit(lay: seq<Block>, end: nat, k: nat, words: nat, u: bool)
    requires k < |lay| && Payload(lay[k]) >= words + ITEM
    ensures var c := BlockCircle(lay, end);
      BlockCircle(Split(lay, k, words, u), end) == c[..k + 1] + [lay[k].start + words + ITEM] + c[k + 1..]
  {
    StartsCut(lay, k, ITEM - HEADER + words, u);
  }

  lemma StartsMerged(lay: seq<Block>, k: nat)
    requires k + 1 < |lay|
    ensures Starts(Merged(lay, k)) == Starts(lay)[..k + 1] + Starts(lay)[k + 2..]
  {
    MergedAt(lay, k);
  }

  lemma StartsMarked(lay: seq<Block>, k: nat, u: bool)
    requires k < |lay|
    ensures Starts(lay[k := lay[k].(used := u)]) == Starts(lay)
  {}

  // Nothing starts strictly inside a block, and nothing starts at the guard.
  lemma InsideIsNoStart(lay: seq<Block>, end: nat, k: nat, x: int)
    requires Tiled(lay, end) && k < |lay| && lay[k].start < x < lay[k].start + lay[k].len
    ensures x !in BlockCircle(lay, end) && x != FREE_HEADER
  {
    forall i | 0 <= i < |lay| ensures lay[i].start != x { Apart(lay, end, i, k); }
    OrderedEnd(lay, end, k);
  }

  lemma {:induction false} FreeWordsAppend(a: seq<Block>, b: seq<Block>)
    ensures FreeWords(a + b) == FreeWords(a) + FreeWords(b)
  {
    if a == [] { assert a + b == b; }
    else { assert (a + b)[1..] == a[1..] + b; FreeWordsAppend(a[1..], b); }
  }

  function Worth(b: Block): nat {
    if b.used then 0 else Payload(b)
  }

  lemma FreeWordsOne(b: Block)
    ensures FreeWords([b]) == Worth(b)
  {}

  lemma FreeWordsUpdate(lay: seq<Block>, k: nat, b: Block)
    requires k < |lay|
    ensures FreeWords(lay[k := b]) == FreeWords(lay) - Worth(lay[k]) + Worth(b)
  {
    assert lay == lay[..k] + ([lay[k]] + lay[k + 1..]);
    assert lay[k := b] == lay[..k] + ([b] + lay[k + 1..]);
    FreeWordsAppend(lay[..k], [lay[k]] + lay[k + 1..]); FreeWordsAppend([lay[k]], lay[k + 1..]);
    FreeWordsAppend(lay[..k], [b] + lay[k + 1..]); FreeWordsAppend([b], lay[k + 1..]);
    FreeWordsOne(b); FreeWordsOne(lay[k]);
  }

  lemma FreeWordsMarked(lay: seq<Block>, k: nat, u: bool)
    requires k < |lay|
    ensures FreeWords(lay[k := lay[k].(used := u)]) == FreeWords(lay) - Worth(lay[k]) + Worth(lay[k].(used := u))
  {
    FreeWordsUpdate(lay, k, lay[k].(used := u));
  }

  // What is neither free nor header is in use.
  function TakenWords(lay: seq<Block>): nat {
    if lay == [] then 0 else (if lay[0].used then Payload(lay[0]) else 0) + TakenWords(lay[1..])
  }

  // Conservation: free words, words in use and a header for each block make up the
  // pool, whatever has been allocated, freed and merged.
  lemma {:induction false} FreeAndTaken(lay: seq<Block>, from: nat, end: nat)
    requires Roomy(lay) && (lay == [] ==> from == end) && (lay != [] ==> lay[0].start == from)
    requires forall i :: 0 <= i < |lay| ==> Abuts(lay, end, i)
    ensures FreeWords(lay) + TakenWords(lay) + ITEM * |lay| == end - from
  {
    if lay != [] {
      var rest := lay[1..];
      assert Abuts(lay, end, 0);
      forall i | 0 <= i < |rest| ensures Abuts(rest, end, i) && rest[i].len >= ITEM { assert Abuts(lay, end, i + 1); }
      FreeAndTaken(rest, if rest == [] then end else rest[0].start, end);
    }
  }

  // Two blocks in place of one, or one in place of two.
  lemma FreeWordsPair(a: seq<Block>, x: Block, y: Block, z: Block, c: seq<Block>)
    ensures FreeWords(a + [y, z] + c) == FreeWords(a + [x] + c) - Worth(x) + Worth(y) + Worth(z)
  {
    FreeWordsAppend(a + [x], c); FreeWordsAppend(a, [x]); FreeWordsOne(x);
    FreeWordsAppend(a + [y, z], c); FreeWordsAppend(a, [y, z]);
    FreeWordsAppend([y], [z]); FreeWordsOne(y); FreeWordsOne(z);
    assert [y] + [z] == [y, z];
  }

  lemma FreeWordsCut(lay: seq<Block>, k: nat, words: nat, u: bool)
    requires k < |lay| && lay[k].len >= 2 * HEADER + words
    ensures var r := Cut(lay, k, words, u);
      k + 1 < |r| && FreeWords(r) == FreeWords(lay) - Worth(lay[k]) + Worth(r[k]) + Worth(r[k + 1])
  {
    CutAt(lay, k, words, u);
    var r := Cut(lay, k, words, u);
    assert lay == lay[..k] + [lay[k]] + lay[k + 1..];
    assert r == lay[..k] + [r[k], r[k + 1]] + lay[k + 1..];
    FreeWordsPair(lay[..k], lay[k], r[k], r[k + 1], lay[k + 1..]);
  }

  lemma FreeWordsMerged(lay: seq<Block>, k: nat)
    requires k + 1 < |lay|
    ensures var r := Merged(lay, k);
      k < |r| && FreeWords(r) == FreeWords(lay) - Worth(lay[k]) - Worth(lay[k + 1]) + Worth(r[k])
  {
    MergedAt(lay, k);
    var r := Merged(lay, k);
    assert r == lay[..k] + [r[k]] + lay[k + 2..];
    assert lay == lay[..k] + [lay[k], lay[k + 1]] + lay[k + 2..];
    FreeWordsPair(lay[..k], r[k], lay[k], lay[k + 1], lay[k + 2..]);
  }

  // Both lists, the headers' used bits and the layout tell the same story.
  ghost predicate Consistent(m: Items, lay: seq<Block>, circle: seq<int>, free: seq<int>, end: nat) {
    && Rings(m, circle, free)
    && circle == BlockCircle(lay, end)
    && Sound(lay, end) && Roomy(lay)
    && Flags(m, lay, end) && Listed(lay, free)
  }

  // --- the operations on layouts -----------------------------------------------------

  // rt_memheap_alloc on block k
  function Granted(lay: seq<Block>, k: nat, words: nat): seq<Block>
    requires k < |lay| && Payload(lay[k]) >= words
  {
    if Payload(lay[k]) >= words + ITEM + MINI then Split(lay, k, words, true)
    else lay[k := lay[k].(used := true)]
  }

  // ... and on the free list, where the block stands at j
  function GrantedFree(lay: seq<Block>, free: seq<int>, k: nat, words: nat, j: nat): seq<int>
    requires k < |lay| && j < |free|
  {
    (if Payload(lay[k]) >= words + ITEM + MINI then [lay[k].start + ITEM + words] else [])
    + (free[..j] + free[j + 1..])
  }

  lemma GrantedKeeps(lay: seq<Block>, free: seq<int>, end: nat, k: nat, words: nat, j: nat)
    requires Sound(lay, end) && Roomy(lay) && Listed(lay, free) && NoDup(free)
    requires k < |lay| && !lay[k].used && Payload(lay[k]) >= words && j < |free| && free[j] == lay[k].start
    ensures Sound(Granted(lay, k, words), end) && Roomy(Granted(lay, k, words))
    ensures Listed(Granted(lay, k, words), GrantedFree(lay, free, k, words, j))
  {
    var r, f := Granted(lay, k, words), GrantedFree(lay, free, k, words, j);
    var w := ITEM - HEADER + words;
    var split := Payload(lay[k]) >= words + ITEM + MINI;
    if split {
      CutAt(lay, k, w, true);
      CutTiled(lay, end, k, w, true);
      CutNoHoles(lay, k, w);
      InsideIsNoStart(lay, end, k, lay[k].start + ITEM + words);
    } else {
      MarkedTiled(lay, end, k, true);
      forall i | 0 <= i < |r| - 1 ensures Solid(r, i) { assert Solid(lay, i); }
    }
    forall i | 0 <= i < |r| ensures ListedAt(r, f, i) {
      if !(split && i == k + 1) {
        var i0 := if split && i > k then i - 1 else i;
        assert ListedAt(lay, free, i0);
        WithoutOne(free, j, lay[i0].start);
        if i0 != k { if lay[i0].start == lay[k].start { StartsApart(lay, end, i0, k); } }
      }
    }
    forall n | 0 <= n < |f| ensures StartAt(r, f, n) {
      if f[n] in free {
        var n0 :| 0 <= n0 < |free| && free[n0] == f[n];
        assert StartAt(lay, free, n0);
        var i0 :| 0 <= i0 < |lay| && Starts(lay)[i0] == f[n];
        assert Starts(r)[if split && i0 > k then i0 + 1 else i0] == f[n];
      } else {
        assert split && Starts(r)[k + 1] == f[n];
      }
    }
  }

  lemma WithoutOne(free: seq<int>, j: nat, x: int)
    requires j < |free| && NoDup(free)
    ensures x in free[..j] + free[j + 1..] <==> x in free && x != free[j]
  {
    assert free == free[..j] + [free[j]] + free[j + 1..];
  }

  class Heap {
    var items: Items
    const size: nat          // pool_size
    const data: array<int>   // the words of the pool, for what callers keep in their blocks
    var available: int       // available_size
    var maxUsed: int         // max_used_size
    ghost var lay: seq<Block>
    ghost var circle: seq<int>
    ghost var free: seq<int>

    ghost function End(): nat {
      if size < ITEM then 0 else size - ITEM
    }

    ghost predicate Valid()
      reads this
    {
      && size >= 2 * ITEM && data.Length == size
      && Consistent(items, lay, circle, free, End())
      && available == FreeWords(lay)
      && size - available <= maxUsed
    }

    // rt_memheap_init on a region that holds its two headers
    constructor (words: nat)
      requires words >= 2 * ITEM
      ensures Valid() && size == words && fresh(data)
      ensures lay == [Block(0, words - ITEM, false)] && free == [0]
      ensures available == words - 2 * ITEM && maxUsed == 2 * ITEM
    {
      size := words;
      data := new int[words];
      available := words - 2 * ITEM;
      maxUsed := words - (words - 2 * ITEM);
      var first, guard := 0, words - ITEM;
      items := map[
        FREE_HEADER := Item(false, NIL, NIL, first, first),
        first := Item(false, guard, guard, FREE_HEADER, FREE_HEADER),
        guard := Item(true, first, first, NIL, NIL)];
      lay := [Block(0, words - ITEM, false)];
      circle := [0, words - ITEM];
      free := [0];
      new;
      assert Starts(lay) == [0];
      assert FreeWords(lay) == Payload(lay[0]) by { assert lay[1..] == []; }
    }

    // MEMITEM_SIZE
    method ItemSize(a: int, ghost k: nat) returns (n: nat)
      requires BlockRing(items, circle) && circle == BlockCircle(lay, End()) && Tiled(lay, End()) && Roomy(lay)
      requires k < |lay| && lay[k].start == a
      ensures n == Payload(lay[k])
    {
      assert BlockNode(items, circle, k) && circle[k] == a;
      assert Abuts(lay, End(), k);
      n := items[a].next - a - ITEM;
    }

    // A member of the free list is the start of a free block.
    lemma ListedBlock(j: nat) returns (k: nat)
      requires Valid() && j < |free|
      ensures k < |lay| && lay[k].start == free[j] && !lay[k].used
    {
      assert StartAt(lay, free, j);
      k :| 0 <= k < |lay| && Starts(lay)[k] == free[j];
      assert ListedAt(lay, free, k);
    }

    // x->next_free->prev_free = x->prev_free; x->prev_free->next_free = x->next_free
    method UnlinkFree(x: int, ghost j: nat)
      requires Rings(items, circle, free) && j < |free| && free[j] == x
      modifies `items, `free
      ensures Rings(items, circle, free) && free == old(free)[..j] + old(free)[j + 1..]
      ensures items.Keys == old(items).Keys && UsedKept(old(items), items)
    {
      FreeUnlinkedRing(items, free, j);
      BlockRingFrame(items, FreeUnlinked(items, x), circle);
      ghost var m := items;
      var next, prev := items[x].nextFree, items[x].prevFree;
      items := items[next := items[next].(prevFree := items[x].prevFree)];
      items := items[prev := items[prev].(nextFree := items[x].nextFree)];
      FreeNeighbours(m, free, j);
      assert items == FreeUnlinked(m, x);
      free := free[..j] + free[j + 1..];
      assert forall a :: a in m ==> BlockLinksAt(m, items, a);
    }

    // x is in no free list
    method ForgetFree(x: int)
      requires Rings(items, circle, free) && x in circle && x !in free
      modifies `items
      ensures Rings(items, circle, free)
      ensures items.Keys == old(items).Keys && UsedKept(old(items), items)
    {
      ghost var m := items;
      items := items[x := items[x].(nextFree := NIL, prevFree := NIL)];
      assert forall a :: a in m ==> BlockLinksAt(m, items, a);
      BlockRingFrame(m, items, circle);
      FreeRingOther(m, items, free);
    }

    // A block joins the free list at its front.
    method PushFree(x: int)
      requires Rings(items, circle, free) && x in circle && x !in free
      modifies `items, `free
      ensures Rings(items, circle, free) && free == [x] + old(free)
      ensures items.Keys == old(items).Keys && UsedKept(old(items), items)
    {
      FreePushedRing(items, free, x);
      BlockRingFrame(items, FreePushed(items, x), circle);
      ghost var m := items;
      var first := items[FREE_HEADER].nextFree;
      items := items[x := items[x].(nextFree := first, prevFree := FREE_HEADER)];
      items := items[first := items[first].(prevFree := x)];
      items := items[FREE_HEADER := items[FREE_HEADER].(nextFree := x)];
      free := [x] + free;
      assert forall a :: a in m ==> BlockLinksAt(m, items, a);
    }

    // x becomes the header of a free block behind a.
    method InsertBlock(a: int, x: int, ghost j: nat)
      requires Rings(items, circle, free) && j < |circle| && |circle| >= 2 && circle[j] == a
      requires x !in circle && x != FREE_HEADER
      modifies `items, `circle
      ensures Rings(items, circle, free) && circle == old(circle)[..j + 1] + [x] + old(circle)[j + 1..]
      ensures items.Keys == old(items).Keys + {x} && !items[x].used && UsedKept(old(items), items)
    {
      BlockInsertedRing(items, circle, j, x);
      FreeRingFrame(items, BlockInserted(items, a, x), free);
      ghost var m := items;
      var next := items[a].next;
      items := items[x := Item(false, next, a, NIL, NIL)];
      items := items[next := items[next].(prev := x)];
      items := items[a := items[a].(next := x)];
      circle := circle[..j + 1] + [x] + circle[j + 1..];
      assert forall b :: b in m ==> FreeLinksAt(m, items, b);
    }

    // x->next->prev = x->prev; x->prev->next = x->next, and x is a header no more
    method RemoveBlock(x: int, ghost j: nat)
      requires Rings(items, circle, free) && j < |circle| && |circle| >= 2 && circle[j] == x && x !in free
      modifies `items, `circle
      ensures Rings(items, circle, free) && circle == old(circle)[..j] + old(circle)[j + 1..]
      ensures UsedKept(old(items), items) && items.Keys == old(items).Keys - {x}
    {
      BlockUnlinkedRing(items, circle, j);
      BlockNeighbours(items, circle, j);
      FreeRingFrame(items, BlockUnlinked(items, x), free);
      ghost var m := items;
      var next, prev := items[x].next, items[x].prev;
      items := items[next := items[next].(prev := items[x].prev)];
      items := items[prev := items[prev].(next := items[x].next)];
      ghost var n := items;
      assert n == BlockUnlinked(m, x);
      assert forall b :: b in m ==> FreeLinksAt(m, n, b);
      items := items - {x};
      circle := circle[..j] + circle[j + 1..];
      DropHeader(n, circle, free, x);
    }

    // The search on the free list in rt_memheap_alloc.
    method SearchFree(words: nat) returns (found: bool, header: int, freeSize: nat, ghost j: nat, ghost k: nat)
      requires Valid() && words > 0
      ensures found ==> FirstInList(lay, free, words, j, k) && header == free[j] && freeSize == Payload(lay[k])
      ensures !found ==> forall i :: 0 <= i < |free| ==> TooSmall(lay, free[i], words)
    {
      ghost var c := Circle(free);
      assert FreeNode(items, c, 0) && c[0] == FREE_HEADER && |c| == |free| + 1;
      assert free != [] ==> c[1] == free[0];
      freeSize := 0;
      j, k := 0, 0;
      header := items[FREE_HEADER].nextFree;
      while header != FREE_HEADER && freeSize < words
        invariant j <= |free| && header == (if j < |free| then free[j] else FREE_HEADER)
        invariant forall i :: 0 <= i < j ==> TooSmall(lay, free[i], words)
        invariant freeSize >= words ==> FirstInList(lay, free, words, j, k) && freeSize == Payload(lay[k])
        decreases |free| - j, if freeSize < words then 1 else 0
      {
        assert FreeNode(items, c, j + 1) && c[j + 1] == free[j];
        assert j + 1 < |free| ==> c[j + 2] == free[j + 1];
        k := ListedBlock(j);
        freeSize := ItemSize(header, k);
        if freeSize < words {
          OnlyStart(lay, End(), k, words);
          assert TooSmall(lay, free[j], words);
          header := items[header].nextFree;
          j := j + 1;
        }
      }
      found := freeSize >= words;
      assert !found ==> j == |free| by {
        if j < |free| { assert c[j + 1] == free[j] && c[0] != c[j + 1]; }
      }
    }

    // available_size goes down, max_used_size may go up
    method Charge(n: int)
      modifies `available, `maxUsed
      ensures available == old(available) - n
      ensures maxUsed == Max(old(maxUsed), size - available)
    {
      available := available - n;
      if size - available > maxUsed {
        maxUsed := size - available;
      }
    }

    // The whole block leaves the free list.
    method WholeFree(header: int, ghost j: nat)
      requires Rings(items, circle, free) && j < |free| && free[j] == header
      modifies `items, `free
      ensures Rings(items, circle, free) && free == old(free)[..j] + old(free)[j + 1..]
      ensures items.Keys == old(items).Keys && UsedKept(old(items), items)
    {
      FreeMembers(items, free, header);
      WithoutOne(free, j, header);
      UnlinkFree(header, j);
      ForgetFree(header);
    }

    // The rest of a split becomes a free block of its own, and the block
    // leaves the free list.
    method SplitFree(header: int, rest: int, ghost j: nat, ghost k: nat)
      requires Rings(items, circle, free) && j < |free| && free[j] == header
      requires k < |circle| && |circle| >= 2 && circle[k] == header && rest !in circle && rest != FREE_HEADER
      modifies `items, `circle, `free
      ensures Rings(items, circle, free)
      ensures circle == old(circle)[..k + 1] + [rest] + old(circle)[k + 1..]
      ensures free == [rest] + (old(free)[..j] + old(free)[j + 1..])
      ensures UsedKept(old(items), items) && items.Keys == old(items).Keys + {rest} && !items[rest].used
    {
      FreeMembers(items, free, rest);
      WithoutOne(free, j, rest);
      InsertBlock(header, rest, k);
      WholeFree(header, j);
      PushFree(rest);
    }

    // Block k, listed at j, leaves the free list, whole or in part.
    method Withdraw(header: int, words: nat, freeSize: nat, ghost j: nat, ghost k: nat)
      requires Rings(items, circle, free) && circle == BlockCircle(lay, End()) && Tiled(lay, End())
      requires available == FreeWords(lay) && k < |lay| && !lay[k].used && lay[k].len >= ITEM
      requires j < |free| && header == free[j] == lay[k].start && words <= freeSize == Payload(lay[k])
      modifies `items, `circle, `free, `available, `maxUsed
      ensures Rings(items, circle, free) && circle == BlockCircle(Granted(lay, k, words), End())
      ensures free == GrantedFree(lay, old(free), k, words, j)
      ensures UsedKept(old(items), items) && old(items).Keys <= items.Keys
      ensures Payload(lay[k]) >= words + ITEM + MINI ==>
        var rest := lay[k].start + ITEM + words; rest in items && !items[rest].used
      ensures available == FreeWords(Granted(lay, k, words)) && maxUsed == Max(old(maxUsed), size - available)
    {
      hide FreeWords, Tiled, BlockRing, FreeRing;
      ghost var f0 := free;
      GrantedWorth(lay, k, words);
      GrantedCircle(lay, End(), k, words);
      if freeSize >= words + ITEM + MINI {
        SplitFree(header, header + words + ITEM, j, k);
        Charge(words + ITEM);
      } else {
        Charge(freeSize);
        WholeFree(header, j);
        assert free == [] + free;
      }
      assert free == GrantedFree(lay, f0, k, words, j);
    }

    // ... and becomes the caller's.
    method TakeFree(header: int, words: nat, freeSize: nat, ghost j: nat, ghost k: nat)
      requires Valid() && FirstInList(lay, free, words, j, k) && header == free[j] && freeSize == Payload(lay[k])
      modifies this
      ensures Valid() && lay == Granted(old(lay), k, words) && free == GrantedFree(old(lay), old(free), k, words, j)
      ensures maxUsed == Max(old(maxUsed), size - available)
    {
      ghost var m, f0 := items, free;
      assert FlagAt(m, lay, k);
      Withdraw(header, words, freeSize, j, k);
      ghost var n := items;
      GrantedStart(lay, k, words);
      MarkItem(header, true);
      GrantedConsistent(m, n, lay, circle, f0, End(), k, words, j);
      lay := Granted(lay, k, words);
    }

    // rt_memheap_alloc: first fit in the order of the free list, provided that the
    // request is smaller than all that is available.
    method Alloc(bytes: nat) returns (p: int)
      requires Valid()
      modifies this
      ensures Valid()
      ensures p == NIL <==>
        Request(bytes) >= old(available) || forall i :: 0 <= i < |old(lay)| ==> Refuses(old(lay)[i], Request(bytes))
      ensures p == NIL ==>
        && items == old(items) && lay == old(lay) && free == old(free)
        && available == old(available) && maxUsed == old(maxUsed)
      ensures p != NIL ==> GrantedTo(old(lay), old(free), Request(bytes), lay, free, p)
      ensures p == NIL <==> RefusedInBytes(old(lay), old(available), bytes)
      ensures p != NIL ==> GivenInBytes(lay, p, bytes)
      ensures maxUsed == Max(old(maxUsed), size - available)
    {
      RequestInBytes(lay, available, bytes);
      var words := (bytes + 3) / 4;
      if words < MINI {
        words := MINI;
      }
      if words < available {
        var found, header, freeSize, j, k := SearchFree(words);
        if found {
          assert !Refuses(lay[k], words);
          TakeFree(header, words, freeSize, j, k);
          assert GrantedAs(old(lay), old(free), words, lay, free, header + ITEM, j, k);
          GrantInBytes(old(lay), old(free), End(), bytes, lay, free, header + ITEM);
          return header + ITEM;
        }
        NoneFits(lay, free, words);
      }
      p := NIL;
    }

    // rt_memheap_free, the merge with the previous neighbour: the header is no more.
    method MergeLeft(header: int, ghost k: nat)
      requires 0 < k < |lay| && Pending(items, lay, circle, free, End(), header) && lay[k].start == header
      requires !lay[k - 1].used && !lay[k].used
      modifies `items, `circle, `lay
      ensures Pending(items, lay, circle, free, End(), NIL) && lay == Merged(old(lay), k - 1)
    {
      ghost var m := items;
      MergedCircle(lay, End(), k - 1);
      RemoveBlock(header, k);
      MergedPending(m, items, lay, circle, free, free, End(), k - 1, header);
      lay := Merged(lay, k - 1);
    }

    // The merge with the next neighbour, which leaves the free list. (The two
    // unlinkings touch different fields; their order does not matter.)
    method MergeRight(x: int, ghost k: nat, ghost pend: int)
      requires k + 1 < |lay| && Pending(items, lay, circle, free, End(), pend) && lay[k + 1].start == x
      requires !lay[k].used && !lay[k + 1].used && pend != x
      modifies `items, `circle, `free, `lay
      ensures Pending(items, lay, circle, free, End(), pend) && lay == Merged(old(lay), k)
      ensures free == Remove(old(free), x)
    {
      ghost var m, f0 := items, free;
      MergedCircle(lay, End(), k);
      assert ListedAt(lay, free, k + 1);
      ghost var j := RemoveSplit(free, x);
      FreeMembers(items, free, x);
      WithoutOne(free, j, x);
      UnlinkFree(x, j);
      RemoveBlock(x, k + 1);
      MergedPending(m, items, lay, circle, f0, free, End(), k, pend);
      lay := Merged(lay, k);
    }

    // The neighbours in the block list; the guard stands on both sides.
    method PrevOf(header: int, ghost k: nat, ghost pend: int) returns (prev: int)
      requires Pending(items, lay, circle, free, End(), pend) && k < |lay| && lay[k].start == header
      ensures prev in items && (!items[prev].used <==> FreeBefore(lay, k))
      ensures FreeBefore(lay, k) ==> prev == lay[k - 1].start
    {
      assert BlockNode(items, circle, k) && circle[k] == header;
      prev := items[header].prev;
      if k > 0 { assert FlagAt(items, lay, k - 1) && circle[k - 1] == lay[k - 1].start; }
    }

    method NextOf(header: int, ghost k: nat, ghost pend: int) returns (next: int)
      requires Pending(items, lay, circle, free, End(), pend) && k < |lay| && lay[k].start == header
      ensures next in items && (!items[next].used <==> FreeAfter(lay, k))
      ensures FreeAfter(lay, k) ==> next == lay[k + 1].start
    {
      assert BlockNode(items, circle, k) && circle[k] == header;
      next := items[header].next;
      if k + 1 < |lay| { assert FlagAt(items, lay, k + 1) && circle[k + 1] == lay[k + 1].start; }
    }

    // Block k's header says that it is free; it is in no list yet.
    method Release(header: int, ghost k: nat)
      requires Valid() && k < |lay| && lay[k].used && lay[k].start == header
      modifies `items, `available, `lay
      ensures Pending(items, lay, circle, free, End(), header) && lay == old(lay)[k := old(lay)[k].(used := false)]
      ensures available == FreeWords(lay) >= old(available)
    {
      ghost var m := items;
      assert BlockNode(items, circle, k) && circle[k] == header;
      var n := ItemSize(header, k);
      MarkItem(header, false);
      available := available + n;
      FreeWordsMarked(lay, k, false);
      MarkFlags(m, m, lay, End(), k, false);
      ReleasedListed(lay, free, End(), k);
      MarkedTiled(lay, End(), k, false);
      StartsMarked(lay, k, false);
      lay := lay[k := lay[k].(used := false)];
    }

    // Merge with the previous neighbour if that is free.
    method JoinLeft(header: int, ghost k: nat) returns (h: int, insertHeader: bool, ghost k1: nat)
      requires Pending(items, lay, circle, free, End(), header) && available == FreeWords(lay)
      requires k < |lay| && !lay[k].used && lay[k].start == header
      modifies `items, `circle, `lay, `available
      ensures insertHeader <==> !FreeBefore(old(lay), k)
      ensures if insertHeader then k1 == k && h == header && lay == old(lay)
        else k > 0 && k1 == k - 1 && h == old(lay)[k - 1].start && lay == Merged(old(lay), k - 1)
      ensures k1 < |lay| && !lay[k1].used && lay[k1].start == h
      ensures Pending(items, lay, circle, free, End(), if insertHeader then header else NIL)
      ensures available == FreeWords(lay) >= old(available)
    {
      var prev := PrevOf(header, k, header);
      h, insertHeader, k1 := header, true, k;
      if !items[prev].used {
        available := available + ITEM;
        FreeWordsMerged(lay, k - 1);
        MergedAt(lay, k - 1);
        MergeLeft(header, k);
        h, insertHeader, k1 := prev, false, k - 1;
      }
    }

    // Merge with the next neighbour if that is free.
    method JoinRight(header: int, ghost k: nat, ghost pend: int)
      requires Pending(items, lay, circle, free, End(), pend) && available == FreeWords(lay)
      requires k < |lay| && !lay[k].used && lay[k].start == header && pend in {header, NIL}
      modifies `items, `circle, `free, `lay, `available
      ensures lay == PluggedAhead(old(lay), k)
      ensures free == WithoutNext(old(lay), old(free), k)
      ensures Pending(items, lay, circle, free, End(), pend) && available == FreeWords(lay) >= old(available)
    {
      var next := NextOf(header, k, pend);
      if !items[next].used {
        available := available + ITEM;
        FreeWordsMerged(lay, k);
        MergedAt(lay, k);
        if k + 1 < |lay| && lay[k + 1].start == header { StartsApart(lay, End(), k, k + 1); }
        MergeRight(next, k, pend);
      }
    }

    // A block that did not merge backwards joins the free list.
    method Enlist(header: int, insertHeader: bool, ghost k: nat)
      requires Pending(items, lay, circle, free, End(), if insertHeader then header else NIL)
      requires NoHoles(lay) && k < |lay| && !lay[k].used && lay[k].start == header
      modifies `items, `free
      ensures Consistent(items, lay, circle, free, End())
      ensures free == if insertHeader then [header] + old(free) else old(free)
    {
      forall i | 0 <= i < |lay| && lay[i].start == lay[k].start ensures i == k { StartsApart(lay, End(), i, k); }
      NowListed(lay, free, if insertHeader then header else NIL, k);
      if insertHeader {
        ghost var m := items;
        assert BlockNode(items, circle, k) && circle[k] == header;
        PushFree(header);
        FlagsKept(m, items, lay, End());
      }
    }

    // The rest of rt_memheap_free, around the free block k.
    method Coalesce(block: int, ghost k: nat)
      requires Pending(items, lay, circle, free, End(), block) && available == FreeWords(lay)
      requires k < |lay| && !lay[k].used && lay[k].start == block && NoHoles(Plugged(lay, k))
      modifies `items, `circle, `free, `lay, `available
      ensures Consistent(items, lay, circle, free, End()) && available == FreeWords(lay) >= old(available)
      ensures lay == Plugged(old(lay), k) && free == FreedFree(old(lay), old(free), k)
    {
      MergeOrder(lay, k);
      var header, insertHeader, k1 := JoinLeft(block, k);
      JoinRight(header, k1, if insertHeader then header else NIL);
      PluggedHere(old(lay), k);
      Enlist(header, insertHeader, k1);
    }

    // rt_memheap_free. `k` is the caller's block.
    method Free(ptr: int, ghost k: nat)
      requires Valid()
      requires ptr != NIL ==> k < |lay| && lay[k].used && ptr == lay[k].start + ITEM
      modifies this
      ensures Valid() && maxUsed == old(maxUsed)
      ensures if ptr == NIL then
          items == old(items) && lay == old(lay) && free == old(free) && available == old(available)
        else
          lay == Freed(old(lay), k) && free == FreedFree(old(lay), old(free), k)
    {
      hide FreedFree, Plugged, Freed, FreeWords, Rings, Flags, Listed, Pending, Roomy, Tiled, NoHoles;
      if ptr == NIL {
        return;
      }
      FreedReleased(lay, free, End(), k);
      Release(ptr - ITEM, k);
      Coalesce(ptr - ITEM, k);
    }

    // rt_memheap_realloc, the branch that takes what it needs from the free
    // neighbour x: the links.
    method MoveBoundary(header: int, x: int, rest: int, ghost k: nat, ghost j: nat)
      requires Rings(items, circle, free) && j < |free| && free[j] == x
      requires k + 1 < |circle| && |circle| >= 3 && circle[k] == header && circle[k + 1] == x
      requires rest !in circle && rest != FREE_HEADER
      modifies `items, `circle, `free
      ensures Rings(items, circle, free)
      ensures circle == (old(circle)[..k + 1] + [rest] + old(circle)[k + 2..])
      ensures free == [rest] + (old(free)[..j] + old(free)[j + 1..])
      ensures UsedKept(old(items), items) && items.Keys == old(items).Keys - {x} + {rest} && !items[rest].used
    {
      ghost var c0 := circle;
      FreeMembers(items, free, x);
      FreeMembers(items, free, rest);
      WithoutOne(free, j, x);
      WithoutOne(free, j, rest);
      UnlinkFree(x, j);
      RemoveBlock(x, k + 1);
      InsertBlock(header, rest, k);
      PushFree(rest);
      assert c0[..k + 1] + c0[k + 2..] == (c0[..k + 1] + c0[k + 2..])[..k + 1] + c0[k + 2..];
    }

    method GrowInPlace(header: int, x: int, words: nat, ghost k: nat)
      requires Valid() && k < |lay| && lay[k].used && lay[k].start == header && words > Payload(lay[k])
      requires GrowsInPlace(lay, k, words) && x == lay[k + 1].start
      modifies this
      ensures Valid() && maxUsed == Max(old(maxUsed), size - available)
      ensures lay == Grown(old(lay), k, words)
      ensures free == [lay[k].start + ITEM + words] + Remove(old(free), x)
    {
      hide FreeWords, Flags, NoHoles;
      ghost var m, f0 := items, free;
      ghost var j := FindListed(lay, free, k + 1);
      GrownWords(lay, k, words);
      GrownCircle(lay, End(), k, words);
      var oldsize := ItemSize(header, k);
      Charge(words - oldsize);
      MoveBoundary(header, x, header + ITEM + words, k, j);
      GrownConsistent(m, items, lay, circle, f0, End(), k, words);
      lay := Grown(lay, k, words);
    }

    // rt_memheap_realloc, the branch that cuts the block short: the cut ...
    method CutOff(header: int, words: nat, ghost k: nat) returns (rest: int)
      requires Valid() && k < |lay| && lay[k].used && lay[k].start == header && Payload(lay[k]) > words + ITEM
      modifies `items, `circle, `lay
      ensures rest == header + words + ITEM && lay == Split(old(lay), k, words, true)
      ensures Pending(items, lay, circle, free, End(), rest)
    {
      rest := header + words + ITEM;
      ghost var m := items;
      InsideIsNoStart(lay, End(), k, rest);
      CircleSplit(lay, End(), k, words, true);
      FreeMembers(items, free, rest);
      InsertBlock(header, rest, k);
      SplitPending(m, items, lay, circle, free, End(), k, words);
      lay := Split(lay, k, words, true);
    }

    // ... and the merge of what was cut off with its next neighbour.
    method MergeRest(rest: int, ghost k: nat)
      requires Pending(items, lay, circle, free, End(), rest)
      requires k < |lay| && lay[k].start == rest && !lay[k].used
      modifies `items, `circle, `free, `lay, `available
      ensures Pending(items, lay, circle, free, End(), rest) && lay == PluggedAhead(old(lay), k)
      ensures free == WithoutNext(old(lay), old(free), k)
      ensures available == old(available) - if FreeAfter(old(lay), k) then Payload(old(lay)[k + 1]) else 0
    {
      var next := NextOf(rest, k, rest);
      if !items[next].used {
        var n := ItemSize(next, k + 1);
        available := available - n;
        if lay[k + 1].start == rest { StartsApart(lay, End(), k, k + 1); }
        MergeRight(next, k, rest);
      }
    }

    method CutAndMerge(header: int, words: nat, ghost k: nat) returns (rest: int)
      requires Valid() && k < |lay| && lay[k].used && lay[k].start == header && Payload(lay[k]) > words + ITEM
      modifies `items, `circle, `free, `lay, `available
      ensures rest == header + words + ITEM && lay == Shortened(old(lay), k, words)
      ensures k + 1 < |lay| && lay[k + 1].start == rest && !lay[k + 1].used
      ensures Pending(items, lay, circle, free, End(), rest)
      ensures free == WithoutNext(old(lay), old(free), k)
      ensures available == FreeWords(lay) - Payload(lay[k + 1])
      ensures available >= old(available) - Payload(lay[k + 1])
    {
      ShortenedKeeps(lay, End(), k, words);
      MergedHere(Split(lay, k, words, true), k + 1);
      rest := CutOff(header, words, k);
      MergeRest(rest, k + 1);
    }

    method Shrink(header: int, words: nat, ghost k: nat)
      requires Valid() && k < |lay| && lay[k].used && lay[k].start == header && Payload(lay[k]) > words + ITEM
      modifies `items, `circle, `free, `lay, `available
      ensures Valid() && lay == Shortened(old(lay), k, words)
      ensures free == [header + ITEM + words] +
        WithoutNext(old(lay), old(free), k)
    {
      hide FreeWords, Flags, Listed, Split, Plugged;
      ShortenedNoHoles(lay, End(), k, words);
      var rest := CutAndMerge(header, words, k);
      Enlist(rest, true, k + 1);
      var n := ItemSize(rest, k + 1);
      available := available + n;
    }

    // rt_memcpy between stretches that do not overlap
    method Copy(to: nat, from: nat, n: nat)
      requires to + n <= data.Length && from + n <= data.Length && (to + n <= from || from + n <= to)
      modifies data
      ensures data[to..to + n] == old(data[from..from + n])
      ensures forall x :: 0 <= x < data.Length && !(to <= x < to + n) ==> data[x] == old(data[x])
    {
      var i := 0;
      while i < n
        invariant i <= n
        invariant data[to..to + i] == old(data[from..from + i])
        invariant forall x :: 0 <= x < data.Length && !(to <= x < to + i) ==> data[x] == old(data[x])
      {
        assert !(to <= from + i < to + i);
        data[to + i] := data[from + i];
        i := i + 1;
      }
    }

    // The copy into a block just granted at p.
    method CopyPayload(p: int, ptr: int, n: nat, ghost words: nat, ghost k: nat,
      ghost l0: seq<Block>, ghost f0: seq<int>, ghost l1: seq<Block>, ghost f1: seq<int>)
      requires size >= ITEM && data.Length == size && Tiled(l0, End()) && GrantedTo(l0, f0, words, l1, f1, p)
      requires k < |l0| && l0[k].used && ptr == l0[k].start + ITEM && n == Min(Payload(l0[k]), words) && words > 0
      modifies data
      ensures PayloadMoved(old(data[..]), l0, k, data[..], p, words)
    {
      GrantedApart(l0, f0, words, l1, f1, p, End(), k);
      ghost var d := data[..];
      Copy(p, ptr, n);
      ghost var others := l0[k := l0[k].(used := false)];
      forall i | 0 <= i < |l0| ensures PayloadKeptAt(d, others, data[..], i) {
        if others[i].used { GrantedApart(l0, f0, words, l1, f1, p, End(), i); }
      }
      assert d[ptr..ptr + n] == old(data[ptr..ptr + n]);
    }

    // rt_memheap_realloc, once the block has a new place: copy and free.
    method Relocate(p: int, ptr: int, oldsize: nat, words: nat, ghost k: nat, ghost l0: seq<Block>, ghost f0: seq<int>)
      returns (ghost k1: nat)
      requires Valid() && Tiled(l0, End()) && GrantedTo(l0, f0, words, lay, free, p) && words > 0
      requires k < |l0| && l0[k].used && ptr == l0[k].start + ITEM && oldsize == Payload(l0[k])
      modifies this, data
      ensures Valid() && maxUsed == old(maxUsed)
      ensures MovedVia(l0, f0, k, words, lay, free, p, old(lay), old(free), k1)
      ensures PayloadMoved(old(data[..]), l0, k, data[..], p, words)
    {
      ghost var l1, f1 := lay, free;
      k1 := GrantedBlock(l0, f0, words, l1, f1, p, k);
      CopyPayload(p, ptr, if oldsize < words then oldsize else words, words, k, l0, f0, l1, f1);
      Free(ptr, k1);
    }

    // rt_memheap_realloc, when the block has to move.
    method Move(ptr: int, words: nat, ghost k: nat) returns (p: int)
      requires Valid() && k < |lay| && lay[k].used && ptr == lay[k].start + ITEM && words >= MINI
      modifies this, data
      ensures Valid()
      ensures p == NIL <==>
        words >= old(available) || forall i :: 0 <= i < |old(lay)| ==> Refuses(old(lay)[i], words)
      ensures p == NIL ==>
        && items == old(items) && lay == old(lay) && free == old(free) && available == old(available)
        && maxUsed == old(maxUsed) && data[..] == old(data[..])
      ensures p != NIL ==>
        && MovedTo(old(lay), old(free), k, words, lay, free, p, size, old(maxUsed), maxUsed)
        && PayloadMoved(old(data[..]), old(lay), k, data[..], p, words)
    {
      hide BlockRing, FreeRing, Flags, Listed, Roomy, NoHoles, PayloadMoved, MovedVia, GrantedTo, FreeWords;
      ghost var l0, f0 := lay, free;
      assert Request(4 * words) == words;
      var oldsize := ItemSize(ptr - ITEM, k);
      p := Alloc(4 * words);
      if p != NIL {
        ghost var l1, f1 := lay, free;
        ghost var k1 := Relocate(p, ptr, oldsize, words, k, l0, f0);
        assert MovedVia(l0, f0, k, words, lay, free, p, l1, f1, k1);
      }
    }

    // Grow into the free neighbour, if there is one and it is large enough.
    method TryGrow(header: int, oldsize: nat, words: nat, ghost k: nat) returns (done: bool)
      requires Valid() && k < |lay| && lay[k].used && lay[k].start == header && Payload(lay[k]) == oldsize < words
      modifies this
      ensures Valid() && (done <==> GrowsInPlace(old(lay), k, words))
      ensures maxUsed == Max(old(maxUsed), size - available)
      ensures if done then
          && lay == Grown(old(lay), k, words)
          && free == [header + ITEM + words] + Remove(old(free), old(lay)[k + 1].start)
        else items == old(items) && lay == old(lay) && free == old(free) && available == old(available)
    {
      NilIsNoStart(lay, free);
      var next := NextOf(header, k, NIL);
      if !items[next].used {
        var nextsize := ItemSize(next, k + 1);
        if nextsize + oldsize > words + MINI {
          GrowInPlace(header, next, words, k);
          return true;
        }
      }
      return false;
    }

    // Cut the block short, unless the rest is too small for a block of its own.
    method TryShrink(header: int, oldsize: nat, words: nat, ghost k: nat)
      requires Valid() && k < |lay| && lay[k].used && lay[k].start == header && Payload(lay[k]) == oldsize >= words
      modifies `items, `circle, `free, `lay, `available
      ensures Valid()
      ensures lay == if words + ITEM + MINI >= oldsize then old(lay) else Shortened(old(lay), k, words)
      ensures free == if words + ITEM + MINI >= oldsize then old(free) else
        [header + ITEM + words] + WithoutNext(old(lay), old(free), k)
    {
      if words + ITEM + MINI < oldsize {
        Shrink(header, words, k);
      }
    }

    // The part of rt_memheap_realloc that leaves the block where it is.
    method ResizeInPlace(ptr: int, words: nat, ghost k: nat) returns (done: bool)
      requires Valid() && k < |lay| && lay[k].used && ptr == lay[k].start + ITEM
      modifies this
      ensures Valid() && (done <==> !Moves(old(lay), k, words))
      ensures maxUsed == Max(old(maxUsed), size - available)
      ensures if done then lay == Resized(old(lay), k, words) && free == ResizedFree(old(lay), old(free), k, words)
        else items == old(items) && lay == old(lay) && free == old(free) && available == old(available)
    {
      var header := ptr - ITEM;
      var oldsize := ItemSize(header, k);
      ResizedCases(lay, free, k, words);
      if words > oldsize {
        done := TryGrow(header, oldsize, words, k);
      } else {
        TryShrink(header, oldsize, words, k);
        done := true;
      }
    }

    // rt_memheap_realloc of a live block to a size that is not 0
    method Resize(ptr: int, words: nat, ghost k: nat) returns (p: int)
      requires Valid() && k < |lay| && lay[k].used && ptr == lay[k].start + ITEM && words >= MINI
      modifies this, data
      ensures Valid()
      ensures PayloadMoved(old(data[..]), old(lay), k, data[..], p, words)
      ensures p == NIL ==>
        && items == old(items) && lay == old(lay) && free == old(free) && available == old(available)
        && maxUsed == old(maxUsed) && data[..] == old(data[..])
        && (words >= available || forall i :: 0 <= i < |lay| ==> Refuses(lay[i], words))
      ensures !Moves(old(lay), k, words) ==>
        && p == ptr && lay == Resized(old(lay), k, words) && free == ResizedFree(old(lay), old(free), k, words)
        && maxUsed == Max(old(maxUsed), size - available)
      ensures Moves(old(lay), k, words) && p != NIL ==>
        MovedTo(old(lay), old(free), k, words, lay, free, p, size, old(maxUsed), maxUsed)
    {
      StaysPut(data[..], lay, End(), k, words);
      var done := ResizeInPlace(ptr, words, k);
      if done {
        return ptr;
      }
      p := Move(ptr, words, k);
    }

    // rt_memheap_realloc. `k` is the caller's block.
    method Realloc(ptr: int, bytes: nat, ghost k: nat) returns (p: int)
      requires Valid()
      requires ptr != NIL ==> k < |lay| && lay[k].used && ptr == lay[k].start + ITEM
      modifies this, data
      ensures Valid()
      ensures ptr == NIL ==> PayloadKept(old(data[..]), old(lay), data[..])
      ensures ptr != NIL ==> PayloadMoved(old(data[..]), old(lay), k, data[..], p, Request(bytes))
      ensures bytes == 0 ==> p == NIL && maxUsed == old(maxUsed)
      ensures bytes == 0 && ptr != NIL ==> lay == Freed(old(lay), k) && free == FreedFree(old(lay), old(free), k)
      ensures bytes != 0 && ptr == NIL && p != NIL ==>
        && GrantedTo(old(lay), old(free), Request(bytes), lay, free, p)
        && maxUsed == Max(old(maxUsed), size - available)
      ensures p == NIL && (bytes != 0 || ptr == NIL) ==>
        && items == old(items) && lay == old(lay) && free == old(free) && available == old(available)
        && maxUsed == old(maxUsed) && data[..] == old(data[..])
      ensures bytes != 0 && p == NIL ==>
        Request(bytes) >= old(available) || forall i :: 0 <= i < |old(lay)| ==> Refuses(old(lay)[i], Request(bytes))
      ensures bytes != 0 && ptr != NIL && !Moves(old(lay), k, Request(bytes)) ==>
        && p == ptr && lay == Resized(old(lay), k, Request(bytes))
        && free == ResizedFree(old(lay), old(free), k, Request(bytes))
        && maxUsed == Max(old(maxUsed), size - available)
      ensures bytes != 0 && ptr != NIL && Moves(old(lay), k, Request(bytes)) && p != NIL ==>
        MovedTo(old(lay), old(free), k, Request(bytes), lay, free, p, size, old(maxUsed), maxUsed)
      ensures p == NIL ==> bytes == 0 || RefusedInBytes(old(lay), old(available), bytes)
      ensures p != NIL ==> GivenInBytes(lay, p, bytes)
      ensures ptr != NIL && bytes != 0 ==> (p == ptr <==> KeepsPlace(old(lay), k, bytes))
      ensures ptr != NIL && p != NIL ==> BytesMoved(old(data[..]), ptr, 4 * Payload(old(lay)[k]), data[..], p, bytes)
    {
      hide RefusedInBytes, GivenInBytes, KeepsPlace, BytesMoved, PayloadKept, PayloadMoved, Rings, Flags, Listed,
        FreeWords, Freed, FreedFree, Resized, ResizedFree, MovedTo, GrantedTo;
      ghost var l0, f0, d0 := lay, free, data[..];
      RequestInBytes(lay, available, bytes);
      if ptr == NIL {
        AllKept(data[..], lay, End());
      } else {
        StaysPut(data[..], lay, End(), k, Request(bytes));
      }
      if bytes == 0 {
        Free(ptr, k);
        return NIL;
      }
      var words := Request(bytes);
      if ptr == NIL {
        assert Request(4 * words) == words;
        p := Alloc(4 * words);
        if p != NIL { GrantInBytes(l0, f0, End(), bytes, lay, free, p); }
      } else {
        MovesInBytes(l0, End(), k, bytes);
        p := Resize(ptr, words, k);
        if p != NIL {
          PlaceInBytes(l0, f0, End(), k, bytes, lay, free, p, size, old(maxUsed), maxUsed);
          ResizeInBytes(l0, f0, End(), k, bytes, lay, free, p, size, old(maxUsed), maxUsed);
          MovedInBytes(d0, l0, k, data[..], p, bytes);
        }
      }
    }

    // Set or clear the used bit.
    method MarkItem(a: int, u: bool)
      requires Rings(items, circle, free) && a in circle
      modifies `items
      ensures Rings(items, circle, free) && items == old(items)[a := old(items)[a].(used := u)]
    {
      ghost var m := items;
      items := items[a := items[a].(used := u)];
      assert forall b :: b in m ==> b in items && m[b].next == items[b].next && m[b].prev == items[b].prev;
      forall i | 0 <= i < |circle| ensures BlockNode(items, circle, i) { assert BlockNode(m, circle, i); }
      FreeRingOther(m, items, free);
    }
  }

  // Every live block of lay lies in the pool and holds in d1 what it holds in d0.
  ghost predicate PayloadKept(d0: seq<int>, lay: seq<Block>, d1: seq<int>) {
    |d0| == |d1| && forall i :: 0 <= i < |lay| ==> PayloadKeptAt(d0, lay, d1, i)
  }

  ghost predicate PayloadKeptAt(d0: seq<int>, lay: seq<Block>, d1: seq<int>, i: nat)
    requires i < |lay| && |d0| == |d1|
  {
    lay[i].used ==>
      && lay[i].start + lay[i].len <= |d0|
      && forall x :: lay[i].start + ITEM <= x < lay[i].start + lay[i].len ==> d0[x] == d1[x]
  }

  // Block k has moved to p (or is where it was, if p is NIL): what fits of its
  // payload is there, and no other live block has changed.
  ghost predicate PayloadMoved(d0: seq<int>, lay: seq<Block>, k: nat, d1: seq<int>, p: int, words: nat)
    requires k < |lay|
  {
    var n, ptr := Min(Payload(lay[k]), words), lay[k].start + ITEM;
    && PayloadKept(d0, lay[k := lay[k].(used := false)], d1)
    && (p != NIL ==> 0 <= p && p + n <= |d1| && ptr + n <= |d0| && d1[p..p + n] == d0[ptr..ptr + n])
  }

  lemma AllKept(d: seq<int>, lay: seq<Block>, end: nat)
    requires Tiled(lay, end) && end <= |d|
    ensures PayloadKept(d, lay, d)
  {
    forall i | 0 <= i < |lay| ensures PayloadKeptAt(d, lay, d, i) { OrderedEnd(lay, end, i); }
  }

  lemma StaysPut(d: seq<int>, lay: seq<Block>, end: nat, k: nat, words: nat)
    requires Tiled(lay, end) && end + ITEM <= |d| && k < |lay|
    ensures PayloadMoved(d, lay, k, d, NIL, words)
    ensures PayloadMoved(d, lay, k, d, lay[k].start + ITEM, words)
  {
    MarkedTiled(lay, end, k, false);
    AllKept(d, lay[k := lay[k].(used := false)], end);
    OrderedEnd(lay, end, k);
  }

  // A block granted lies apart from every live block.
  lemma GrantedApart(l0: seq<Block>, f0: seq<int>, words: nat, l1: seq<Block>, f1: seq<int>, p: int, end: nat, k: nat)
    requires GrantedTo(l0, f0, words, l1, f1, p) && Tiled(l0, end) && k < |l0| && l0[k].used && words > 0
    ensures 0 <= p && p + words <= end && l0[k].start + l0[k].len <= end
    ensures p + words <= l0[k].start || l0[k].start + l0[k].len <= p
  {
    var j: nat, g: nat :| GrantedAs(l0, f0, words, l1, f1, p, j, g);
    Apart(l0, end, g, k);
  }

  // Does realloc of block k to `words` have to look for another block?
  predicate Moves(lay: seq<Block>, k: nat, words: nat)
    requires k < |lay|
  {
    words > Payload(lay[k]) && !GrowsInPlace(lay, k, words)
  }

  // What realloc in place does to the layout and to the free list.
  function Resized(lay: seq<Block>, k: nat, words: nat): seq<Block>
    requires k < |lay| && !Moves(lay, k, words)
  {
    if words > Payload(lay[k]) then Grown(lay, k, words)
    else if words + ITEM + MINI >= Payload(lay[k]) then lay
    else Shortened(lay, k, words)
  }

  function ResizedFree(lay: seq<Block>, free: seq<int>, k: nat, words: nat): seq<int>
    requires k < |lay|
  {
    var rest := [lay[k].start + ITEM + words];
    var others := WithoutNext(lay, free, k);
    if words <= Payload(lay[k]) <= words + ITEM + MINI then free else rest + others
  }

  lemma ResizedCases(lay: seq<Block>, free: seq<int>, k: nat, words: nat)
    requires k < |lay|
    ensures words > Payload(lay[k]) ==> (Moves(lay, k, words) <==> !GrowsInPlace(lay, k, words))
    ensures words > Payload(lay[k]) && GrowsInPlace(lay, k, words) ==>
      && Resized(lay, k, words) == Grown(lay, k, words)
      && ResizedFree(lay, free, k, words) == [lay[k].start + ITEM + words] + Remove(free, lay[k + 1].start)
    ensures words <= Payload(lay[k]) ==>
      && !Moves(lay, k, words)
      && Resized(lay, k, words) ==
        (if words + ITEM + MINI >= Payload(lay[k]) then lay else Shortened(lay, k, words))
      && ResizedFree(lay, free, k, words) ==
        if words + ITEM + MINI >= Payload(lay[k]) then free else
        [lay[k].start + ITEM + words] + WithoutNext(lay, free, k)
  {}

  // A block has been granted at p, and then block k, which stood at k1, freed.
  ghost predicate MovedVia(l0: seq<Block>, f0: seq<int>, k: nat, words: nat, l2: seq<Block>, f2: seq<int>, p: int,
    l1: seq<Block>, f1: seq<int>, k1: nat)
  {
    && GrantedTo(l0, f0, words, l1, f1, p)
    && k < |l0| && k1 < |l1| && l1[k1] == l0[k]
    && l2 == Freed(l1, k1) && f2 == FreedFree(l1, f1, k1)
  }

  // ... and max_used_size went from m0 to m1: it is looked at once, while both
  // blocks are taken.
  ghost predicate MovedTo(l0: seq<Block>, f0: seq<int>, k: nat, words: nat, l2: seq<Block>, f2: seq<int>, p: int,
    size: nat, m0: int, m1: int)
  {
    exists l1: seq<Block>, f1: seq<int>, k1: nat ::
      MovedVia(l0, f0, k, words, l2, f2, p, l1, f1, k1) && m1 == Max(m0, size - FreeWords(l1))
  }

  // Granting a block leaves the other blocks where they are.
  lemma GrantedBlock(l0: seq<Block>, f0: seq<int>, words: nat, l1: seq<Block>, f1: seq<int>, p: int, k: nat)
    returns (k1: nat)
    requires GrantedTo(l0, f0, words, l1, f1, p) && k < |l0| && l0[k].used
    ensures k1 < |l1| && l1[k1] == l0[k]
  {
    var j: nat, g: nat :| GrantedAs(l0, f0, words, l1, f1, p, j, g);
    if Payload(l0[g]) >= words + ITEM + MINI {
      CutAt(l0, g, ITEM - HEADER + words, true);
      k1 := if g < k then k + 1 else k;
    } else {
      k1 := k;
    }
  }

  // realloc to a smaller size, when the rest is worth a block
  function Shortened(lay: seq<Block>, k: nat, words: nat): seq<Block>
    requires k < |lay| && Payload(lay[k]) > words + ITEM
  {
    Plugged(Split(lay, k, words, true), k + 1)
  }

  lemma ShortenedKeeps(lay: seq<Block>, end: nat, k: nat, words: nat)
    requires Sound(lay, end) && Roomy(lay) && k < |lay| && lay[k].used && Payload(lay[k]) > words + ITEM
    ensures var l1, r := Split(lay, k, words, true), Shortened(lay, k, words);
      && Tiled(l1, end) && Roomy(l1) && NoHoles(r)
      && |l1| == |lay| + 1 && !l1[k + 1].used && l1[k + 1].start == lay[k].start + ITEM + words
      && l1[k].used && FreeAfter(l1, k + 1) == FreeAfter(lay, k)
      && (FreeAfter(lay, k) ==> l1[k + 2] == lay[k + 1])
      && r == PluggedAhead(l1, k + 1) && k + 1 < |r|
      && FreeWords(r) == FreeWords(lay) - (if FreeAfter(lay, k) then Payload(lay[k + 1]) else 0) + Payload(r[k + 1])
  {
    hide FreeWords, Cut, Merged;
    var w := ITEM - HEADER + words;
    var l1 := Split(lay, k, words, true);
    CutAt(lay, k, w, true);
    CutTiled(lay, end, k, w, true);
    ShrunkSound(lay, end, k, w);
    FreeWordsCut(lay, k, w, true);
    assert PluggedAhead(l1, k + 1)[k].used by {
      if FreeAfter(l1, k + 1) { MergedAt(l1, k + 1); }
    }
    if FreeAfter(lay, k) {
      MergedAt(l1, k + 1);
      FreeWordsMerged(l1, k + 1);
    }
  }

  lemma ShortenedNoHoles(lay: seq<Block>, end: nat, k: nat, words: nat)
    requires Sound(lay, end) && k < |lay| && lay[k].used && Payload(lay[k]) > words + ITEM
    ensures NoHoles(Shortened(lay, k, words))
  {
    ShrunkSound(lay, end, k, ITEM - HEADER + words);
  }

  lemma MergedHere(lay: seq<Block>, k: nat)
    requires k < |lay| && !lay[k].used
    ensures var r := PluggedAhead(lay, k); k < |r| && r[k].start == lay[k].start && !r[k].used
  {
    if FreeAfter(lay, k) { MergedAt(lay, k); }
  }

  lemma SplitListed(lay: seq<Block>, free: seq<int>, end: nat, k: nat, words: nat)
    requires Listed(lay, free) && k < |lay| && lay[k].used && Payload(lay[k]) > words + ITEM
    requires lay[k].start + ITEM + words !in BlockCircle(lay, end)
    ensures ListedBut(Split(lay, k, words, true), free, lay[k].start + ITEM + words)
  {
    var r, rest := Split(lay, k, words, true), lay[k].start + ITEM + words;
    CutAt(lay, k, ITEM - HEADER + words, true);
    forall i | 0 <= i < |r| && r[i].start != rest ensures ListedAt(r, free, i) {
      assert ListedAt(lay, free, if i <= k then i else i - 1);
    }
    forall j | 0 <= j < |free| ensures StartAt(r, free, j) && free[j] != rest {
      assert StartAt(lay, free, j);
      var i :| 0 <= i < |lay| && Starts(lay)[i] == free[j];
      assert BlockCircle(lay, end)[i] == free[j];
      assert Starts(r)[if i <= k then i else i + 1] == free[j];
    }
  }

  lemma CutFlags(m: Items, n: Items, lay: seq<Block>, end: nat, k: nat, words: nat)
    requires Flags(m, lay, end) && k < |lay| && lay[k].used && Payload(lay[k]) > words + ITEM
    requires UsedKept(m, n) && m.Keys <= n.Keys
    requires var rest := lay[k].start + ITEM + words; rest in n && !n[rest].used
    ensures Flags(n, Split(lay, k, words, true), end)
  {
    var r := Split(lay, k, words, true);
    CutAt(lay, k, ITEM - HEADER + words, true);
    assert FlagAt(m, lay, k);
    forall i | 0 <= i < |r| ensures FlagAt(n, r, i) {
      if i != k + 1 { assert FlagAt(m, lay, if i <= k then i else i - 1); }
    }
  }

  lemma SplitPending(m: Items, n: Items, lay: seq<Block>, circle: seq<int>, free: seq<int>, end: nat, k: nat,
    words: nat)
    requires Consistent(m, lay, BlockCircle(lay, end), free, end)
    requires k < |lay| && lay[k].used && Payload(lay[k]) > words + ITEM
    requires UsedKept(m, n) && m.Keys <= n.Keys
    requires var rest := lay[k].start + ITEM + words; rest in n && !n[rest].used && rest !in BlockCircle(lay, end)
    requires Rings(n, circle, free) && circle == BlockCircle(Split(lay, k, words, true), end)
    ensures Pending(n, Split(lay, k, words, true), circle, free, end, lay[k].start + ITEM + words)
  {
    CutAt(lay, k, ITEM - HEADER + words, true);
    CutTiled(lay, end, k, ITEM - HEADER + words, true);
    CutFlags(m, n, lay, end, k, words);
    SplitListed(lay, free, end, k, words);
  }

  // Is the free block behind block k large enough to give it `words` of payload?
  predicate GrowsInPlace(lay: seq<Block>, k: nat, words: nat)
    requires k < |lay|
  {
    FreeAfter(lay, k) && Payload(lay[k + 1]) + Payload(lay[k]) > words + MINI
  }

  // Block k with `words` of payload, its free neighbour that much shorter.
  function Grown(lay: seq<Block>, k: nat, words: nat): seq<Block>
    requires k + 1 < |lay|
  {
    var b, c := lay[k], lay[k + 1];
    var len := if b.len + c.len < ITEM + words then 0 else b.len + c.len - ITEM - words;
    lay[k := Block(b.start, ITEM + words, true)][k + 1 := Block(b.start + ITEM + words, len, false)]
  }

  lemma GrownSound(lay: seq<Block>, end: nat, k: nat, words: nat)
    requires Sound(lay, end) && Roomy(lay) && k < |lay| && GrowsInPlace(lay, k, words)
    ensures Sound(Grown(lay, k, words), end) && Roomy(Grown(lay, k, words))
  {
    var r := Grown(lay, k, words);
    assert Abuts(lay, end, k) && Abuts(lay, end, k + 1);
    forall i | 0 <= i < |r| ensures Abuts(r, end, i) { assert Abuts(lay, end, i); }
    forall i | 0 <= i < |r| - 1 ensures Solid(r, i) { assert Solid(lay, i); }
  }

  lemma GrownWords(lay: seq<Block>, k: nat, words: nat)
    requires Roomy(lay) && k < |lay| && lay[k].used && GrowsInPlace(lay, k, words)
    ensures FreeWords(Grown(lay, k, words)) == FreeWords(lay) - (words - Payload(lay[k]))
  {
    var r := Grown(lay, k, words);
    FreeWordsUpdate(lay, k, r[k]);
    FreeWordsUpdate(lay[k := r[k]], k + 1, r[k + 1]);
  }

  lemma GrownCircle(lay: seq<Block>, end: nat, k: nat, words: nat)
    requires Tiled(lay, end) && k + 1 < |lay| && words > Payload(lay[k]) && lay[k].len >= ITEM
    requires GrowsInPlace(lay, k, words) && lay[k + 1].len >= ITEM
    ensures var c, rest := BlockCircle(lay, end), lay[k].start + ITEM + words;
      && rest !in c && rest != FREE_HEADER
      && |c| >= 3 && c[k] == lay[k].start && c[k + 1] == lay[k + 1].start
      && BlockCircle(Grown(lay, k, words), end) == c[..k + 1] + [rest] + c[k + 2..]
  {
    assert Abuts(lay, end, k);
    InsideIsNoStart(lay, end, k + 1, lay[k].start + ITEM + words);
    assert Starts(Grown(lay, k, words)) ==
      Starts(lay)[..k + 1] + [lay[k].start + ITEM + words] + Starts(lay)[k + 2..];
  }

  lemma GrownFlags(m: Items, n: Items, lay: seq<Block>, end: nat, k: nat, words: nat)
    requires Tiled(lay, end) && Flags(m, lay, end) && k + 1 < |lay| && lay[k].used && UsedKept(m, n)
    requires var rest := lay[k].start + ITEM + words;
      n.Keys == m.Keys - {lay[k + 1].start} + {rest} && !n[rest].used
      && rest !in BlockCircle(lay, end)
    ensures Flags(n, Grown(lay, k, words), end)
  {
    var r, x := Grown(lay, k, words), lay[k + 1].start;
    OrderedEnd(lay, end, k + 1);
    assert Abuts(lay, end, k + 1);
    forall i | 0 <= i < |r| ensures FlagAt(n, r, i) {
      if i != k + 1 {
        assert FlagAt(m, lay, i);
        if lay[i].start == x { StartsApart(lay, end, i, k + 1); }
      }
    }
  }

  lemma GrownListed(lay: seq<Block>, free: seq<int>, end: nat, k: nat, words: nat)
    requires Tiled(lay, end) && Listed(lay, free) && NoDup(free) && k + 1 < |lay| && lay[k].used && !lay[k + 1].used
    requires lay[k].start + ITEM + words !in BlockCircle(lay, end)
    ensures Listed(Grown(lay, k, words), [lay[k].start + ITEM + words] + Remove(free, lay[k + 1].start))
  {
    var r, x, rest := Grown(lay, k, words), lay[k + 1].start, lay[k].start + ITEM + words;
    var f := [rest] + Remove(free, x);
    RemoveNoDup(free, x);
    forall i | 0 <= i < |r| ensures ListedAt(r, f, i) {
      if i != k + 1 {
        assert ListedAt(lay, free, i);
        assert Starts(lay)[i] == lay[i].start;
        if lay[i].start == x { StartsApart(lay, end, i, k + 1); }
      }
    }
    forall j | 0 <= j < |f| ensures StartAt(r, f, j) {
      if f[j] == rest {
        assert Starts(r)[k + 1] == rest;
      } else {
        assert f[j] in free;
        var j0 :| 0 <= j0 < |free| && free[j0] == f[j];
        assert StartAt(lay, free, j0);
        var i :| 0 <= i < |lay| && Starts(lay)[i] == f[j];
        assert Starts(r)[i] == f[j];
      }
    }
  }

  lemma FindListed(lay: seq<Block>, free: seq<int>, k: nat) returns (j: nat)
    requires Listed(lay, free) && k < |lay| && !lay[k].used
    ensures j < |free| && free[j] == lay[k].start && Remove(free, free[j]) == free[..j] + free[j + 1..]
  {
    assert ListedAt(lay, free, k);
    j := RemoveSplit(free, lay[k].start);
  }

  lemma GrownConsistent(m: Items, n: Items, lay: seq<Block>, circle: seq<int>, free: seq<int>, end: nat,
    k: nat, words: nat)
    requires Consistent(m, lay, BlockCircle(lay, end), free, end) && k < |lay| && lay[k].used
    requires GrowsInPlace(lay, k, words) && words > Payload(lay[k]) && UsedKept(m, n)
    requires var rest := lay[k].start + ITEM + words;
      && n.Keys == m.Keys - {lay[k + 1].start} + {rest} && !n[rest].used
      && Rings(n, circle, [rest] + Remove(free, lay[k + 1].start))
    requires circle == BlockCircle(Grown(lay, k, words), end)
    ensures Consistent(n, Grown(lay, k, words), circle,
      [lay[k].start + ITEM + words] + Remove(free, lay[k + 1].start), end)
  {
    FreeMembers(m, free, 0);
    GrownSound(lay, end, k, words);
    GrownCircle(lay, end, k, words);
    GrownFlags(m, n, lay, end, k, words);
    GrownListed(lay, free, end, k, words);
  }

  lemma GrantedCircle(lay: seq<Block>, end: nat, k: nat, words: nat)
    requires Tiled(lay, end) && k < |lay| && Payload(lay[k]) >= words
    ensures var c, rest := BlockCircle(lay, end), lay[k].start + words + ITEM;
      if Payload(lay[k]) >= words + ITEM + MINI then
        && rest !in c && rest != FREE_HEADER
        && BlockCircle(Granted(lay, k, words), end) == c[..k + 1] + [rest] + c[k + 1..]
      else BlockCircle(Granted(lay, k, words), end) == c
  {
    if Payload(lay[k]) >= words + ITEM + MINI {
      InsideIsNoStart(lay, end, k, lay[k].start + words + ITEM);
      CircleSplit(lay, end, k, words, true);
    } else {
      StartsMarked(lay, k, true);
    }
  }

  predicate FreeBefore(lay: seq<Block>, k: nat) {
    0 < k <= |lay| && !lay[k - 1].used
  }

  predicate FreeAfter(lay: seq<Block>, k: nat) {
    k + 1 < |lay| && !lay[k + 1].used
  }

  // The free list without the block behind block k.
  function WithoutNext(lay: seq<Block>, free: seq<int>, k: nat): seq<int> {
    if FreeAfter(lay, k) then Remove(free, lay[k + 1].start) else free
  }

  // The free list after block k has been freed: a free neighbour behind it leaves
  // the list, and without one before it the block itself goes to the front.
  function FreedFree(lay: seq<Block>, free: seq<int>, k: nat): seq<int>
    requires k < |lay|
  {
    var rest := WithoutNext(lay, free, k);
    if FreeBefore(lay, k) then rest else [lay[k].start] + rest
  }

  // Clearing block k's own used bit changes none of this.
  lemma FreedReleased(lay: seq<Block>, free: seq<int>, end: nat, k: nat)
    requires Sound(lay, end) && k < |lay| && lay[k].used
    ensures var r := lay[k := lay[k].(used := false)];
      NoHoles(Plugged(r, k)) && Plugged(r, k) == Freed(lay, k) && FreedFree(r, free, k) == FreedFree(lay, free, k)
  {
    FreedSound(lay, end, k);
  }

  // Merging backwards first gives the same layout.
  lemma MergeOrder(lay: seq<Block>, k: nat)
    requires k < |lay| && !lay[k].used
    ensures FreeBefore(lay, k) ==> PluggedAhead(Merged(lay, k - 1), k - 1) == Plugged(lay, k)
    ensures !FreeBefore(lay, k) ==> PluggedAhead(lay, k) == Plugged(lay, k)
    ensures FreeBefore(lay, k) ==> FreeAfter(Merged(lay, k - 1), k - 1) == FreeAfter(lay, k)
    ensures FreeBefore(lay, k) && FreeAfter(lay, k) ==> Merged(lay, k - 1)[k].start == lay[k + 1].start
  {
    if FreeAfter(lay, k) { MergedAt(lay, k); }
    if FreeBefore(lay, k) {
      MergedAt(lay, k - 1);
      if FreeAfter(lay, k) {
        MergedAt(Merged(lay, k - 1), k - 1);
        MergedAt(Merged(lay, k), k - 1);
        assert Merged(Merged(lay, k - 1), k - 1) == Merged(Merged(lay, k), k - 1);
      }
    }
  }

  // The merged block stands where the first of the merged ones stood.
  lemma PluggedHere(lay: seq<Block>, k: nat)
    requires k < |lay| && !lay[k].used
    ensures var k1 := if FreeBefore(lay, k) then k - 1 else k;
      k1 < |Plugged(lay, k)| && !Plugged(lay, k)[k1].used && Plugged(lay, k)[k1].start == lay[k1].start
  {
    if FreeAfter(lay, k) { MergedAt(lay, k); }
    if FreeBefore(lay, k) { MergedAt(PluggedAhead(lay, k), k - 1); }
  }

  lemma FlagsKept(m: Items, n: Items, lay: seq<Block>, end: nat)
    requires Flags(m, lay, end) && m.Keys <= n.Keys && UsedKept(m, n)
    ensures Flags(n, lay, end)
  {
    forall i | 0 <= i < |lay| ensures FlagAt(n, lay, i) { assert FlagAt(m, lay, i); }
  }

  lemma ReleasedListed(lay: seq<Block>, free: seq<int>, end: nat, k: nat)
    requires Tiled(lay, end) && Listed(lay, free) && k < |lay| && lay[k].used
    ensures ListedBut(lay[k := lay[k].(used := false)], free, lay[k].start)
  {
    var r := lay[k := lay[k].(used := false)];
    assert ListedAt(lay, free, k);
    StartsMarked(lay, k, false);
    forall i | 0 <= i < |r| && r[i].start != lay[k].start ensures ListedAt(r, free, i) {
      assert ListedAt(lay, free, i);
    }
    forall j | 0 <= j < |free| ensures StartAt(r, free, j) { assert StartAt(lay, free, j); }
  }

  lemma NowListed(lay: seq<Block>, free: seq<int>, pend: int, k: nat)
    requires ListedBut(lay, free, pend) && k < |lay| && !lay[k].used && (pend == lay[k].start || pend == NIL)
    requires forall i :: 0 <= i < |lay| && lay[i].start == lay[k].start ==> i == k
    ensures Listed(lay, if pend == NIL then free else [pend] + free)
  {
    var f := if pend == NIL then free else [pend] + free;
    forall i | 0 <= i < |lay| ensures ListedAt(lay, f, i) {
      if lay[i].start != pend { assert ListedAt(lay, free, i); }
    }
    forall j | 0 <= j < |f| ensures StartAt(lay, f, j) {
      if f[j] == pend { assert Starts(lay)[k] == pend; }
      else { assert StartAt(lay, free, if pend == NIL then j else j - 1); }
    }
  }

  // As Consistent, except that the block at `pend` is not in the free list yet
  // and that free blocks may be neighbours.
  ghost predicate Pending(m: Items, lay: seq<Block>, circle: seq<int>, free: seq<int>, end: nat, pend: int) {
    && Rings(m, circle, free)
    && circle == BlockCircle(lay, end)
    && Tiled(lay, end) && Roomy(lay)
    && Flags(m, lay, end) && ListedBut(lay, free, pend)
  }

  ghost predicate ListedBut(lay: seq<Block>, free: seq<int>, pend: int) {
    && pend !in free
    && (forall i :: 0 <= i < |lay| && lay[i].start != pend ==> ListedAt(lay, free, i))
    && (forall j :: 0 <= j < |free| ==> StartAt(lay, free, j))
  }

  lemma MergedCircle(lay: seq<Block>, end: nat, k: nat)
    requires k + 1 < |lay|
    ensures var c := BlockCircle(lay, end); BlockCircle(Merged(lay, k), end) == c[..k + 1] + c[k + 2..]
  {
    StartsMerged(lay, k);
  }

  lemma MergedFlags(m: Items, n: Items, lay: seq<Block>, circle: seq<int>, end: nat, k: nat)
    requires k + 1 < |lay| && !lay[k].used && !lay[k + 1].used && Flags(m, lay, end)
    requires circle == BlockCircle(Merged(lay, k), end) && UsedKept(m, n)
    requires forall i :: 0 <= i < |circle| ==> BlockNode(n, circle, i)
    ensures Flags(n, Merged(lay, k), end)
  {
    var r := Merged(lay, k);
    MergedAt(lay, k);
    assert BlockNode(n, circle, |circle| - 1) && circle[|circle| - 1] == end;
    forall i | 0 <= i < |r| ensures FlagAt(n, r, i) {
      assert FlagAt(m, lay, if i <= k then i else i + 1);
      assert BlockNode(n, circle, i) && circle[i] == r[i].start;
    }
  }

  lemma MergedListedAt(lay: seq<Block>, free: seq<int>, end: nat, k: nat, i: nat, pend: int)
    requires Tiled(lay, end) && k + 1 < |lay| && !lay[k].used && !lay[k + 1].used
    requires ListedBut(lay, free, pend) && i < |Merged(lay, k)|
    requires Merged(lay, k)[i].start != pend
    ensures ListedAt(Merged(lay, k), Remove(free, lay[k + 1].start), i)
  {
    MergedAt(lay, k);
    var i0 := if i <= k then i else i + 1;
    if lay[i0].start == lay[k + 1].start { StartsApart(lay, end, i0, k + 1); }
    assert ListedAt(lay, free, i0);
  }

  lemma StartKept(lay: seq<Block>, k: nat, x: int)
    requires k + 1 < |lay| && x in Starts(lay) && x != lay[k + 1].start
    ensures x in Starts(Merged(lay, k))
  {
    MergedAt(lay, k);
    var i :| 0 <= i < |lay| && Starts(lay)[i] == x;
    assert Starts(Merged(lay, k))[if i <= k then i else i - 1] == x;
  }

  // Blocks k and k + 1 have been merged; the header of k + 1 is gone, and so is
  // its place in the free list, if it had one.
  lemma MergedListed(lay: seq<Block>, free: seq<int>, end: nat, k: nat, pend: int)
    requires Tiled(lay, end) && k + 1 < |lay| && !lay[k].used && !lay[k + 1].used && NoDup(free)
    requires ListedBut(lay, free, pend)
    ensures ListedBut(Merged(lay, k), Remove(free, lay[k + 1].start), if pend == lay[k + 1].start then NIL else pend)
  {
    var r, x := Merged(lay, k), lay[k + 1].start;
    var less, later := Remove(free, x), if pend == x then NIL else pend;
    MergedAt(lay, k);
    RemoveNoDup(free, x);
    NilIsNoStart(lay, free);
    forall i | 0 <= i < |r| && r[i].start != later ensures ListedAt(r, less, i) {
      if r[i].start == pend { StartsApart(lay, end, if i <= k then i else i + 1, k + 1); }
      MergedListedAt(lay, free, end, k, i, pend);
    }
    forall j | 0 <= j < |less| ensures StartAt(r, less, j) {
      assert less[j] in free;
      var j0 :| 0 <= j0 < |free| && free[j0] == less[j];
      assert StartAt(lay, free, j0);
      StartKept(lay, k, less[j]);
    }
  }

  lemma MergedPending(m: Items, n: Items, lay: seq<Block>, circle: seq<int>, free: seq<int>, less: seq<int>,
    end: nat, k: nat, pend: int)
    requires k + 1 < |lay| && !lay[k].used && !lay[k + 1].used
    requires Pending(m, lay, BlockCircle(lay, end), free, end, pend)
    requires Rings(n, circle, less) && circle == BlockCircle(Merged(lay, k), end) && UsedKept(m, n)
    requires less == Remove(free, lay[k + 1].start)
    ensures Pending(n, Merged(lay, k), circle, less, end, if pend == lay[k + 1].start then NIL else pend)
  {
    MergedAt(lay, k);
    MergedTiled(lay, end, k);
    FreeMembers(m, free, 0);
    MergedFlags(m, n, lay, circle, end, k);
    MergedListed(lay, free, end, k, pend);
  }

  lemma NilIsNoStart(lay: seq<Block>, free: seq<int>)
    requires forall j :: 0 <= j < |free| ==> StartAt(lay, free, j)
    ensures NIL !in free
  {
    forall j | 0 <= j < |free| ensures free[j] != NIL {
      assert StartAt(lay, free, j);
      var i :| 0 <= i < |lay| && Starts(lay)[i] == free[j];
    }
  }

  lemma GrantedStart(lay: seq<Block>, k: nat, words: nat)
    requires k < |lay| && Payload(lay[k]) >= words
    ensures lay[k].start in Starts(Granted(lay, k, words))
  {
    assert Starts(Granted(lay, k, words))[k] == lay[k].start;
  }

  lemma GrantedConsistent(m: Items, n: Items, lay: seq<Block>, circle: seq<int>, free: seq<int>, end: nat,
    k: nat, words: nat, j: nat)
    requires Consistent(m, lay, BlockCircle(lay, end), free, end) && FirstInList(lay, free, words, j, k)
    requires m.Keys <= n.Keys && UsedKept(m, n)
    requires Payload(lay[k]) >= words + ITEM + MINI ==>
      var rest := lay[k].start + ITEM + words; rest in n && !n[rest].used
    requires var o := n[lay[k].start := n[lay[k].start].(used := true)];
      Rings(o, circle, GrantedFree(lay, free, k, words, j))
    requires circle == BlockCircle(Granted(lay, k, words), end)
    ensures var o := n[lay[k].start := n[lay[k].start].(used := true)];
      Consistent(o, Granted(lay, k, words), circle, GrantedFree(lay, free, k, words, j), end)
  {
    FreeMembers(m, free, 0);
    GrantedKeeps(lay, free, end, k, words, j);
    if Payload(lay[k]) >= words + ITEM + MINI {
      SplitFlags(m, n, lay, end, k, words);
    } else {
      MarkFlags(m, n, lay, end, k, true);
    }
  }

  lemma FreeMembers(m: Items, free: seq<int>, x: int)
    requires FreeRing(m, free)
    ensures NoDup(free)
    ensures x in free ==> x in m && x != FREE_HEADER
  {
    var c := Circle(free);
    forall i, j | 0 <= i < j < |free| ensures free[i] != free[j] { assert c[i + 1] != c[j + 1]; }
    if x in free {
      var i :| 0 <= i < |free| && free[i] == x;
      assert c[i + 1] == x && c[0] != c[i + 1] && FreeNode(m, c, i + 1);
    }
  }

  lemma GrantedWorth(lay: seq<Block>, k: nat, words: nat)
    requires k < |lay| && !lay[k].used && Payload(lay[k]) >= words && lay[k].len >= ITEM
    ensures FreeWords(Granted(lay, k, words)) ==
      FreeWords(lay) - if Payload(lay[k]) >= words + ITEM + MINI then words + ITEM else Payload(lay[k])
  {
    if Payload(lay[k]) >= words + ITEM + MINI {
      CutAt(lay, k, ITEM - HEADER + words, true);
      FreeWordsCut(lay, k, ITEM - HEADER + words, true);
    } else {
      FreeWordsMarked(lay, k, true);
    }
  }

  lemma MarkFlags(m: Items, n: Items, lay: seq<Block>, end: nat, k: nat, u: bool)
    requires Tiled(lay, end) && Flags(m, lay, end) && k < |lay| && UsedKept(m, n) && m.Keys <= n.Keys
    ensures var a := lay[k].start; a in n && Flags(n[a := n[a].(used := u)], lay[k := lay[k].(used := u)], end)
  {
    var r, a := lay[k := lay[k].(used := u)], lay[k].start;
    assert FlagAt(m, lay, k);
    OrderedEnd(lay, end, k);
    assert Abuts(lay, end, k);
    var o := n[a := n[a].(used := u)];
    forall i | 0 <= i < |r| ensures FlagAt(o, r, i) {
      assert FlagAt(m, lay, i);
      if lay[i].start == a { StartsApart(lay, end, i, k); }
    }
  }

  lemma SplitFlags(m: Items, n: Items, lay: seq<Block>, end: nat, k: nat, words: nat)
    requires Tiled(lay, end) && Flags(m, lay, end) && k < |lay| && Payload(lay[k]) >= words + ITEM + MINI
    requires UsedKept(m, n) && m.Keys <= n.Keys
    requires lay[k].start + ITEM + words in n && !n[lay[k].start + ITEM + words].used
    ensures var a := lay[k].start;
      a in n && Flags(n[a := n[a].(used := true)], Split(lay, k, words, true), end)
  {
    var r, a := Split(lay, k, words, true), lay[k].start;
    CutAt(lay, k, ITEM - HEADER + words, true);
    assert FlagAt(m, lay, k);
    OrderedEnd(lay, end, k);
    assert Abuts(lay, end, k);
    var o := n[a := n[a].(used := true)];
    forall i | 0 <= i < |r| ensures FlagAt(o, r, i) {
      if i != k + 1 {
        var i0 := if i <= k then i else i - 1;
        assert FlagAt(m, lay, i0);
        if lay[i0].start == a { StartsApart(lay, end, i0, k); }
      }
    }
  }

  // The first block of the list with room has become the caller's, at p.
  ghost predicate GrantedAs(l0: seq<Block>, f0: seq<int>, words: nat, l1: seq<Block>, f1: seq<int>, p: int, j: nat,
    k: nat)
  {
    && FirstInList(l0, f0, words, j, k) && p == l0[k].start + ITEM
    && l1 == Granted(l0, k, words) && f1 == GrantedFree(l0, f0, k, words, j)
  }

  ghost predicate GrantedTo(l0: seq<Block>, f0: seq<int>, words: nat, l1: seq<Block>, f1: seq<int>, p: int) {
    exists j: nat, k: nat :: GrantedAs(l0, f0, words, l1, f1, p, j, k)
  }

  // What rt_memheap_alloc reserves for a request of so many bytes.
  function Request(bytes: nat): nat {
    if (bytes + 3) / 4 < MINI then MINI else (bytes + 3) / 4
  }

  // A block that becomes free leads the free list, and what else is free keeps its
  // order: the rest of a block handed out, and the rest of a block cut short.
  lemma RestLeads(lay: seq<Block>, free: seq<int>, end: nat, k: nat, words: nat, j: nat)
    requires Sound(lay, end) && Roomy(lay) && Listed(lay, free) && NoDup(free) && k < |lay| && words > 0
    ensures !lay[k].used && Payload(lay[k]) >= words && j < |free| && free[j] == lay[k].start ==>
      var r, f := Granted(lay, k, words), GrantedFree(lay, free, k, words, j);
      f == (if |r| > |lay| then [r[k + 1].start] else []) + Remove(free, lay[k].start)
    ensures lay[k].used && Payload(lay[k]) > words + ITEM + MINI ==>
      var r, f := Resized(lay, k, words), ResizedFree(lay, free, k, words);
      |f| > 0 && k + 1 < |r| && f[0] == r[k + 1].start && !r[k + 1].used
  {
    if !lay[k].used && Payload(lay[k]) >= words && j < |free| && free[j] == lay[k].start {
      var i := RemoveSplit(free, lay[k].start);
      assert i == j;
    }
    if lay[k].used && Payload(lay[k]) > words + ITEM + MINI {
      var l1 := Split(lay, k, words, true);
      CutAt(lay, k, ITEM - HEADER + words, true);
      if FreeAfter(l1, k + 1) { MergedAt(l1, k + 1); }
    }
  }

  // --- in bytes ----------------------------------------------------------------------

  // Block b is live, its payload begins at p, and there is room for so many bytes,
  // and for no more than 48 more.
  predicate Gives(b: Block, p: int, bytes: nat) {
    b.used && b.start + ITEM == p && bytes <= 4 * Payload(b) <= bytes + 48
  }

  ghost predicate GivenInBytes(lay: seq<Block>, p: int, bytes: nat) {
    exists b :: b in lay && Gives(b, p, bytes)
  }

  // A free block in which so many bytes, and at least 12, have room.
  predicate CouldServe(b: Block, bytes: nat) {
    !b.used && 4 * Payload(b) >= bytes && 4 * Payload(b) >= 12
  }

  // Not less than all that is available is asked for, or no free block could serve.
  ghost predicate RefusedInBytes(lay: seq<Block>, available: int, bytes: nat) {
    || 4 * available <= 12 || 4 * available < bytes + 4
    || forall i :: 0 <= i < |lay| ==> !CouldServe(lay[i], bytes)
  }

  // What there was in the old place, and has room in the new one.
  ghost predicate BytesMoved(d0: seq<int>, from: int, had: nat, d1: seq<int>, to: int, bytes: nat) {
    && from >= 0 && to >= 0
    && forall x: nat :: 4 * x < had && 4 * x < bytes ==> from + x < |d0| && to + x < |d1| && d1[to + x] == d0[from + x]
  }

  lemma RequestInBytes(lay: seq<Block>, available: int, bytes: nat)
    ensures 4 * Request(bytes) >= bytes
    ensures RefusedInBytes(lay, available, bytes) <==>
      Request(bytes) >= available || forall i :: 0 <= i < |lay| ==> Refuses(lay[i], Request(bytes))
  {
    forall i | 0 <= i < |lay| ensures CouldServe(lay[i], bytes) <==> !Refuses(lay[i], Request(bytes)) {}
  }

  lemma GrantInBytes(l0: seq<Block>, f0: seq<int>, end: nat, bytes: nat, l1: seq<Block>, f1: seq<int>, p: int)
    requires Tiled(l0, end) && GrantedTo(l0, f0, Request(bytes), l1, f1, p)
    ensures GivenInBytes(l1, p, bytes)
  {
    var j: nat, g: nat :| GrantedAs(l0, f0, Request(bytes), l1, f1, p, j, g);
    GrantedLive(l0, end, g, Request(bytes), Block(0, 0, true));
    assert l1[g] in l1 && Gives(l1[g], p, bytes);
  }

  lemma ResizeInBytes(l0: seq<Block>, f0: seq<int>, end: nat, k: nat, bytes: nat, l1: seq<Block>, f1: seq<int>, p: int,
    size: nat, m0: int, m1: int)
    requires Sound(l0, end) && Roomy(l0) && k < |l0| && l0[k].used
    requires var w := Request(bytes);
      if Moves(l0, k, w) then MovedTo(l0, f0, k, w, l1, f1, p, size, m0, m1)
      else p == l0[k].start + ITEM && l1 == Resized(l0, k, w)
    ensures GivenInBytes(l1, p, bytes)
  {
    hide Moves, MovedTo, Resized;
    var w := Request(bytes);
    if Moves(l0, k, w) {
      var n := MovedLive(l0, f0, end, k, w, l1, f1, p, size, m0, m1);
      assert Gives(n, p, bytes);
    } else {
      ResizedLive(l0, end, k, w, l0[k]);
      assert l1[k] in l1 && Gives(l1[k], p, bytes);
    }
  }

  // Block k is long enough, or is once it has taken what it needs from the free block
  // behind it, of which enough is left for a block.
  predicate KeepsPlace(lay: seq<Block>, k: nat, bytes: nat)
    requires k < |lay|
  {
    var have := 4 * Payload(lay[k]);
    || (bytes <= have && 12 <= have)
    || (k + 1 < |lay| && !lay[k + 1].used
        && bytes + 16 <= have + 4 * Payload(lay[k + 1]) && 28 <= have + 4 * Payload(lay[k + 1]))
  }

  lemma MovesInBytes(lay: seq<Block>, end: nat, k: nat, bytes: nat)
    requires Tiled(lay, end) && Roomy(lay) && k < |lay| && lay[k].used
    ensures Moves(lay, k, Request(bytes)) <==> !KeepsPlace(lay, k, bytes)
  {}

  lemma PlaceInBytes(l0: seq<Block>, f0: seq<int>, end: nat, k: nat, bytes: nat, l1: seq<Block>, f1: seq<int>, p: int,
    size: nat, m0: int, m1: int)
    requires Tiled(l0, end) && Roomy(l0) && k < |l0| && l0[k].used
    requires var w := Request(bytes);
      if Moves(l0, k, w) then MovedTo(l0, f0, k, w, l1, f1, p, size, m0, m1) else p == l0[k].start + ITEM
    ensures p == l0[k].start + ITEM <==> KeepsPlace(l0, k, bytes)
  {
    hide Moves, KeepsPlace, FreeWords;
    var w := Request(bytes);
    MovesInBytes(l0, end, k, bytes);
    if Moves(l0, k, w) {
      var g1: seq<Block>, h1: seq<int>, k1: nat :| MovedVia(l0, f0, k, w, l1, f1, p, g1, h1, k1);
      var j: nat, g: nat :| GrantedAs(l0, f0, w, g1, h1, p, j, g);
      if l0[g].start == l0[k].start { StartsApart(l0, end, g, k); }
    }
  }

  lemma MovedInBytes(d0: seq<int>, lay: seq<Block>, k: nat, d1: seq<int>, p: int, bytes: nat)
    requires k < |lay| && p != NIL && PayloadMoved(d0, lay, k, d1, p, Request(bytes))
    ensures BytesMoved(d0, lay[k].start + ITEM, 4 * Payload(lay[k]), d1, p, bytes)
  {
    var n, from := Min(Payload(lay[k]), Request(bytes)), lay[k].start + ITEM;
    forall x: nat | 4 * x < 4 * Payload(lay[k]) && 4 * x < bytes
      ensures from + x < |d0| && p + x < |d1| && d1[p + x] == d0[from + x]
    {
      assert x < n;
      assert d1[p..p + n][x] == d0[from..from + n][x];
    }
  }

  predicate Refuses(b: Block, words: nat) {
    b.used || Payload(b) < words
  }

  lemma NoneFits(lay: seq<Block>, free: seq<int>, words: nat)
    requires Listed(lay, free) && forall i :: 0 <= i < |free| ==> TooSmall(lay, free[i], words)
    ensures forall i :: 0 <= i < |lay| ==> Refuses(lay[i], words)
  {
    forall i | 0 <= i < |lay| ensures Refuses(lay[i], words) {
      assert ListedAt(lay, free, i);
      if !lay[i].used {
        var j :| 0 <= j < |free| && free[j] == lay[i].start;
        assert TooSmall(lay, free[j], words);
      }
    }
  }

  lemma OnlyStart(lay: seq<Block>, end: nat, k: nat, words: nat)
    requires Tiled(lay, end) && k < |lay| && Payload(lay[k]) < words
    ensures TooSmall(lay, lay[k].start, words)
  {
    forall i | 0 <= i < |lay| && lay[i].start == lay[k].start ensures Payload(lay[i]) < words {
      StartsApart(lay, end, i, k);
    }
  }

  // No block that starts at a has room for `words`.
  ghost predicate TooSmall(lay: seq<Block>, a: int, words: nat) {
    forall k :: 0 <= k < |lay| && lay[k].start == a ==> Payload(lay[k]) < words
  }

  // The first block of the free list with room is the one listed at j.
  ghost predicate FirstInList(lay: seq<Block>, free: seq<int>, words: nat, j: nat, k: nat) {
    && j < |free| && k < |lay| && free[j] == lay[k].start
    && !lay[k].used && Payload(lay[k]) >= words
    && forall i :: 0 <= i < j ==> TooSmall(lay, free[i], words)
  }

  lemma DropHeader(m: Items, circle: seq<int>, free: seq<int>, x: int)
    requires BlockRing(m, circle) && FreeRing(m, free) && x !in circle && x !in free && x != FREE_HEADER
    ensures BlockRing(m - {x}, circle) && FreeRing(m - {x}, free)
  {
    var n := m - {x};
    forall j | 0 <= j < |circle| ensures BlockNode(n, circle, j) { assert BlockNode(m, circle, j); }
    FreeRingOther(m, n, free);
  }

  // Freeing what was just granted restores the layout, and with it all that is
  // available; the block now leads the free list.
  lemma GrantFreeInverse(lay: seq<Block>, free: seq<int>, end: nat, words: nat, j: nat, k: nat)
    requires Sound(lay, end) && FirstInList(lay, free, words, j, k)
    ensures var l1, f1 := Granted(lay, k, words), GrantedFree(lay, free, k, words, j);
      && Freed(l1, k) == lay
      && FreedFree(l1, f1, k) == [lay[k].start] + (free[..j] + free[j + 1..])
  {
    NeighboursUsed(lay, end, k);
    GrantInverse(lay, free, words, j, k);
  }

  // A free block of a sound layout has no free neighbour.
  lemma NeighboursUsed(lay: seq<Block>, end: nat, k: nat)
    requires Sound(lay, end) && k < |lay| && !lay[k].used
    ensures !FreeBefore(lay, k) && !FreeAfter(lay, k)
  {
    assert k > 0 ==> Solid(lay, k - 1);
    assert k + 1 < |lay| ==> Solid(lay, k);
  }

  lemma GrantInverse(lay: seq<Block>, free: seq<int>, words: nat, j: nat, k: nat)
    requires j < |free| && k < |lay| && !lay[k].used && Payload(lay[k]) >= words
    requires !FreeBefore(lay, k) && !FreeAfter(lay, k)
    ensures var l1, f1 := Granted(lay, k, words), GrantedFree(lay, free, k, words, j);
      && Freed(l1, k) == lay
      && FreedFree(l1, f1, k) == [lay[k].start] + (free[..j] + free[j + 1..])
  {
    var others := free[..j] + free[j + 1..];
    if Payload(lay[k]) >= words + ITEM + MINI {
      SplitFreeInverse(lay, k, words);
      SplitListInverse(lay, k, words, others);
    } else {
      WholeInverse(lay, k, others);
      assert GrantedFree(lay, free, k, words, j) == others;
    }
  }

  lemma WholeInverse(lay: seq<Block>, k: nat, others: seq<int>)
    requires k < |lay| && !lay[k].used && !FreeBefore(lay, k) && !FreeAfter(lay, k)
    ensures var l1 := lay[k := lay[k].(used := true)];
      Freed(l1, k) == lay && FreedFree(l1, others, k) == [lay[k].start] + others
  {
    var l1 := lay[k := lay[k].(used := true)];
    assert l1[k := l1[k].(used := false)] == lay;
  }

  lemma SplitListInverse(lay: seq<Block>, k: nat, words: nat, others: seq<int>)
    requires k < |lay| && !lay[k].used && Payload(lay[k]) >= words + ITEM && !FreeBefore(lay, k)
    ensures FreedFree(Split(lay, k, words, true), [lay[k].start + ITEM + words] + others, k) == [lay[k].start] + others
  {
    hide Cut, FreedFree, WithoutNext;
    var r, x := Split(lay, k, words, true), lay[k].start + ITEM + words;
    assert k + 1 < |r| && r[k].start == lay[k].start && r[k + 1].start == x && !r[k + 1].used && !FreeBefore(r, k) by {
      CutAt(lay, k, ITEM - HEADER + words, true);
    }
    NextLeaves(r, k, others);
  }

  // A free neighbour that leads the free list leaves it.
  lemma NextLeaves(lay: seq<Block>, k: nat, others: seq<int>)
    requires FreeAfter(lay, k) && !FreeBefore(lay, k)
    ensures FreedFree(lay, [lay[k + 1].start] + others, k) == [lay[k].start] + others
  {
    assert ([lay[k + 1].start] + others)[1..] == others;
  }

  lemma SplitFreeInverse(lay: seq<Block>, k: nat, words: nat)
    requires k < |lay| && !lay[k].used && Payload(lay[k]) >= words + ITEM && !FreeBefore(lay, k)
    ensures Freed(Split(lay, k, words, true), k) == lay
  {
    var l1, b := Split(lay, k, words, true), lay[k];
    var l0 := l1[k := l1[k].(used := false)];
    CutAt(lay, k, ITEM - HEADER + words, true);
    MergedAt(l0, k);
    var r := Merged(l0, k);
    assert |r| == |lay|;
    forall i | 0 <= i < |lay| ensures r[i] == lay[i] {
      if i > k { assert r[i] == l0[i + 1] == l1[i + 1]; }
    }
    assert r == lay && PluggedBack(r, k) == r;
  }

  // --- live blocks -------------------------------------------------------------------

  // Block b serves a request for `words` at p.
  ghost predicate Serves(lay: seq<Block>, p: int, words: nat, b: Block) {
    b in lay && b.used && b.start + ITEM == p && words <= Payload(b) <= words + ITEM + MINI
  }

  // With `mid` in place of block k (and of free blocks behind it), only the live
  // block k is exchanged for the live block that leads mid.
  lemma ReplacedLive(lay: seq<Block>, end: nat, k: nat, r: seq<Block>, mid: seq<Block>, from: nat, b: Block)
    requires Tiled(lay, end) && k < from <= |lay| && b.used && |mid| > 0
    requires r == lay[..k] + mid + lay[from..]
    requires forall i :: 0 < i < |mid| ==> !mid[i].used
    requires forall i :: k < i < from ==> !lay[i].used
    ensures b in r <==> (b in lay && b != lay[k]) || b == mid[0]
  {
    Elsewhere(lay, end, k, b);
    assert lay[k + 1..] == lay[k + 1..from] + lay[from..];
    assert b in mid <==> b == mid[0];
    assert b !in lay[k + 1..from];
  }

  // rt_memheap_alloc on block k: the live blocks afterwards are those before and
  // the new one.
  lemma GrantedLive(lay: seq<Block>, end: nat, k: nat, words: nat, b: Block)
    requires Tiled(lay, end) && k < |lay| && !lay[k].used && Payload(lay[k]) >= words && b.used
    ensures var r := Granted(lay, k, words);
      k < |r| && (words > 0 ==> Serves(r, lay[k].start + ITEM, words, r[k])) && (b in r <==> b in lay || b == r[k])
  {
    var r := Granted(lay, k, words);
    if Payload(lay[k]) >= words + ITEM + MINI {
      CutAt(lay, k, ITEM - HEADER + words, true);
      ReplacedLive(lay, end, k, r, [r[k], r[k + 1]], k + 1, b);
    } else {
      ReplacedLive(lay, end, k, r, [r[k]], k + 1, b);
    }
  }

  // rt_memheap_realloc in place: block k serves the new size, the others are what
  // they were.
  lemma ResizedLive(lay: seq<Block>, end: nat, k: nat, words: nat, b: Block)
    requires Sound(lay, end) && Roomy(lay) && k < |lay| && lay[k].used && !Moves(lay, k, words) && b.used
    ensures var r := Resized(lay, k, words);
      k < |r| && Serves(r, lay[k].start + ITEM, words, r[k]) && (b in r <==> (b in lay && b != lay[k]) || b == r[k])
  {
    var r := Resized(lay, k, words);
    if words > Payload(lay[k]) {
      ReplacedLive(lay, end, k, r, [r[k], r[k + 1]], k + 2, b);
    } else if words + ITEM + MINI < Payload(lay[k]) {
      var l1 := Split(lay, k, words, true);
      ShortenedKeeps(lay, end, k, words);
      CutAt(lay, k, ITEM - HEADER + words, true);
      ReplacedLive(lay, end, k, l1, [l1[k], l1[k + 1]], k + 1, b);
      PluggedLive(l1, k + 1, b);
      if FreeAfter(l1, k + 1) { MergedAt(l1, k + 1); }
    }
  }

  // rt_memheap_realloc elsewhere: a new block serves the request, block k is gone,
  // the others are what they were.
  lemma MovedLive(l0: seq<Block>, f0: seq<int>, end: nat, k: nat, words: nat, l2: seq<Block>, f2: seq<int>, p: int,
    size: nat, m0: int, m1: int) returns (n: Block)
    requires Tiled(l0, end) && k < |l0| && l0[k].used && words > 0
    requires MovedTo(l0, f0, k, words, l2, f2, p, size, m0, m1)
    ensures Serves(l2, p, words, n)
    ensures forall b: Block :: b.used ==> (b in l2 <==> (b in l0 && b != l0[k]) || b == n)
  {
    var l1: seq<Block>, f1: seq<int>, k1: nat :| MovedVia(l0, f0, k, words, l2, f2, p, l1, f1, k1);
    var j: nat, g: nat :| GrantedAs(l0, f0, words, l1, f1, p, j, g);
    GrantedTiled(l0, end, g, words);
    GrantedLive(l0, end, g, words, l0[k]);
    n := l1[g];
    if n == l0[k] { StartsApart(l0, end, g, k); }
    forall b: Block | b.used ensures b in l2 <==> (b in l0 && b != l0[k]) || b == n {
      GrantedLive(l0, end, g, words, b);
      FreedLive(l1, end, k1, b);
    }
  }

  lemma GrantedTiled(lay: seq<Block>, end: nat, k: nat, words: nat)
    requires Tiled(lay, end) && k < |lay| && Payload(lay[k]) >= words
    ensures Tiled(Granted(lay, k, words), end)
  {
    if Payload(lay[k]) >= words + ITEM + MINI { CutTiled(lay, end, k, ITEM - HEADER + words, true); }
    else { MarkedTiled(lay, end, k, true); }
  }
}
