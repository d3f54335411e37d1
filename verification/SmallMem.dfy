// rt-thread/src/mem.c: the allocator works in place on the heap, which holds
// both the block headers and the callers' data. One array cell is one 4-byte
// word; next and prev are word offsets from heap_ptr.

module SmallMem {
  import opened Common
  import opened BlockLayout

  // The header of block i says what the layout says.
  ghost predicate HeaderAt(h: seq<int>, lay: seq<Block>, pool: int, i: nat)
    requires i < |lay|
  {
    var b := lay[i];
    && b.start + HEADER <= |h|
    && h[b.start] == (if b.used then pool + 1 else pool)
    && h[b.start + 1] == b.start + b.len
    && h[b.start + 2] == (if i == 0 then 0 else lay[i - 1].start)
  }

  // `end` is the end marker. Its prev field is not kept up to date.
  ghost predicate Mirrors(h: seq<int>, lay: seq<Block>, pool: int, end: nat) {
    && Tiled(lay, end)
    && |h| == end + HEADER
    && h[end] == pool + 1 && h[end + 1] == end
    && forall i :: 0 <= i < |lay| ==> HeaderAt(h, lay, pool, i)
  }

  // The data words of a block.
  function Data(h: seq<int>, b: Block): seq<int>
    requires HEADER <= b.len && b.start + b.len <= |h|
  {
    h[b.start + HEADER..b.start + b.len]
  }

  // What block k's header says, with the bounds that make it usable.
  lemma HeaderLinks(h: seq<int>, lay: seq<Block>, pool: int, end: nat, k: nat)
    requires Mirrors(h, lay, pool, end) && k < |lay|
    ensures HeaderAt(h, lay, pool, k)
    ensures lay[k].start + HEADER <= h[lay[k].start + 1] == lay[k].start + lay[k].len == Bound(lay, end, k) <= end
    ensures k + 1 < |lay| ==> HeaderAt(h, lay, pool, k + 1)
  {
    assert Abuts(lay, end, k);
    OrderedEnd(lay, end, k);
  }

  // The three writes that absorb the block nmem after mem.
  function Absorbed(h: seq<int>, mem: nat, nmem: nat, next: nat): (r: seq<int>)
    requires mem + 1 < |h| && nmem < |h| && next + 2 < |h|
    ensures |r| == |h|
  {
    h[nmem := 0][mem + 1 := next][next + 2 := mem]
  }

  lemma AbsorbedCells(h: seq<int>, mem: nat, nmem: nat, next: nat, end: nat)
    requires mem + HEADER <= nmem && nmem + HEADER <= next <= end && end + HEADER <= |h|
    ensures var r := Absorbed(h, mem, nmem, next);
      && r[mem + 1] == next && r[next + 2] == mem
      && forall x :: 0 <= x < |h| && x != mem + 1 && x != nmem && x != next + 2 ==> r[x] == h[x]
  {}

  // A header other than mem's own and the absorbed one.
  lemma AbsorbedFar(h: seq<int>, lay: seq<Block>, pool: int, end: nat, k: nat, j: nat)
    requires Mirrors(h, lay, pool, end) && k + 1 < |lay| && j < |lay| && j != k && j != k + 1
    ensures lay[k].start + 1 < |h| && lay[k + 1].start < |h| && Bound(lay, end, k + 1) + 2 < |h|
    ensures var h' := Absorbed(h, lay[k].start, lay[k + 1].start, Bound(lay, end, k + 1));
      var p := lay[j].start;
      && p + 2 < |h| && h'[p] == h[p] && h'[p + 1] == h[p + 1]
      && h'[p + 2] == if j == k + 2 then lay[k].start else h[p + 2]
  {
    HeaderLinks(h, lay, pool, end, k);
    HeaderLinks(h, lay, pool, end, k + 1);
    HeaderLinks(h, lay, pool, end, j);
    AbsorbedCells(h, lay[k].start, lay[k + 1].start, Bound(lay, end, k + 1), end);
    Apart(lay, end, j, k);
    Apart(lay, end, j, k + 1);
    if k + 2 < |lay| { HeaderLinks(h, lay, pool, end, k + 2); Apart(lay, end, j, k + 2); }
  }

  lemma AbsorbedHeader(h: seq<int>, lay: seq<Block>, pool: int, end: nat, k: nat, i: nat)
    requires Mirrors(h, lay, pool, end) && k + 1 < |lay| && !lay[k].used && !lay[k + 1].used
    requires i < |Merged(lay, k)|
    ensures lay[k].start + 1 < |h| && lay[k + 1].start < |h| && Bound(lay, end, k + 1) + 2 < |h|
    ensures HeaderAt(Absorbed(h, lay[k].start, lay[k + 1].start, Bound(lay, end, k + 1)), Merged(lay, k), pool, i)
  {
    HeaderLinks(h, lay, pool, end, k);
    HeaderLinks(h, lay, pool, end, k + 1);
    MergedAt(lay, k);
    if i == k {
      AbsorbedCells(h, lay[k].start, lay[k + 1].start, Bound(lay, end, k + 1), end);
    } else {
      var j := if i < k then i else i + 1;
      assert HeaderAt(h, lay, pool, j);
      AbsorbedFar(h, lay, pool, end, k, j);
    }
  }

  lemma AbsorbedMirrors(h: seq<int>, lay: seq<Block>, pool: int, end: nat, k: nat)
    requires Mirrors(h, lay, pool, end) && k + 1 < |lay| && !lay[k].used && !lay[k + 1].used
    ensures lay[k].start + 1 < |h| && lay[k + 1].start < |h| && Bound(lay, end, k + 1) + 2 < |h|
    ensures Mirrors(Absorbed(h, lay[k].start, lay[k + 1].start, Bound(lay, end, k + 1)), Merged(lay, k), pool, end)
  {
    HeaderLinks(h, lay, pool, end, k);
    HeaderLinks(h, lay, pool, end, k + 1);
    AbsorbedCells(h, lay[k].start, lay[k + 1].start, Bound(lay, end, k + 1), end);
    if k + 2 < |lay| { HeaderLinks(h, lay, pool, end, k + 2); }
    MergedTiled(lay, end, k);
    var r, h' := Merged(lay, k), Absorbed(h, lay[k].start, lay[k + 1].start, Bound(lay, end, k + 1));
    forall i | 0 <= i < |r| ensures HeaderAt(h', r, pool, i) {
      AbsorbedHeader(h, lay, pool, end, k, i);
    }
  }

  lemma AbsorbedData(h: seq<int>, lay: seq<Block>, pool: int, end: nat, k: nat, j: nat)
    requires Mirrors(h, lay, pool, end) && k + 1 < |lay| && !lay[k].used && !lay[k + 1].used
    requires j < |lay| && lay[j].used
    ensures lay[k].start + 1 < |h| && lay[k + 1].start < |h| && Bound(lay, end, k + 1) + 2 < |h|
    ensures HEADER <= lay[j].len && lay[j].start + lay[j].len <= |h|
    ensures Data(Absorbed(h, lay[k].start, lay[k + 1].start, Bound(lay, end, k + 1)), lay[j]) == Data(h, lay[j])
  {
    HeaderLinks(h, lay, pool, end, k);
    HeaderLinks(h, lay, pool, end, k + 1);
    HeaderLinks(h, lay, pool, end, j);
    Apart(lay, end, j, k);
    Apart(lay, end, j, k + 1);
    if k + 2 < |lay| { Apart(lay, end, j, k + 2); assert Abuts(lay, end, k + 2); }
  }

  lemma AbsorbedLive(h: seq<int>, lay: seq<Block>, pool: int, end: nat, k: nat)
    requires Mirrors(h, lay, pool, end) && k + 1 < |lay| && !lay[k].used && !lay[k + 1].used
    ensures lay[k].start + 1 < |h| && lay[k + 1].start < |h| && Bound(lay, end, k + 1) + 2 < |h|
    ensures LiveKept(h, lay, Absorbed(h, lay[k].start, lay[k + 1].start, Bound(lay, end, k + 1)))
  {
    AbsorbedMirrors(h, lay, pool, end, k);
    var h' := Absorbed(h, lay[k].start, lay[k + 1].start, Bound(lay, end, k + 1));
    forall j | 0 <= j < |lay| ensures KeptAt(h, lay, h', j) {
      if lay[j].used { AbsorbedData(h, lay, pool, end, k, j); }
    }
  }

  // Every live block of lay holds in h' what it holds in h.
  ghost predicate LiveKept(h: seq<int>, lay: seq<Block>, h': seq<int>) {
    |h| == |h'| && forall j :: 0 <= j < |lay| ==> KeptAt(h, lay, h', j)
  }

  ghost predicate KeptAt(h: seq<int>, lay: seq<Block>, h': seq<int>, j: nat)
    requires j < |lay| && |h| == |h'|
  {
    lay[j].used && HEADER <= lay[j].len && lay[j].start + lay[j].len <= |h| ==> Data(h', lay[j]) == Data(h, lay[j])
  }

  // Setting or clearing the used bit of block k.
  lemma FlagMirrors(h: seq<int>, lay: seq<Block>, pool: int, end: nat, k: nat, u: bool)
    requires Mirrors(h, lay, pool, end) && k < |lay|
    ensures lay[k].start < |h|
    ensures var h' := h[lay[k].start := if u then pool + 1 else pool];
      Mirrors(h', lay[k := lay[k].(used := u)], pool, end) && LiveKept(h, lay, h')
  {
    HeaderLinks(h, lay, pool, end, k);
    var r := lay[k := lay[k].(used := u)];
    var h' := h[lay[k].start := if u then pool + 1 else pool];
    MarkedTiled(lay, end, k, u);
    forall i | 0 <= i < |r| ensures HeaderAt(h', r, pool, i) {
      HeaderLinks(h, lay, pool, end, i);
      Apart(lay, end, i, k);
    }
    forall j | 0 <= j < |lay| ensures KeptAt(h, lay, h', j) {
      HeaderLinks(h, lay, pool, end, j);
      Apart(lay, end, j, k);
    }
  }

  // Block k keeps its flag and `words` of data; a free block follows.
  function Halved(lay: seq<Block>, k: nat, words: nat): seq<Block>
    requires k < |lay| && lay[k].len >= 2 * HEADER + words
  {
    Cut(lay, k, words, lay[k].used)
  }

  // The writes that split mem at mem2.
  function Split(h: seq<int>, pool: int, end: nat, mem: nat, mem2: nat, next: nat): (r: seq<int>)
    requires mem + 1 < |h| && mem2 + 2 < |h| && next + 2 < |h|
    ensures |r| == |h|
  {
    var h1 := h[mem2 := pool][mem2 + 1 := next][mem2 + 2 := mem][mem + 1 := mem2];
    if next != end then h1[next + 2 := mem2] else h1
  }

  lemma HalvedAt(lay: seq<Block>, end: nat, k: nat, words: nat)
    requires Tiled(lay, end) && k < |lay| && lay[k].len >= 2 * HEADER + words
    ensures Tiled(Halved(lay, k, words), end)
    ensures var r := Halved(lay, k, words); var b := lay[k];
      && |r| == |lay| + 1
      && (forall i :: 0 <= i < k ==> r[i] == lay[i])
      && r[k] == Block(b.start, HEADER + words, b.used)
      && r[k + 1] == Block(b.start + HEADER + words, b.len - HEADER - words, false)
      && (forall i :: k + 1 < i < |r| ==> r[i] == lay[i - 1])
  {
    CutAt(lay, k, words, lay[k].used);
    CutTiled(lay, end, k, words, lay[k].used);
  }

  lemma SplitCells(h: seq<int>, pool: int, end: nat, mem: nat, mem2: nat, next: nat)
    requires mem + HEADER <= mem2 && mem2 + HEADER <= next <= end && end + HEADER <= |h|
    ensures var r := Split(h, pool, end, mem, mem2, next);
      && r[mem + 1] == mem2 && r[mem2] == pool && r[mem2 + 1] == next && r[mem2 + 2] == mem
      && (next != end ==> r[next + 2] == mem2)
      && forall x :: 0 <= x < |h| && x != mem + 1 && !(mem2 <= x < mem2 + HEADER) && x != next + 2 ==> r[x] == h[x]
  {}

  // A header other than the two at the cut, and other than its successor's.
  lemma SplitFar(h: seq<int>, lay: seq<Block>, pool: int, end: nat, k: nat, words: nat, j: nat)
    requires Mirrors(h, lay, pool, end) && k < |lay| && lay[k].len >= 2 * HEADER + words
    requires j < |lay| && j != k
    ensures lay[k].start + lay[k].len + 2 < |h|
    ensures var h' := Split(h, pool, end, lay[k].start, lay[k].start + HEADER + words, lay[k].start + lay[k].len);
      var p := lay[j].start;
      && p + 2 < |h| && h'[p] == h[p] && h'[p + 1] == h[p + 1]
      && h'[p + 2] == if j == k + 1 then lay[k].start + HEADER + words else h[p + 2]
  {
    HeaderLinks(h, lay, pool, end, k);
    HeaderLinks(h, lay, pool, end, j);
    SplitCells(h, pool, end, lay[k].start, lay[k].start + HEADER + words, lay[k].start + lay[k].len);
    Apart(lay, end, j, k);
    if k + 1 < |lay| { Apart(lay, end, j, k + 1); assert Abuts(lay, end, k + 1); }
  }

  // The two headers at the cut.
  lemma SplitNear(h: seq<int>, lay: seq<Block>, pool: int, end: nat, k: nat, words: nat)
    requires Mirrors(h, lay, pool, end) && k < |lay| && lay[k].len >= 2 * HEADER + words
    ensures lay[k].start + lay[k].len + 2 < |h| && k + 1 < |Halved(lay, k, words)|
    ensures var h' := Split(h, pool, end, lay[k].start, lay[k].start + HEADER + words, lay[k].start + lay[k].len);
      var r := Halved(lay, k, words);
      HeaderAt(h', r, pool, k) && HeaderAt(h', r, pool, k + 1)
  {
    HeaderLinks(h, lay, pool, end, k);
    HalvedAt(lay, end, k, words);
    SplitCells(h, pool, end, lay[k].start, lay[k].start + HEADER + words, lay[k].start + lay[k].len);
  }

  lemma SplitHeader(h: seq<int>, lay: seq<Block>, pool: int, end: nat, k: nat, words: nat, i: nat)
    requires Mirrors(h, lay, pool, end) && k < |lay| && lay[k].len >= 2 * HEADER + words
    requires i < |Halved(lay, k, words)|
    ensures lay[k].start + lay[k].len + 2 < |h|
    ensures var mem := lay[k].start;
      HeaderAt(Split(h, pool, end, mem, mem + HEADER + words, mem + lay[k].len), Halved(lay, k, words), pool, i)
  {
    SplitNear(h, lay, pool, end, k, words);
    HalvedAt(lay, end, k, words);
    if i != k && i != k + 1 {
      var j := if i < k then i else i - 1;
      assert HeaderAt(h, lay, pool, j);
      SplitFar(h, lay, pool, end, k, words, j);
    }
  }

  lemma SplitMirrors(h: seq<int>, lay: seq<Block>, pool: int, end: nat, k: nat, words: nat)
    requires Mirrors(h, lay, pool, end) && k < |lay| && lay[k].len >= 2 * HEADER + words
    ensures lay[k].start + lay[k].len + 2 < |h|
    ensures var mem := lay[k].start;
      Mirrors(Split(h, pool, end, mem, mem + HEADER + words, mem + lay[k].len), Halved(lay, k, words), pool, end)
  {
    HeaderLinks(h, lay, pool, end, k);
    HalvedAt(lay, end, k, words);
    var mem := lay[k].start;
    var h' := Split(h, pool, end, mem, mem + HEADER + words, mem + lay[k].len);
    var r := Halved(lay, k, words);
    if k + 1 < |lay| { HeaderLinks(h, lay, pool, end, k + 1); }
    forall i | 0 <= i < |r| ensures HeaderAt(h', r, pool, i) {
      SplitHeader(h, lay, pool, end, k, words, i);
    }
  }

  lemma SplitLiveAt(h: seq<int>, lay: seq<Block>, pool: int, end: nat, k: nat, words: nat, j: nat)
    requires Mirrors(h, lay, pool, end) && k < |lay| && lay[k].len >= 2 * HEADER + words
    requires j < |lay| && j != k
    ensures lay[k].start + lay[k].len + 2 < |h| && HEADER <= lay[j].len && lay[j].start + lay[j].len <= |h|
    ensures var mem := lay[k].start;
      Data(Split(h, pool, end, mem, mem + HEADER + words, mem + lay[k].len), lay[j]) == Data(h, lay[j])
  {
    HeaderLinks(h, lay, pool, end, k);
    HeaderLinks(h, lay, pool, end, j);
    SplitCells(h, pool, end, lay[k].start, lay[k].start + HEADER + words, lay[k].start + lay[k].len);
    Apart(lay, end, j, k);
    if k + 1 < |lay| { Apart(lay, end, j, k + 1); }
  }

  lemma SplitLive(h: seq<int>, lay: seq<Block>, pool: int, end: nat, k: nat, words: nat, h': seq<int>)
    requires Mirrors(h, lay, pool, end) && k < |lay| && lay[k].len >= 2 * HEADER + words
    requires lay[k].start + lay[k].len + 2 < |h|
    requires var mem := lay[k].start; h' == Split(h, pool, end, mem, mem + HEADER + words, mem + lay[k].len)
    ensures LiveKept(h, lay[k := lay[k].(used := false)], h')
  {
    var l0 := lay[k := lay[k].(used := false)];
    forall j | 0 <= j < |l0| ensures KeptAt(h, l0, h', j) {
      if j != k { SplitLiveAt(h, lay, pool, end, k, words, j); }
    }
  }

  lemma SplitKeeps(h: seq<int>, lay: seq<Block>, pool: int, end: nat, k: nat, words: nat, h': seq<int>)
    requires Mirrors(h, lay, pool, end) && k < |lay| && lay[k].len >= 2 * HEADER + words
    requires lay[k].start + lay[k].len + 2 < |h|
    requires var mem := lay[k].start; h' == Split(h, pool, end, mem, mem + HEADER + words, mem + lay[k].len)
    ensures var p := lay[k].start + HEADER; h'[p..p + words] == h[p..p + words]
  {
    var mem := lay[k].start;
    HeaderLinks(h, lay, pool, end, k);
    SplitCells(h, pool, end, mem, mem + HEADER + words, mem + lay[k].len);
  }

  lemma SplitFacts(h: seq<int>, lay: seq<Block>, pool: int, end: nat, k: nat, words: nat, h': seq<int>)
    requires Mirrors(h, lay, pool, end) && k < |lay| && lay[k].len >= 2 * HEADER + words
    requires lay[k].start + lay[k].len + 2 < |h|
    requires var mem := lay[k].start; h' == Split(h, pool, end, mem, mem + HEADER + words, mem + lay[k].len)
    ensures Mirrors(h', Halved(lay, k, words), pool, end)
    ensures LiveKept(h, lay[k := lay[k].(used := false)], h')
    ensures var p := lay[k].start + HEADER; h'[p..p + words] == h[p..p + words]
  {
    SplitMirrors(h, lay, pool, end, k, words);
    SplitLive(h, lay, pool, end, k, words, h');
    SplitKeeps(h, lay, pool, end, k, words, h');
  }

  lemma LiveKeptOn(h0: seq<int>, lay: seq<Block>, h1: seq<int>, k: nat, h2: seq<int>)
    requires k < |lay| && LiveKept(h0, lay, h1) && LiveKept(h1, lay[k := lay[k].(used := false)], h2)
    ensures LiveKept(h0, lay[k := lay[k].(used := false)], h2)
  {
    var l := lay[k := lay[k].(used := false)];
    forall j | 0 <= j < |l| ensures KeptAt(h0, l, h2, j) {
      assert KeptAt(h0, lay, h1, j) && KeptAt(h1, l, h2, j);
    }
  }

  lemma LiveKeptTrans(h0: seq<int>, l0: seq<Block>, h1: seq<int>, l1: seq<Block>, h2: seq<int>, k: nat)
    requires k < |l0| && !l0[k].used && l1 == PluggedAhead(l0, k)
    requires LiveKept(h0, l0, h1) && LiveKept(h1, l1, h2)
    ensures LiveKept(h0, l0, h2)
  {
    forall j | 0 <= j < |l0| ensures KeptAt(h0, l0, h2, j) {
      assert KeptAt(h0, l0, h1, j);
      if l0[j].used {
        if l1 != l0 { MergedLive(l0, k, l0[j]); }
        var i :| 0 <= i < |l1| && l1[i] == l0[j];
        assert KeptAt(h1, l1, h2, i);
      }
    }
  }

  class Heap {
    const heap: array<int>
    const pool: int
    const size: nat          // mem_size_aligned
    var lfree: nat
    var used: nat            // parent.used
    var max: nat             // parent.max
    ghost var lay: seq<Block>

    ghost function End(): nat { size + HEADER }

    ghost predicate Mirrored()
      reads this, heap
    {
      pool % 2 == 0 && heap.Length == size + 2 * HEADER && Mirrors(heap[..], lay, pool, End())
    }

    ghost predicate Valid()
      reads this, heap
    {
      && Mirrored() && NoHoles(lay)
      && lfree == LowestFree(lay, End())
      && used == UsedWords(lay) && used <= max
    }

    // MEM_ISUSED
    predicate IsUsed(p: nat)
      requires p < heap.Length
      reads heap
    {
      heap[p] % 2 == 1
    }

    // rt_smem_init
    constructor (poolWord: int, words: nat)
      requires poolWord % 2 == 0
      ensures Valid() && pool == poolWord && size == words && fresh(heap)
      ensures lay == [Block(0, End(), false)] && used == 0 && max == 0
    {
      var h := new int[words + 2 * HEADER];
      pool := poolWord;
      size := words;
      h[0] := poolWord;
      h[1] := words + HEADER;
      h[2] := 0;
      h[words + HEADER] := poolWord + 1;
      h[words + HEADER + 1] := words + HEADER;
      h[words + HEADER + 2] := words + HEADER;
      heap := h;
      lfree := 0;
      used, max := 0, 0;
      lay := [Block(0, words + HEADER, false)];
    }

    // The writes both halves of plug_holes make: the block nmem disappears into
    // its predecessor mem.
    method Absorb(mem: nat, nmem: nat, ghost k: nat)
      requires Mirrored() && k + 1 < |lay| && !lay[k].used && !lay[k + 1].used
      requires lay[k].start == mem && lay[k + 1].start == nmem
      modifies this`lay, heap
      ensures Mirrored() && lay == Merged(old(lay), k)
      ensures LiveKept(old(heap[..]), old(lay), heap[..])
    {
      HeaderLinks(heap[..], lay, pool, End(), k);
      HeaderLinks(heap[..], lay, pool, End(), k + 1);
      heap[nmem] := 0;
      heap[mem + 1] := heap[nmem + 1];
      heap[heap[nmem + 1] + 2] := mem;
      ghost var h := old(heap[..]);
      AbsorbedMirrors(h, lay, pool, End(), k);
      AbsorbedLive(h, lay, pool, End(), k);
      assert heap[..] == Absorbed(h, mem, nmem, Bound(lay, End(), k + 1));
      lay := Merged(lay, k);
    }

    // plug_holes, the forward half
    method PlugAhead(mem: nat, ghost k: nat)
      requires Mirrored() && k < |lay| && lay[k].start == mem && !lay[k].used
      modifies this`lfree, this`lay, heap
      ensures Mirrored() && lay == PluggedAhead(old(lay), k)
      ensures old(lfree) == LowestFree(old(lay), End()) ==> lfree == LowestFree(lay, End())
      ensures LiveKept(old(heap[..]), old(lay), heap[..])
    {
      HeaderLinks(heap[..], lay, pool, End(), k);
      var nmem := heap[mem + 1];
      if mem != nmem && !IsUsed(nmem) && nmem != size + HEADER {
        MergedLowest(lay, End(), k);
        LowestFreeBelow(lay, End(), k);
        if lfree == nmem {
          lfree := mem;
        }
        Absorb(mem, nmem, k);
      }
    }

    // plug_holes, the backward half
    method PlugBack(mem: nat, ghost k: nat)
      requires Mirrored() && k < |lay| && lay[k].start == mem && !lay[k].used
      modifies this`lfree, this`lay, heap
      ensures Mirrored() && lay == PluggedBack(old(lay), k)
      ensures old(lfree) == LowestFree(old(lay), End()) ==> lfree == LowestFree(lay, End())
      ensures LiveKept(old(heap[..]), old(lay), heap[..])
    {
      HeaderLinks(heap[..], lay, pool, End(), k);
      var pmem := heap[mem + 2];
      if k > 0 { HeaderLinks(heap[..], lay, pool, End(), k - 1); }
      if pmem != mem && !IsUsed(pmem) {
        MergedLowest(lay, End(), k - 1);
        LowestFreeBelow(lay, End(), k - 1);
        if lfree == mem {
          lfree := pmem;
        }
        Absorb(pmem, mem, k - 1);
      }
    }

    // plug_holes
    method PlugHoles(mem: nat, ghost k: nat)
      requires Mirrored() && k < |lay| && lay[k].start == mem && !lay[k].used
      modifies this`lfree, this`lay, heap
      ensures Mirrored() && lay == Plugged(old(lay), k)
      ensures old(lfree) == LowestFree(old(lay), End()) ==> lfree == LowestFree(lay, End())
      ensures LiveKept(old(heap[..]), old(lay), heap[..])
    {
      ghost var l0, h0 := lay, heap[..];
      PlugAhead(mem, k);
      ghost var l1, h1 := lay, heap[..];
      PlugBack(mem, k);
      LiveKeptTrans(h0, l0, h1, l1, heap[..], k);
    }

    // The writes of the split.
    method WriteSplit(mem: nat, words: nat) returns (mem2: nat)
      requires pool % 2 == 0 && heap.Length == size + 2 * HEADER && mem + 1 < heap.Length
      requires mem + 2 * HEADER + words <= heap[mem + 1] <= End()
      modifies heap
      ensures mem2 == mem + HEADER + words
      ensures heap[..] == Split(old(heap[..]), pool, End(), mem, mem2, old(heap[mem + 1]))
    {
      mem2 := mem + HEADER + words;
      heap[mem2] := pool;
      heap[mem2 + 1] := heap[mem + 1];
      heap[mem2 + 2] := mem;
      heap[mem + 1] := mem2;
      if heap[mem2 + 1] != size + HEADER {
        heap[heap[mem2 + 1] + 2] := mem2;
      }
    }

    // The split shared by rt_smem_alloc and rt_smem_realloc.
    method SplitAt(mem: nat, words: nat, ghost k: nat) returns (mem2: nat)
      requires Mirrored() && k < |lay| && lay[k].start == mem && lay[k].len >= 2 * HEADER + words
      modifies this`lay, heap
      ensures mem2 == mem + HEADER + words
      ensures Mirrored() && lay == Halved(old(lay), k, words)
      ensures LiveKept(old(heap[..]), old(lay)[k := old(lay)[k].(used := false)], heap[..])
      ensures mem2 <= heap.Length && heap[..][mem + HEADER..mem2] == old(heap[..])[mem + HEADER..mem2]
    {
      ghost var h := heap[..];
      HeaderLinks(h, lay, pool, End(), k);
      mem2 := WriteSplit(mem, words);
      SplitFacts(h, lay, pool, End(), k, words, heap[..]);
      lay := Halved(lay, k, words);
    }

    // rt_smem_free. `k` is the caller's block; 0 stands for RT_NULL.
    method Free(rmem: nat, ghost k: nat)
      requires Valid()
      requires rmem != 0 ==> k < |lay| && lay[k].used && lay[k].start + HEADER == rmem
      modifies this, heap
      ensures Valid() && max == old(max)
      ensures rmem == 0 ==> lay == old(lay) && heap[..] == old(heap[..])
      ensures rmem != 0 ==>
        && lay == Freed(old(lay), k) && used == old(used) - old(lay)[k].len
        && LiveKept(old(heap[..]), old(lay)[k := old(lay)[k].(used := false)], heap[..])
    {
      if rmem == 0 {
        return;
      }
      var mem := rmem - HEADER;
      ghost var h := heap[..];
      HeaderLinks(h, lay, pool, End(), k);
      FlagMirrors(h, lay, pool, End(), k, false);
      UnusedLowest(lay, End(), k);
      FreedUsed(lay, k);
      FreedSound(lay, End(), k);
      heap[mem] := pool;
      lay := lay[k := lay[k].(used := false)];
      assert heap[..] == h[mem := pool];
      if mem < lfree {
        lfree := mem;
      }
      used := used - (heap[mem + 1] - mem);
      ghost var h1 := heap[..];
      PlugHoles(mem, k);
      LiveKeptOn(h, old(lay), h1, k, heap[..]);
    }

    // The search loop of rt_smem_alloc: k is the first block that fits, or none.
    method FindFit(words: nat) returns (found: bool, ptr: nat, ghost k: nat)
      requires Valid() && words <= size
      ensures k == FirstFit(lay, words, 0)
      ensures found <==> k < |lay|
      ensures found ==> ptr == lay[k].start
    {
      ptr := lfree;
      k := LowestFreeAt(lay, End());
      FirstFitFrom(lay, words, k);
      while ptr <= size - words
        invariant k <= |lay| && ptr == (if k < |lay| then lay[k].start else End())
        invariant FirstFit(lay, words, 0) == FirstFit(lay, words, k)
        decreases |lay| - k
      {
        HeaderLinks(heap[..], lay, pool, End(), k);
        if !IsUsed(ptr) && heap[ptr + 1] - (ptr + HEADER) >= words {
          found := true;
          return;
        }
        ptr := heap[ptr + 1];
        k := k + 1;
      }
      NothingFits(lay, End(), words, k);
      found := false;
      k := |lay|;
    }

    // lfree moves on to the next free block, or to the end marker.
    method AdvanceLfree(ghost i0: nat)
      requires Mirrored() && i0 < |lay| && lfree == lay[i0].start
      requires forall j :: 0 <= j < i0 ==> lay[j].used
      modifies this`lfree
      ensures lfree == LowestFree(lay, End())
    {
      ghost var i := i0;
      HeaderLinks(heap[..], lay, pool, End(), i);
      while IsUsed(lfree) && lfree != size + HEADER
        invariant i <= |lay| && lfree == (if i < |lay| then lay[i].start else End())
        invariant forall j :: 0 <= j < i ==> lay[j].used
        invariant lfree < heap.Length
        decreases |lay| - i
      {
        if i < |lay| { HeaderLinks(heap[..], lay, pool, End(), i); }
        lfree := heap[lfree + 1];
        i := i + 1;
        if i < |lay| { HeaderLinks(heap[..], lay, pool, End(), i); }
      }
      if i < |lay| { HeaderLinks(heap[..], lay, pool, End(), i); OrderedEnd(lay, End(), i); }
      LowestFreeIs(lay, End(), i);
    }
  
    // A block that is large enough is split; the accounts follow.
    method Carve(ptr: nat, words: nat, ghost k: nat)
      requires Valid() && k < |lay| && Fits(lay[k], words) && lay[k].start == ptr
      modifies this`used, this`max, this`lay, heap
      ensures Mirrored() && lay == Carved(old(lay), k, words)
      ensures used == UsedWords(Allocated(old(lay), k, words)) && max == Max(old(max), used)
      ensures LiveKept(old(heap[..]), old(lay), heap[..])
    {
      HeaderLinks(heap[..], lay, pool, End(), k);
      AllocatedUsed(lay, k, words);
      assert lay[k := lay[k].(used := false)] == lay;
      if heap[ptr + 1] - (ptr + HEADER) >= words + HEADER + MIN_DATA {
        var mem2 := SplitAt(ptr, words, k);
        used := used + (words + HEADER);
        if max < used {
          max := used;
        }
      } else {
        used := used + (heap[ptr + 1] - ptr);
        if max < used {
          max := used;
        }
      }
    }

    // The block is marked as used, and lfree moves on if it pointed there.
    method MarkUsed(ptr: nat, ghost k: nat)
      requires Mirrored() && k < |lay| && !lay[k].used && lay[k].start == ptr
      requires lfree == LowestFree(lay, End())
      modifies this`lfree, this`lay, heap
      ensures Mirrored() && lay == old(lay)[k := old(lay)[k].(used := true)]
      ensures lfree == LowestFree(lay, End())
      ensures LiveKept(old(heap[..]), old(lay), heap[..])
    {
      ghost var l1, h1 := lay, heap[..];
      HeaderLinks(h1, l1, pool, End(), k);
      ghost var i0 := LowestFreeAt(lay, End());
      assert Abuts(lay, End(), i0);
      Ordered(lay, End(), i0, k);
      FlagMirrors(h1, l1, pool, End(), k, true);
      heap[ptr] := pool + 1;
      lay := lay[k := lay[k].(used := true)];
      assert heap[..] == h1[ptr := pool + 1];
      if ptr == lfree {
        AdvanceLfree(k);
      } else {
        LowestFreeIs(lay, End(), i0);
      }
    }

    // The part of rt_smem_alloc that turns the block found into the caller's.
    method TakeBlock(ptr: nat, words: nat, ghost k: nat)
      requires Valid() && k < |lay| && Fits(lay[k], words) && lay[k].start == ptr
      modifies this, heap
      ensures Valid() && lay == Allocated(old(lay), k, words)
      ensures max == Max(old(max), used)
      ensures LiveKept(old(heap[..]), old(lay), heap[..])
    {
      ghost var l0, h0 := lay, heap[..];
      AllocatedSound(lay, End(), k, words);
      CarvedFacts(lay, End(), k, words);
      Carve(ptr, words, k);
      ghost var l1, h1 := lay, heap[..];
      MarkUsed(ptr, k);
      TakeBlockLive(h0, l0, h1, l1, heap[..], k, words);
    }

    // rt_smem_alloc: first fit over the whole heap, or RT_NULL.
    method Alloc(bytes: nat) returns (p: nat)
      requires Valid()
      modifies this, heap
      ensures Valid()
      ensures var w := Request(Words(bytes)); var k := FirstFit(old(lay), w, 0);
        if bytes == 0 || k == |old(lay)| then
          p == 0 && heap[..] == old(heap[..]) && lay == old(lay) && used == old(used) && max == old(max)
        else
          && p == old(lay)[k].start + HEADER
          && lay == Allocated(old(lay), k, w)
          && max == Max(old(max), used)
          && LiveKept(old(heap[..]), old(lay), heap[..])
      ensures ServedInBytes(old(lay), lay, bytes, p)
    {
      if bytes == 0 {
        return 0;
      }
      FirstFitInBytes(lay, End(), bytes);
      var words := Words(bytes);
      if words < MIN_DATA {
        words := MIN_DATA;
      }
      if words > size {
        NothingFits(lay, End(), words, 0);
        return 0;
      }
      var found, ptr, k := FindFit(words);
      if found {
        TakeBlock(ptr, words, k);
        return ptr + HEADER;
      }
      return 0;
    }
  
    // rt_memcpy between stretches that do not overlap
    method CopyWords(to: nat, from: nat, n: nat)
      requires to + n <= heap.Length && from + n <= heap.Length && (to + n <= from || from + n <= to)
      modifies heap
      ensures heap[to..to + n] == old(heap[from..from + n])
      ensures forall x :: 0 <= x < heap.Length && !(to <= x < to + n) ==> heap[x] == old(heap[x])
    {
      var i := 0;
      while i < n
        invariant i <= n
        invariant heap[to..to + i] == old(heap[from..from + i])
        invariant forall x :: 0 <= x < heap.Length && !(to <= x < to + i) ==> heap[x] == old(heap[x])
      {
        assert !(to <= from + i < to + i);
        heap[to + i] := heap[from + i];
        i := i + 1;
      }
    }

    // rt_memcpy into the data of block k
    method Copy(to: nat, from: nat, n: nat, ghost k: nat)
      requires Valid() && k < |lay| && lay[k].used && lay[k].start + HEADER == to
      requires n + HEADER <= lay[k].len
      requires from + n <= heap.Length && (from + n <= lay[k].start || lay[k].start + lay[k].len <= from)
      modifies heap
      ensures Valid()
      ensures to + n <= heap.Length && heap[to..to + n] == old(heap[from..from + n])
      ensures LiveKept(old(heap[..]), lay[k := lay[k].(used := false)], heap[..])
    {
      hide Mirrors, LiveKept, NoHoles, LowestFree, UsedWords;
      ghost var h := heap[..];
      HeaderLinks(h, lay, pool, End(), k);
      CopyWords(to, from, n);
      DataWritten(h, heap[..], lay, pool, End(), k);
    }

    // rt_smem_realloc, the branch that cuts the block short: accounts and split.
    method CutShort(mem: nat, words: nat, ghost k: nat) returns (mem2: nat)
      requires Valid() && k < |lay| && lay[k].used && lay[k].start == mem
      requires lay[k].len >= words + 2 * HEADER
      modifies this`used, this`lfree, this`lay, heap
      ensures Mirrored() && lay == Cut(old(lay), k, words, true)
      ensures mem2 == mem + HEADER + words && lfree == LowestFree(lay, End())
      ensures used == old(used) - (old(lay)[k].len - HEADER - words)
      ensures LiveKept(old(heap[..]), old(lay)[k := old(lay)[k].(used := false)], heap[..])
      ensures mem2 <= heap.Length && heap[..][mem + HEADER..mem2] == old(heap[..])[mem + HEADER..mem2]
    {
      HeaderLinks(heap[..], lay, pool, End(), k);
      FreedUsed(lay, k);
      CutLowest(lay, End(), k, words);
      used := used - ((heap[mem + 1] - mem - HEADER) - words);
      mem2 := SplitAt(mem, words, k);
      if mem2 < lfree {
        lfree := mem2;
      }
    }

    method Shrink(rmem: nat, words: nat, ghost k: nat)
      requires Valid() && k < |lay| && lay[k].used && lay[k].start + HEADER == rmem
      requires lay[k].len >= words + 2 * HEADER
      modifies this`used, this`lfree, this`lay, heap
      ensures Valid()
      ensures lay == Shrunk(old(lay), k, words)
      ensures LiveKept(old(heap[..]), old(lay)[k := old(lay)[k].(used := false)], heap[..])
      ensures rmem + words <= heap.Length && heap[..][rmem..rmem + words] == old(heap[..])[rmem..rmem + words]
    {
      ghost var l0, h0 := lay, heap[..];
      ShrunkFacts(lay, End(), k, words);
      var mem2 := CutShort(rmem - HEADER, words, k);
      ghost var h1 := heap[..];
      PlugHoles(mem2, k + 1);
      ShrinkLive(h0, l0, h1, heap[..], k, words, End());
    }

    // Copy what fits of block k into block f, and free block k.
    method Transfer(rmem: nat, p: nat, n: nat, ghost k: nat, ghost f: nat)
      requires Valid() && k < |lay| && f < |lay| && k != f && lay[k].used && lay[f].used
      requires lay[k].start + HEADER == rmem && lay[f].start + HEADER == p
      requires n + HEADER <= lay[k].len && n + HEADER <= lay[f].len
      modifies this, heap
      ensures Valid() && max == old(max) && lay == Freed(old(lay), k)
      ensures LiveKept(
        old(heap[..]), old(lay)[f := old(lay)[f].(used := false)][k := old(lay)[k].(used := false)], heap[..])
      ensures Carried(old(heap[..]), rmem, heap[..], p, n)
    {
      ghost var h0, l1 := heap[..], lay;
      Apart(lay, End(), f, k);
      Copy(p, rmem, n, f);
      ghost var h1 := heap[..];
      assert h1[p..p + n] == h0[rmem..rmem + n];
      Free(rmem, k);
      TransferLive(h0, l1, h1, heap[..], k, f, n);
    }

    // How many words of data the block has.
    method DataSize(rmem: nat, ghost k: nat) returns (n: nat)
      requires Mirrored() && k < |lay| && lay[k].start + HEADER == rmem
      ensures lay[k].len == n + HEADER && lay[k].start + lay[k].len <= heap.Length
    {
      HeaderLinks(heap[..], lay, pool, End(), k);
      n := heap[rmem - HEADER + 1] - rmem;
    }

    // Allocate a block, keeping track of the caller's own.
    method AllocBeside(words: nat, ghost k: nat) returns (p: nat, ghost f: nat, ghost k1: nat)
      requires Valid() && k < |lay| && lay[k].used && words > 0
      modifies this, heap
      ensures Valid() && f == FirstFit(old(lay), Request(words), 0)
      ensures f == |old(lay)| ==>
        p == 0 && heap[..] == old(heap[..]) && lay == old(lay) && used == old(used) && max == old(max)
      ensures f < |old(lay)| ==>
        && p == old(lay)[f].start + HEADER
        && lay == Allocated(old(lay), f, Request(words)) && k1 == Shifted(old(lay), f, Request(words), k)
        && k1 < |lay| && k1 != f && f != k && lay[k1] == old(lay)[k]
        && f < |lay| && lay[f].used && lay[f].start + HEADER == p && lay[f].len >= HEADER + words
        && max == Max(old(max), UsedWords(lay))
        && LiveKept(old(heap[..]), old(lay), heap[..])
    {
      f := FirstFit(lay, Request(words), 0);
      k1 := k;
      assert Words(4 * words) == words;
      if f < |lay| {
        k1 := Shifted(lay, f, Request(words), k);
        AllocatedKeeps(lay, f, Request(words), k);
      }
      p := Alloc(4 * words);
    }

    // rt_smem_realloc, the branch that moves the data to a block found for it.
    method Move(rmem: nat, words: nat, ghost k: nat) returns (p: nat)
      requires Valid() && k < |lay| && lay[k].used && lay[k].start + HEADER == rmem && words > 0
      modifies this, heap
      ensures Valid() && old(max) <= max
      ensures var f := FirstFit(old(lay), Request(words), 0);
        if f == |old(lay)| then
          p == 0 && heap[..] == old(heap[..]) && lay == old(lay) && used == old(used) && max == old(max)
        else
          && p == old(lay)[f].start + HEADER && lay == Moved(old(lay), f, Request(words), k)
          && max == Max(old(max), UsedWords(Allocated(old(lay), f, Request(words))))
      ensures DataMoved(old(heap[..]), old(lay), k, heap[..], p, words)
    {
      hide LiveKept, Mirrors, NoHoles, LowestFree, UsedWords;
      ghost var l0, h0 := lay, heap[..];
      var n := DataSize(rmem, k);
      ghost var f, k1;
      p, f, k1 := AllocBeside(words, k);
      if p == 0 {
        Untouched(h0, l0, k, words);
        return;
      }
      ghost var l1, h1 := lay, heap[..];
      Transfer(rmem, p, if n < words then n else words, k1, f);
      MoveLive(h0, l0, h1, l1, heap[..], k, k1, f, Request(words), Min(n, words), words);
    }

    // rt_smem_realloc of a live block to a size that is neither 0 nor absurd
    method Resize(rmem: nat, words: nat, ghost k: nat) returns (p: nat)
      requires Valid() && k < |lay| && lay[k].used && lay[k].start + HEADER == rmem && 0 < words <= size
      modifies this, heap
      ensures Valid() && max == Max(old(max), ReallocPeak(old(lay), size, k, words))
      ensures p == ReallocatedAt(old(lay), size, k, words) && lay == Reallocated(old(lay), size, k, words)
      ensures p == 0 ==> heap[..] == old(heap[..]) && lay == old(lay)
      ensures DataMoved(old(heap[..]), old(lay), k, heap[..], p, words)
    {
      var have := DataSize(rmem, k);
      if have == words {
        return rmem;
      }
      if words + HEADER + MIN_DATA < have {
        Shrink(rmem, words, k);
        return rmem;
      }
      p := Move(rmem, words, k);
    }

    // rt_smem_realloc
    method Realloc(rmem: nat, bytes: nat, ghost k: nat) returns (p: nat)
      requires Valid()
      requires rmem != 0 ==> k < |lay| && lay[k].used && lay[k].start + HEADER == rmem
      modifies this, heap
      ensures Valid()
      ensures p == 0 && bytes != 0 ==> heap[..] == old(heap[..]) && lay == old(lay)
      ensures max == Max(old(max), if rmem == 0 then used else ReallocPeak(old(lay), size, k, Words(bytes)))
      ensures rmem == 0 ==>
        var w := Request(Words(bytes)); var f := FirstFit(old(lay), w, 0);
        if Words(bytes) == 0 || Words(bytes) > size || f == |old(lay)| then
          p == 0 && heap[..] == old(heap[..]) && lay == old(lay)
        else
          lay == Allocated(old(lay), f, w) && p == old(lay)[f].start + HEADER
      ensures rmem == 0 ==> LiveKept(old(heap[..]), old(lay), heap[..])
      ensures rmem != 0 ==>
        && lay == Reallocated(old(lay), size, k, Words(bytes))
        && p == ReallocatedAt(old(lay), size, k, Words(bytes))
        && DataMoved(old(heap[..]), old(lay), k, heap[..], p, Words(bytes))
      ensures rmem == 0 ==> ServedInBytes(old(lay), lay, bytes, p)
      ensures rmem != 0 ==> ResizedInBytes(old(lay), size, k, lay, bytes, p)
      ensures rmem != 0 && p != 0 ==> BytesMoved(old(heap[..]), rmem, 4 * Room(old(lay)[k]), heap[..], p, bytes)
    {
      hide ServedInBytes, ResizedInBytes, BytesMoved, NoHoles, LowestFree, UsedWords;
      ghost var l0, h0 := lay, heap[..];
      if bytes > 0 { FirstFitInBytes(lay, End(), bytes); }
      if rmem != 0 { ResizeInBytes(lay, size, k, bytes); }
      var words := Words(bytes);
      if words > size {
        NothingFits(lay, End(), Request(words), 0);
        RefusedInBytes(lay, bytes);
        return 0;
      } else if words == 0 {
        RefusedInBytes(lay, bytes);
        Free(rmem, k);
        return 0;
      }
      if rmem == 0 {
        assert Words(4 * words) == words;
        p := Alloc(4 * words);
        if p == 0 { RefusedInBytes(l0, bytes); }
      } else {
        p := Resize(rmem, words, k);
        if p != 0 { MovedInBytes(h0, l0, k, heap[..], p, bytes); }
      }
    }
  }

  // Block k has moved to p, where it is `words` long (or has gone, if p is 0):
  // what fits of its data is there, and the other live blocks are untouched.
  ghost predicate DataMoved(h0: seq<int>, l0: seq<Block>, k: nat, h1: seq<int>, p: nat, words: nat)
    requires k < |l0|
  {
    && LiveKept(h0, l0[k := l0[k].(used := false)], h1)
    && (p != 0 ==> Carried(h0, l0[k].start + HEADER, h1, p, Min(Room(l0[k]), words)))
  }

  function Room(b: Block): nat {
    if b.len < HEADER then 0 else b.len - HEADER
  }

  // The n words at p in h are the n words at p' in h'.
  ghost predicate Carried(h: seq<int>, p: nat, h': seq<int>, p': nat, n: nat) {
    p + n <= |h| && p' + n <= |h'| && h[p..p + n] == h'[p'..p' + n]
  }

  // Where block k stands once block f has been allocated.
  function Shifted(lay: seq<Block>, f: nat, words: nat, k: nat): nat
    requires f < |lay| && Fits(lay[f], words)
  {
    if f < k then k + (|Allocated(lay, f, words)| - |lay|) else k
  }

  function Moved(lay: seq<Block>, f: nat, words: nat, k: nat): seq<Block>
    requires f < |lay| && Fits(lay[f], words) && k < |lay|
  {
    var l1 := Allocated(lay, f, words);
    Freed(l1, Shifted(lay, f, words, k))
  }

  // The layout and the address that realloc of block k to `words` words gives.
  function Reallocated(lay: seq<Block>, size: nat, k: nat, words: nat): seq<Block>
    requires k < |lay|
  {
    var have := Room(lay[k]);
    var f := FirstFit(lay, Request(words), 0);
    if words == 0 then Freed(lay, k)
    else if words > size || have == words then lay
    else if words + HEADER + MIN_DATA < have then Shrunk(lay, k, words)
    else if f == |lay| then lay
    else Moved(lay, f, Request(words), k)
  }

  function ReallocatedAt(lay: seq<Block>, size: nat, k: nat, words: nat): nat
    requires k < |lay|
  {
    var have := Room(lay[k]);
    var f := FirstFit(lay, Request(words), 0);
    if words == 0 || words > size then 0
    else if have == words || words + HEADER + MIN_DATA < have then lay[k].start + HEADER
    else if f == |lay| then 0
    else lay[f].start + HEADER
  }

  // The most that is in use at any moment of that realloc.
  function ReallocPeak(lay: seq<Block>, size: nat, k: nat, words: nat): nat
    requires k < |lay|
  {
    var f := FirstFit(lay, Request(words), 0);
    if 0 < words <= size && words != Room(lay[k]) && words + HEADER + MIN_DATA >= Room(lay[k]) && f < |lay| then
      UsedWords(Allocated(lay, f, Request(words)))
    else
      UsedWords(lay)
  }

  lemma AllocatedKeeps(lay: seq<Block>, f: nat, words: nat, k: nat)
    requires f < |lay| && Fits(lay[f], words) && k < |lay| && k != f
    ensures var k1 := Shifted(lay, f, words, k); var r := Allocated(lay, f, words);
      k1 < |r| && k1 != f && r[k1] == lay[k] && r[f].used && r[f].start == lay[f].start && r[f].len >= HEADER + words
  {}

  // What realloc hands out is a live block with room for the request, and the
  // heap stays sound. Every other live block is still there.
  lemma ReallocatedSound(lay: seq<Block>, size: nat, k: nat, words: nat)
    requires Sound(lay, size + HEADER) && k < |lay| && lay[k].used
    ensures HEADER <= lay[k].len
    ensures Sound(Reallocated(lay, size, k, words), size + HEADER)
    ensures var p := ReallocatedAt(lay, size, k, words);
      p != 0 ==> exists b :: Holds(Reallocated(lay, size, k, words), p, words, b)
    ensures forall b :: b in lay && b.used && b != lay[k] ==> b in Reallocated(lay, size, k, words)
  {
    assert Abuts(lay, size + HEADER, k);
    var r := Reallocated(lay, size, k, words);
    var f := FirstFit(lay, Request(words), 0);
    if words == 0 {
      FreedSound(lay, size + HEADER, k);
    } else if words + HEADER + MIN_DATA < Room(lay[k]) {
      ShrunkSound(lay, size + HEADER, k, words);
    } else if f < |lay| {
      AllocatedSound(lay, size + HEADER, f, Request(words));
      AllocatedKeeps(lay, f, Request(words), k);
      FreedSound(Allocated(lay, f, Request(words)), size + HEADER, Shifted(lay, f, Request(words), k));
    }
    forall b | b in lay && b.used && b != lay[k] ensures b in r { ReallocatedLive(lay, size, k, words, b); }
    ReallocatedBlock(lay, size, k, words);
  }

  lemma ReallocatedLive(lay: seq<Block>, size: nat, k: nat, words: nat, b: Block)
    requires Sound(lay, size + HEADER) && k < |lay| && lay[k].used
    requires b in lay && b.used && b != lay[k]
    ensures b in Reallocated(lay, size, k, words)
  {
    var f := FirstFit(lay, Request(words), 0);
    if words == 0 {
      FreedLive(lay, size + HEADER, k, b);
    } else if words > size || Room(lay[k]) == words {
    } else if words + HEADER + MIN_DATA < Room(lay[k]) {
      CutLive(lay, k, words, b);
      PluggedLive(Cut(lay, k, words, true), k + 1, b);
    } else if f < |lay| {
      AllocatedKeeps(lay, f, Request(words), k);
      AllocatedLive(lay, f, Request(words), b);
      AllocatedSound(lay, size + HEADER, f, Request(words));
      FreedLive(Allocated(lay, f, Request(words)), size + HEADER, Shifted(lay, f, Request(words), k), b);
    }
  }

  lemma CutLive(lay: seq<Block>, k: nat, words: nat, b: Block)
    requires k < |lay| && lay[k].len >= 2 * HEADER + words && b in lay && b != lay[k]
    ensures b in Cut(lay, k, words, true)
  {
    CutAt(lay, k, words, true);
    var i :| 0 <= i < |lay| && lay[i] == b;
    assert Cut(lay, k, words, true)[if i < k then i else i + 1] == b;
  }

  ghost predicate Holds(lay: seq<Block>, p: nat, words: nat, b: Block) {
    && b in lay && b.used && b.start + HEADER == p
    && HEADER + words <= b.len < 2 * HEADER + MIN_DATA + Request(words)
  }

  lemma ReallocatedBlock(lay: seq<Block>, size: nat, k: nat, words: nat)
    requires Sound(lay, size + HEADER) && k < |lay| && lay[k].used
    ensures var p := ReallocatedAt(lay, size, k, words);
      p != 0 ==> exists b :: Holds(Reallocated(lay, size, k, words), p, words, b)
  {
    assert Abuts(lay, size + HEADER, k);
    var p := ReallocatedAt(lay, size, k, words);
    var r := Reallocated(lay, size, k, words);
    var f := FirstFit(lay, Request(words), 0);
    if p != 0 {
      if words == Room(lay[k]) {
        assert Holds(r, p, words, lay[k]);
      } else if words + HEADER + MIN_DATA < Room(lay[k]) {
        CutAt(lay, k, words, true);
        var l1 := Cut(lay, k, words, true);
        PluggedLive(l1, k + 1, l1[k]);
        assert Holds(r, p, words, l1[k]);
      } else {
        MovedBlock(lay, size + HEADER, f, Request(words), k);
        assert Holds(r, p, words, Allocated(lay, f, Request(words))[f]);
      }
    }
  }

  lemma MovedBlock(lay: seq<Block>, end: nat, f: nat, words: nat, k: nat)
    requires Sound(lay, end) && k < |lay| && lay[k].used && f < |lay| && Fits(lay[f], words)
    ensures Holds(Moved(lay, f, words, k), lay[f].start + HEADER, words, Allocated(lay, f, words)[f])
  {
    var l1 := Allocated(lay, f, words);
    var k1 := Shifted(lay, f, words, k);
    AllocatedSound(lay, end, f, words);
    AllocatedKeeps(lay, f, words, k);
    Apart(l1, end, f, k1);
    assert Abuts(l1, end, f) && Abuts(l1, end, k1);
    FreedLive(l1, end, k1, l1[f]);
  }

  lemma ShrunkFacts(lay: seq<Block>, end: nat, k: nat, words: nat)
    requires Sound(lay, end) && k < |lay| && lay[k].used && lay[k].len >= words + 2 * HEADER
    ensures var r := Cut(lay, k, words, true);
      k + 1 < |r| && !r[k + 1].used && r[k + 1].start == lay[k].start + HEADER + words
    ensures NoHoles(Shrunk(lay, k, words))
    ensures UsedWords(Shrunk(lay, k, words)) == UsedWords(lay) - (lay[k].len - HEADER - words)
    ensures lay[k].start + lay[k].len <= end
  {
    CutAt(lay, k, words, true);
    ShrunkSound(lay, end, k, words);
    ShrunkUsed(lay, k, words);
    OrderedEnd(lay, end, k);
  }

  lemma Untouched(h: seq<int>, lay: seq<Block>, k: nat, words: nat)
    requires k < |lay|
    ensures DataMoved(h, lay, k, h, 0, words)
  {}

  lemma TransferLive(h0: seq<int>, lay: seq<Block>, h1: seq<int>, h2: seq<int>, k: nat, f: nat, n: nat)
    requires k < |lay| && f < |lay| && k != f && lay[f].used && n + HEADER <= lay[f].len
    requires lay[f].start + lay[f].len <= |h0|
    requires LiveKept(h0, lay[f := lay[f].(used := false)], h1)
    requires LiveKept(h1, lay[k := lay[k].(used := false)], h2)
    ensures LiveKept(h0, lay[f := lay[f].(used := false)][k := lay[k].(used := false)], h2)
    ensures Carried(h1, lay[f].start + HEADER, h2, lay[f].start + HEADER, n)
  {
    var a, b := lay[f := lay[f].(used := false)], lay[k := lay[k].(used := false)];
    var d := a[k := lay[k].(used := false)];
    forall j | 0 <= j < |d| ensures KeptAt(h0, d, h2, j) {
      assert KeptAt(h0, a, h1, j) && KeptAt(h1, b, h2, j);
    }
    assert KeptAt(h1, b, h2, f);
    DataPrefix(h1, h2, lay[f], n);
  }

  // Allocate, copy and free, seen from the callers' data.
  lemma MoveLive(h0: seq<int>, l0: seq<Block>, h1: seq<int>, l1: seq<Block>, h2: seq<int>,
    k: nat, k1: nat, f: nat, words: nat, n: nat, size: nat)
    requires k < |l0| && l0[k].used && f < |l0| && Fits(l0[f], words) && HEADER + n <= l0[k].len
    requires l0[k].start + l0[k].len <= |h0| && LiveKept(h0, l0, h1)
    requires k != f && l1 == Allocated(l0, f, words) && k1 == Shifted(l0, f, words, k) && k1 < |l1| && f < |l1|
    requires LiveKept(h1, l1[f := l1[f].(used := false)][k1 := l1[k1].(used := false)], h2)
    requires Carried(h1, l0[k].start + HEADER, h2, l0[f].start + HEADER, n)
    requires n == Min(Room(l0[k]), size)
    ensures DataMoved(h0, l0, k, h2, l0[f].start + HEADER, size)
  {
    var d, e := l0[k := l0[k].(used := false)], l1[f := l1[f].(used := false)][k1 := l1[k1].(used := false)];
    forall j | 0 <= j < |d| ensures KeptAt(h0, d, h2, j) {
      if j != k && l0[j].used {
        AllocatedKeeps(l0, f, words, j);
        assert KeptAt(h0, l0, h1, j);
        assert KeptAt(h1, e, h2, Shifted(l0, f, words, j));
      }
    }
    assert KeptAt(h0, l0, h1, k);
    DataPrefix(h0, h1, l0[k], n);
  }

  lemma DataPrefix(h: seq<int>, h': seq<int>, b: Block, m: nat)
    requires HEADER + m <= b.len && b.start + b.len <= |h| == |h'| && Data(h, b) == Data(h', b)
    ensures var p := b.start + HEADER; h[p..p + m] == h'[p..p + m]
  {
    var p := b.start + HEADER;
    assert h[p..p + m] == h[p..b.start + b.len][..m];
    assert h'[p..p + m] == h'[p..b.start + b.len][..m];
  }

  // Writing inside one block's data disturbs nothing else.
  lemma DataWritten(h: seq<int>, h': seq<int>, lay: seq<Block>, pool: int, end: nat, k: nat)
    requires Mirrors(h, lay, pool, end) && k < |lay| && |h'| == |h|
    requires forall x :: 0 <= x < |h| && !(lay[k].start + HEADER <= x < lay[k].start + lay[k].len) ==> h'[x] == h[x]
    ensures Mirrors(h', lay, pool, end) && LiveKept(h, lay[k := lay[k].(used := false)], h')
  {
    HeaderLinks(h, lay, pool, end, k);
    forall j | 0 <= j < |lay| ensures HeaderAt(h', lay, pool, j) {
      HeaderLinks(h, lay, pool, end, j);
      Apart(lay, end, j, k);
      assert Abuts(lay, end, j);
    }
    var l0 := lay[k := lay[k].(used := false)];
    forall j | 0 <= j < |l0| ensures KeptAt(h, l0, h', j) {
      Apart(lay, end, j, k);
    }
  }

  // Data of the block that shrinks, and of all others, across split and plug.
  lemma ShrinkLive(h0: seq<int>, l0: seq<Block>, h1: seq<int>, h2: seq<int>, k: nat, words: nat, end: nat)
    requires Tiled(l0, end) && end <= |h0|
    requires k < |l0| && l0[k].used && l0[k].len >= words + 2 * HEADER && |h0| == |h1|
    requires LiveKept(h0, l0[k := l0[k].(used := false)], h1) && LiveKept(h1, Cut(l0, k, words, true), h2)
    requires var p := l0[k].start + HEADER; p + words <= |h0| && h1[p..p + words] == h0[p..p + words]
    ensures LiveKept(h0, l0[k := l0[k].(used := false)], h2)
    ensures var p := l0[k].start + HEADER; h2[p..p + words] == h0[p..p + words]
  {
    CutAt(l0, k, words, l0[k].used);
    var l1 := Cut(l0, k, words, true);
    var d := l0[k := l0[k].(used := false)];
    forall j | 0 <= j < |d| ensures KeptAt(h0, d, h2, j) {
      assert KeptAt(h0, d, h1, j);
      assert KeptAt(h1, l1, h2, if j < k then j else j + 1);
    }
    assert KeptAt(h1, l1, h2, k);
  }

  // The layout between the split and the marking.
  function Carved(lay: seq<Block>, k: nat, words: nat): seq<Block>
    requires k < |lay| && Fits(lay[k], words)
  {
    if lay[k].len >= words + 2 * HEADER + MIN_DATA then Halved(lay, k, words) else lay
  }

  lemma CarvedFacts(lay: seq<Block>, end: nat, k: nat, words: nat)
    requires Tiled(lay, end) && k < |lay| && Fits(lay[k], words)
    ensures var r := Carved(lay, k, words);
      && k < |r| && !r[k].used && r[k].start == lay[k].start
      && r[k := r[k].(used := true)] == Allocated(lay, k, words)
      && LowestFree(r, end) == LowestFree(lay, end)
  {
    var r := Carved(lay, k, words);
    var i := LowestFreeAt(lay, end);
    if r != lay {
      HalvedAt(lay, end, k, words);
      CutAt(lay, k, words, true);
      assert r[k := r[k].(used := true)] == Cut(lay, k, words, true);
    }
    LowestFreeIs(r, end, i);
  }

  // Splitting and marking the block found leaves every live block alone.
  lemma TakeBlockLive(h0: seq<int>, l0: seq<Block>, h1: seq<int>, l1: seq<Block>, h2: seq<int>, k: nat, words: nat)
    requires k < |l0| && Fits(l0[k], words) && |h0| == |h1|
    requires LiveKept(h0, l0, h1) && LiveKept(h1, l1, h2)
    requires l1 == Carved(l0, k, words)
    ensures LiveKept(h0, l0, h2)
  {
    forall j | 0 <= j < |l0| ensures KeptAt(h0, l0, h2, j) {
      assert KeptAt(h0, l0, h1, j);
      if l1 != l0 {
        CutAt(l0, k, words, l0[k].used);
        assert KeptAt(h1, l1, h2, if j < k then j else j + 1);
      } else {
        assert KeptAt(h1, l1, h2, j);
      }
    }
  }

  // A size in bytes, aligned up, in words.
  function Words(bytes: nat): nat {
    (bytes + 3) / 4
  }

  // What rt_smem_alloc reserves for a request: at least MIN_DATA.
  function Request(words: nat): nat {
    if words < MIN_DATA then MIN_DATA else words
  }

  // --- in bytes ----------------------------------------------------------------------

  // Block b is live, its data begin at p, and there is room for so many bytes, but
  // not for 36 more.
  predicate Gives(b: Block, p: nat, bytes: nat) {
    b.used && b.start + HEADER == p && bytes <= 4 * (b.len - HEADER) < bytes + 36
  }

  // A free block in which so many bytes, and at least 12, have room.
  predicate CouldServe(b: Block, bytes: nat) {
    !b.used && 4 * (b.len - HEADER) >= bytes && 4 * (b.len - HEADER) >= 12
  }

  ghost predicate NoneServes(lay: seq<Block>, bytes: nat) {
    forall i :: 0 <= i < |lay| ==> !CouldServe(lay[i], bytes)
  }

  // The request was refused for good reason, or p is a live block that gives so many
  // bytes, in the lowest place that could.
  ghost predicate ServedInBytes(l0: seq<Block>, l1: seq<Block>, bytes: nat, p: nat) {
    && (p == 0 <==> bytes == 0 || NoneServes(l0, bytes))
    && (p != 0 ==> exists b :: b in l1 && Gives(b, p, bytes))
    && (p != 0 ==> forall i :: 0 <= i < |l0| && CouldServe(l0[i], bytes) ==> p <= l0[i].start + HEADER)
  }

  // The block is as long as it has to be already, or so much longer that what is cut
  // off can be a block of its own.
  predicate KeepsPlace(b: Block, bytes: nat) {
    bytes <= 4 * (b.len - HEADER) < bytes + 4 || bytes + 28 <= 4 * (b.len - HEADER)
  }

  ghost predicate ResizedInBytes(l0: seq<Block>, size: nat, k: nat, l1: seq<Block>, bytes: nat, p: nat)
    requires k < |l0|
  {
    && (p == 0 <==> bytes == 0 || bytes > 4 * size || (!KeepsPlace(l0[k], bytes) && NoneServes(l0, bytes)))
    && (p != 0 ==> exists b :: b in l1 && Gives(b, p, bytes))
    && (p != 0 ==> (p == l0[k].start + HEADER <==> KeepsPlace(l0[k], bytes)))
  }

  // What there was in the old place, and has room in the new one.
  ghost predicate BytesMoved(h0: seq<int>, from: nat, had: nat, h1: seq<int>, to: nat, bytes: nat) {
    forall x: nat :: 4 * x < had && 4 * x < bytes ==> from + x < |h0| && to + x < |h1| && h1[to + x] == h0[from + x]
  }

  lemma FitsInBytes(b: Block, bytes: nat)
    requires bytes > 0
    ensures Fits(b, Request(Words(bytes))) <==> CouldServe(b, bytes)
  {}

  lemma FirstFitInBytes(lay: seq<Block>, end: nat, bytes: nat)
    requires Tiled(lay, end) && bytes > 0
    ensures var w := Request(Words(bytes)); var k := FirstFit(lay, w, 0);
      if k == |lay| then NoneServes(lay, bytes)
      else
        !NoneServes(lay, bytes) && ServedInBytes(lay, Allocated(lay, k, w), bytes, lay[k].start + HEADER)
  {
    var w := Request(Words(bytes));
    var k := FirstFit(lay, w, 0);
    forall i | 0 <= i < |lay| ensures Fits(lay[i], w) <==> CouldServe(lay[i], bytes) { FitsInBytes(lay[i], bytes); }
    if k < |lay| {
      var r := Allocated(lay, k, w);
      assert r[k] in r && Gives(r[k], lay[k].start + HEADER, bytes);
      forall i | 0 <= i < |lay| && CouldServe(lay[i], bytes) ensures lay[k].start <= lay[i].start {
        Ordered(lay, end, k, i);
      }
    }
  }

  lemma RefusedInBytes(lay: seq<Block>, bytes: nat)
    requires bytes == 0 || NoneServes(lay, bytes)
    ensures ServedInBytes(lay, lay, bytes, 0)
  {}

  lemma ResizeInBytes(lay: seq<Block>, size: nat, k: nat, bytes: nat)
    requires Sound(lay, size + HEADER) && k < |lay| && lay[k].used
    ensures var w := Words(bytes);
      ResizedInBytes(lay, size, k, Reallocated(lay, size, k, w), bytes, ReallocatedAt(lay, size, k, w))
  {
    var w := Words(bytes);
    var p, r := ReallocatedAt(lay, size, k, w), Reallocated(lay, size, k, w);
    assert Abuts(lay, size + HEADER, k);
    if bytes > 0 {
      FirstFitInBytes(lay, size + HEADER, bytes);
      var f := FirstFit(lay, Request(w), 0);
      if f < |lay| {
        Apart(lay, size + HEADER, f, k);
        assert Abuts(lay, size + HEADER, f);
      }
    }
    if p != 0 {
      ReallocatedBlock(lay, size, k, w);
      var b :| Holds(r, p, w, b);
      assert Gives(b, p, bytes);
    }
  }

  lemma MovedInBytes(h0: seq<int>, lay: seq<Block>, k: nat, h1: seq<int>, p: nat, bytes: nat)
    requires k < |lay| && p != 0 && DataMoved(h0, lay, k, h1, p, Words(bytes))
    ensures BytesMoved(h0, lay[k].start + HEADER, 4 * Room(lay[k]), h1, p, bytes)
  {
    var n, from := Min(Room(lay[k]), Words(bytes)), lay[k].start + HEADER;
    forall x: nat | 4 * x < 4 * Room(lay[k]) && 4 * x < bytes
      ensures from + x < |h0| && p + x < |h1| && h1[p + x] == h0[from + x]
    {
      assert x < n;
      assert h1[p..p + n][x] == h0[from..from + n][x];
    }
  }

  lemma {:induction false} FirstFitFrom(lay: seq<Block>, words: nat, i: nat)
    requires i <= |lay| && forall j :: 0 <= j < i ==> !Fits(lay[j], words)
    ensures FirstFit(lay, words, 0) == FirstFit(lay, words, i)
    decreases i
  {
    if i > 0 { FirstFitFrom(lay, words, i - 1); }
  }

  // Past size - words no block is long enough.
  lemma NothingFits(lay: seq<Block>, end: nat, words: nat, i: nat)
    requires Tiled(lay, end) && i <= |lay|
    requires i < |lay| ==> lay[i].start + words > end - HEADER
    ensures FirstFit(lay, words, i) == |lay|
  {
    var k := FirstFit(lay, words, i);
    if k < |lay| {
      Ordered(lay, end, i, k);
      assert false;
    }
  }
}
