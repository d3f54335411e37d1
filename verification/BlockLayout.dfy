// An allocator's heap as seen from outside: a stretch of memory cut into
// consecutive blocks. Offsets and lengths are counted in words of
// RT_ALIGN_SIZE = 4 bytes; a block's length includes its header. The figures
// are those of rt-thread/src/mem.c; rt-thread/src/memheap.c, whose headers are
// longer, uses the same layouts.

module BlockLayout {
  import opened Common

  const HEADER: nat := 3      // SIZEOF_STRUCT_MEM: pool_ptr, next, prev
  const MIN_DATA: nat := 3    // MIN_SIZE_ALIGNED

  datatype Block = Block(start: nat, len: nat, used: bool)

  // Where block i has to end.
  function Bound(lay: seq<Block>, end: nat, i: nat): nat {
    if i + 1 < |lay| then lay[i + 1].start else end
  }

  ghost predicate Abuts(lay: seq<Block>, end: nat, i: nat)
    requires i < |lay|
  {
    lay[i].len >= HEADER && lay[i].start + lay[i].len == Bound(lay, end, i)
  }

  ghost predicate Tiled(lay: seq<Block>, end: nat) {
    && lay != [] && lay[0].start == 0
    && forall i :: 0 <= i < |lay| ==> Abuts(lay, end, i)
  }

  ghost predicate Solid(lay: seq<Block>, i: nat)
    requires i + 1 < |lay|
  {
    lay[i].used || lay[i + 1].used
  }

  // No two neighbours are free.
  ghost predicate NoHoles(lay: seq<Block>) {
    forall i :: 0 <= i < |lay| - 1 ==> Solid(lay, i)
  }

  // Blocks lie in address order and inside the heap.
  lemma {:induction false} Ordered(lay: seq<Block>, end: nat, i: nat, j: nat)
    requires Tiled(lay, end) && i <= j < |lay|
    ensures lay[j].start + lay[j].len <= end
    ensures i < j ==> lay[i].start + lay[i].len <= lay[j].start
    decreases j - i
  {
    assert Abuts(lay, end, i) && Abuts(lay, end, j);
    OrderedEnd(lay, end, j);
    if i + 1 < j { assert Abuts(lay, end, i + 1); Ordered(lay, end, i + 1, j); }
  }

  lemma {:induction false} OrderedEnd(lay: seq<Block>, end: nat, j: nat)
    requires Tiled(lay, end) && j < |lay|
    ensures lay[j].start + lay[j].len <= end
    decreases |lay| - j
  {
    assert Abuts(lay, end, j);
    if j + 1 < |lay| { OrderedEnd(lay, end, j + 1); }
  }

  lemma Apart(lay: seq<Block>, end: nat, i: nat, j: nat)
    requires Tiled(lay, end) && i < |lay| && j < |lay|
    ensures lay[i].start + lay[i].len <= end && lay[j].start + lay[j].len <= end
    ensures i < j ==> lay[i].start + lay[i].len <= lay[j].start
    ensures j < i ==> lay[j].start + lay[j].len <= lay[i].start
  {
    if i <= j { Ordered(lay, end, i, j); }
    if j <= i { Ordered(lay, end, j, i); }
    OrderedEnd(lay, end, i);
  }

  // A block is known by its start.
  lemma StartsApart(lay: seq<Block>, end: nat, i: nat, j: nat)
    requires Tiled(lay, end) && i < |lay| && j < |lay| && lay[i].start == lay[j].start
    ensures i == j
  {
    Apart(lay, end, i, j);
    assert Abuts(lay, end, i) && Abuts(lay, end, j);
  }

  // --- operations ----------------------------------------------------------

  function Fits(b: Block, words: nat): bool {
    !b.used && b.len >= HEADER + words
  }

  // First fit, from block i on; |lay| when nothing fits.
  function FirstFit(lay: seq<Block>, words: nat, i: nat): (k: nat)
    requires i <= |lay|
    ensures i <= k <= |lay|
    ensures k < |lay| ==> Fits(lay[k], words)
    ensures forall j :: i <= j < k ==> !Fits(lay[j], words)
    decreases |lay| - i
  {
    if i == |lay| || Fits(lay[i], words) then i else FirstFit(lay, words, i + 1)
  }

  // Block k keeps `words` of data, and gets the flag u; what follows becomes a
  // free block of its own.
  function Cut(lay: seq<Block>, k: nat, words: nat, u: bool): seq<Block>
    requires k < |lay| && lay[k].len >= 2 * HEADER + words
  {
    var b := lay[k];
    lay[..k] + [Block(b.start, HEADER + words, u), Block(b.start + HEADER + words, b.len - HEADER - words, false)]
    + lay[k + 1..]
  }

  function Allocated(lay: seq<Block>, k: nat, words: nat): seq<Block>
    requires k < |lay| && Fits(lay[k], words)
  {
    if lay[k].len >= words + 2 * HEADER + MIN_DATA then Cut(lay, k, words, true)
    else lay[k := lay[k].(used := true)]
  }

  // Blocks k and k + 1 become one free block.
  function Merged(lay: seq<Block>, k: nat): seq<Block>
    requires k + 1 < |lay|
  {
    lay[..k] + [Block(lay[k].start, lay[k].len + lay[k + 1].len, false)] + lay[k + 2..]
  }

  // plug_holes around the free block k
  function Plugged(lay: seq<Block>, k: nat): seq<Block>
    requires k < |lay|
  {
    PluggedBack(PluggedAhead(lay, k), k)
  }

  function PluggedAhead(lay: seq<Block>, k: nat): (r: seq<Block>)
    requires k < |lay|
    ensures k < |r|
  {
    if k + 1 < |lay| && !lay[k + 1].used then Merged(lay, k) else lay
  }

  function PluggedBack(lay: seq<Block>, k: nat): seq<Block>
    requires k < |lay|
  {
    if k > 0 && !lay[k - 1].used then Merged(lay, k - 1) else lay
  }

  // Block k no longer counts as live.
  function Without(lay: seq<Block>, k: nat): seq<Block>
    requires k < |lay|
  {
    lay[k := lay[k].(used := false)]
  }

  function Freed(lay: seq<Block>, k: nat): seq<Block>
    requires k < |lay|
  {
    Plugged(Without(lay, k), k)
  }

  // realloc to a smaller size, when the rest is worth a block
  function Shrunk(lay: seq<Block>, k: nat, words: nat): seq<Block>
    requires k < |lay| && lay[k].len >= 2 * HEADER + words
  {
    Plugged(Cut(lay, k, words, true), k + 1)
  }

  // The lowest free block, or the end marker.
  function LowestFree(lay: seq<Block>, end: nat): (p: nat) {
    if lay == [] then end
    else if !lay[0].used then lay[0].start
    else LowestFree(lay[1..], end)
  }

  function UsedWords(lay: seq<Block>): nat {
    if lay == [] then 0
    else (if lay[0].used then lay[0].len else 0) + UsedWords(lay[1..])
  }

  // --- what the operations keep --------------------------------------------

  lemma CutAt(lay: seq<Block>, k: nat, words: nat, u: bool)
    requires k < |lay| && lay[k].len >= 2 * HEADER + words
    ensures var r := Cut(lay, k, words, u); var b := lay[k];
      && |r| == |lay| + 1
      && (forall i :: 0 <= i < k ==> r[i] == lay[i])
      && r[k] == Block(b.start, HEADER + words, u)
      && r[k + 1] == Block(b.start + HEADER + words, b.len - HEADER - words, false)
      && (forall i :: k + 1 < i < |r| ==> r[i] == lay[i - 1])
  {}

  lemma MergedAt(lay: seq<Block>, k: nat)
    requires k + 1 < |lay|
    ensures var r := Merged(lay, k);
      && |r| == |lay| - 1
      && (forall i :: 0 <= i < k ==> r[i] == lay[i])
      && r[k] == Block(lay[k].start, lay[k].len + lay[k + 1].len, false)
      && (forall i :: k < i < |r| ==> r[i] == lay[i + 1])
  {}

  lemma MarkedTiled(lay: seq<Block>, end: nat, k: nat, u: bool)
    requires Tiled(lay, end) && k < |lay|
    ensures Tiled(lay[k := lay[k].(used := u)], end)
  {
    var r := lay[k := lay[k].(used := u)];
    forall i | 0 <= i < |r| ensures Abuts(r, end, i) { assert Abuts(lay, end, i); }
  }

  lemma CutTiled(lay: seq<Block>, end: nat, k: nat, words: nat, u: bool)
    requires Tiled(lay, end) && k < |lay| && lay[k].len >= 2 * HEADER + words
    ensures Tiled(Cut(lay, k, words, u), end)
  {
    CutAt(lay, k, words, u);
    var r := Cut(lay, k, words, u);
    forall i | 0 <= i < |r| ensures Abuts(r, end, i) {
      var j := if i <= k then i else i - 1;
      assert Abuts(lay, end, j);
    }
  }

  lemma MergedTiled(lay: seq<Block>, end: nat, k: nat)
    requires Tiled(lay, end) && k + 1 < |lay|
    ensures Tiled(Merged(lay, k), end)
  {
    MergedAt(lay, k);
    var r := Merged(lay, k);
    forall i | 0 <= i < |r| ensures Abuts(r, end, i) {
      var j := if i < k then i else i + 1;
      assert Abuts(lay, end, j);
      assert Abuts(lay, end, k);
    }
  }

  lemma PluggedTiled(lay: seq<Block>, end: nat, k: nat)
    requires Tiled(lay, end) && k < |lay|
    ensures Tiled(Plugged(lay, k), end)
  {
    if k + 1 < |lay| && !lay[k + 1].used { MergedTiled(lay, end, k); }
    var l1 := PluggedAhead(lay, k);
    if k > 0 && !l1[k - 1].used { MergedTiled(l1, end, k - 1); }
  }

  // Around k there may be free neighbours; nowhere else.
  ghost predicate NoHolesBut(lay: seq<Block>, k: nat) {
    forall i :: 0 <= i < |lay| - 1 && i != k && i + 1 != k ==> Solid(lay, i)
  }

  lemma PluggedNoHoles(lay: seq<Block>, k: nat)
    requires k < |lay| && !lay[k].used
    requires NoHolesBut(lay, k)
    ensures NoHoles(Plugged(lay, k))
  {
    var l1 := PluggedAhead(lay, k);
    forall i | 0 <= i < |l1| - 1 && i + 1 != k ensures Solid(l1, i) {
      if l1 == lay { assert i != k ==> Solid(lay, i); }
      else {
        MergedAt(lay, k);
        assert if i < k then Solid(lay, i) else Solid(lay, i + 1);
      }
    }
    assert k > 0 ==> l1[k - 1] == lay[k - 1];
    var l2 := PluggedBack(l1, k);
    forall i | 0 <= i < |l2| - 1 ensures Solid(l2, i) {
      if l2 == l1 { assert i + 1 != k ==> Solid(l1, i); }
      else {
        MergedAt(l1, k - 1);
        assert if i < k - 1 then Solid(l1, i) else Solid(l1, i + 1);
      }
    }
  }

  // --- the invariant as one predicate --------------------------------------

  ghost predicate Sound(lay: seq<Block>, end: nat) {
    Tiled(lay, end) && NoHoles(lay)
  }

  lemma AllocatedSound(lay: seq<Block>, end: nat, k: nat, words: nat)
    requires Sound(lay, end) && k < |lay| && Fits(lay[k], words)
    ensures Sound(Allocated(lay, k, words), end)
  {
    if lay[k].len >= words + 2 * HEADER + MIN_DATA {
      CutAt(lay, k, words, true);
      CutTiled(lay, end, k, words, true);
      CutNoHoles(lay, k, words);
    } else {
      MarkedTiled(lay, end, k, true);
      var r := Allocated(lay, k, words);
      forall i | 0 <= i < |r| - 1 ensures Solid(r, i) { assert Solid(lay, i); }
    }
  }

  lemma CutNoHoles(lay: seq<Block>, k: nat, words: nat)
    requires NoHoles(lay) && k < |lay| && lay[k].len >= 2 * HEADER + words && !lay[k].used
    ensures NoHoles(Cut(lay, k, words, true))
  {
    CutAt(lay, k, words, true);
    var r := Cut(lay, k, words, true);
    forall i | 0 <= i < |r| - 1 ensures Solid(r, i) {
      if i < k - 1 {
        assert Solid(lay, i);
      } else if i > k {
        assert Solid(lay, i - 1);
      }
    }
  }

  lemma FreedSound(lay: seq<Block>, end: nat, k: nat)
    requires Sound(lay, end) && k < |lay|
    ensures Sound(Freed(lay, k), end)
  {
    var l0 := lay[k := lay[k].(used := false)];
    MarkedTiled(lay, end, k, false);
    PluggedTiled(l0, end, k);
    forall i | 0 <= i < |l0| - 1 && i != k && i + 1 != k ensures Solid(l0, i) { assert Solid(lay, i); }
    PluggedNoHoles(l0, k);
  }

  lemma ShrunkSound(lay: seq<Block>, end: nat, k: nat, words: nat)
    requires Sound(lay, end) && k < |lay| && lay[k].len >= 2 * HEADER + words && lay[k].used
    ensures Sound(Shrunk(lay, k, words), end)
  {
    var l0 := Cut(lay, k, words, true);
    CutAt(lay, k, words, true);
    CutTiled(lay, end, k, words, true);
    PluggedTiled(l0, end, k + 1);
    forall i | 0 <= i < |l0| - 1 && i != k + 1 && i + 1 != k + 1 ensures Solid(l0, i) {
      var j := if i < k then i else i - 1;
      assert Solid(lay, j);
    }
    PluggedNoHoles(l0, k + 1);
  }

  // --- accounting -----------------------------------------------------------

  lemma {:induction false} UsedWordsAppend(a: seq<Block>, b: seq<Block>)
    ensures UsedWords(a + b) == UsedWords(a) + UsedWords(b)
  {
    if a == [] { assert a + b == b; }
    else { assert (a + b)[1..] == a[1..] + b; UsedWordsAppend(a[1..], b); }
  }

  function FreeSpan(lay: seq<Block>): nat {
    if lay == [] then 0 else (if lay[0].used then 0 else lay[0].len) + FreeSpan(lay[1..])
  }

  // Conservation: what is in use and what is free make up the heap.
  lemma {:induction false} UsedAndFree(lay: seq<Block>, from: nat, end: nat)
    requires (lay == [] ==> from == end) && (lay != [] ==> lay[0].start == from)
    requires forall i :: 0 <= i < |lay| ==> Abuts(lay, end, i)
    ensures UsedWords(lay) + FreeSpan(lay) == end - from
  {
    if lay != [] {
      var rest := lay[1..];
      assert Abuts(lay, end, 0);
      forall i | 0 <= i < |rest| ensures Abuts(rest, end, i) { assert Abuts(lay, end, i + 1); }
      UsedAndFree(rest, if rest == [] then end else rest[0].start, end);
    }
  }

  function Charge(b: Block): nat {
    if b.used then b.len else 0
  }

  // The charge of one stretch replaced by another.
  lemma UsedWordsSplice(a: seq<Block>, x: seq<Block>, y: seq<Block>, b: seq<Block>)
    ensures UsedWords(a + y + b) == UsedWords(a + x + b) - UsedWords(x) + UsedWords(y)
  {
    UsedWordsAppend(a + x, b); UsedWordsAppend(a, x);
    UsedWordsAppend(a + y, b); UsedWordsAppend(a, y);
  }

  lemma UsedWordsSingle(b: Block)
    ensures UsedWords([b]) == Charge(b)
  {}

  lemma UsedWordsOne(lay: seq<Block>, k: nat, y: seq<Block>)
    requires k < |lay|
    ensures UsedWords(lay[..k] + y + lay[k + 1..]) == UsedWords(lay) - Charge(lay[k]) + UsedWords(y)
  {
    assert lay == lay[..k] + [lay[k]] + lay[k + 1..];
    UsedWordsSplice(lay[..k], [lay[k]], y, lay[k + 1..]);
    assert UsedWords([lay[k]]) == Charge(lay[k]);
  }

  lemma UsedWordsUpdate(lay: seq<Block>, k: nat, b: Block)
    requires k < |lay|
    ensures UsedWords(lay[k := b]) == UsedWords(lay) - Charge(lay[k]) + Charge(b)
  {
    UsedWordsOne(lay, k, [b]);
    assert lay[k := b] == lay[..k] + [b] + lay[k + 1..];
    assert UsedWords([b]) == Charge(b);
  }

  lemma UsedWordsTwo(x: Block, z: Block)
    ensures UsedWords([x, z]) == Charge(x) + Charge(z)
  {
    UsedWordsAppend([x], [z]);
    assert UsedWords([x]) == Charge(x) && UsedWords([z]) == Charge(z);
    assert [x] + [z] == [x, z];
  }

  lemma UsedWordsInto(lay: seq<Block>, k: nat, x: Block, z: Block)
    requires k < |lay|
    ensures UsedWords(lay[..k] + [x, z] + lay[k + 1..]) == UsedWords(lay) - Charge(lay[k]) + Charge(x) + Charge(z)
  {
    UsedWordsTwo(x, z);
    UsedWordsOne(lay, k, [x, z]);
  }

  lemma CutUsed(lay: seq<Block>, k: nat, words: nat)
    requires k < |lay| && lay[k].len >= 2 * HEADER + words
    ensures UsedWords(Cut(lay, k, words, true)) == UsedWords(lay) - Charge(lay[k]) + HEADER + words
  {
    hide UsedWords;
    var b := lay[k];
    var x, z := Block(b.start, HEADER + words, true), Block(b.start + HEADER + words, b.len - HEADER - words, false);
    assert Cut(lay, k, words, true) == lay[..k] + [x, z] + lay[k + 1..];
    UsedWordsInto(lay, k, x, z);
  }

  lemma AllocatedUsed(lay: seq<Block>, k: nat, words: nat)
    requires k < |lay| && Fits(lay[k], words)
    ensures UsedWords(Allocated(lay, k, words)) ==
      UsedWords(lay) + if lay[k].len >= words + 2 * HEADER + MIN_DATA then HEADER + words else lay[k].len
  {
    if lay[k].len >= words + 2 * HEADER + MIN_DATA { CutUsed(lay, k, words); }
    else { UsedWordsUpdate(lay, k, lay[k].(used := true)); }
  }

  lemma MergedUsed(lay: seq<Block>, k: nat)
    requires k + 1 < |lay| && !lay[k].used && !lay[k + 1].used
    ensures UsedWords(Merged(lay, k)) == UsedWords(lay)
  {
    hide UsedWords;
    var m := Block(lay[k].start, lay[k].len + lay[k + 1].len, false);
    assert lay == lay[..k] + [lay[k], lay[k + 1]] + lay[k + 2..];
    assert Merged(lay, k) == lay[..k] + [m] + lay[k + 2..];
    UsedWordsSplice(lay[..k], [lay[k], lay[k + 1]], [m], lay[k + 2..]);
    UsedWordsTwo(lay[k], lay[k + 1]);
    UsedWordsSingle(m);
  }

  lemma PluggedUsed(lay: seq<Block>, k: nat)
    requires k < |lay| && !lay[k].used
    ensures UsedWords(Plugged(lay, k)) == UsedWords(lay)
  {
    if k + 1 < |lay| && !lay[k + 1].used { MergedUsed(lay, k); }
    var l1 := PluggedAhead(lay, k);
    if k > 0 && !l1[k - 1].used { MergedUsed(l1, k - 1); }
  }

  lemma FreedUsed(lay: seq<Block>, k: nat)
    requires k < |lay| && lay[k].used
    ensures UsedWords(Freed(lay, k)) == UsedWords(lay) - lay[k].len
  {
    UsedWordsUpdate(lay, k, lay[k].(used := false));
    PluggedUsed(lay[k := lay[k].(used := false)], k);
  }

  lemma ShrunkUsed(lay: seq<Block>, k: nat, words: nat)
    requires k < |lay| && lay[k].len >= 2 * HEADER + words && lay[k].used
    ensures UsedWords(Shrunk(lay, k, words)) == UsedWords(lay) - (lay[k].len - HEADER - words)
  {
    CutUsed(lay, k, words);
    PluggedUsed(Cut(lay, k, words, true), k + 1);
  }

  // --- inverses -------------------------------------------------------------

  // Freeing what was just allocated restores the layout.
  lemma AllocFreeInverse(lay: seq<Block>, end: nat, k: nat, words: nat)
    requires Sound(lay, end) && k < |lay| && Fits(lay[k], words)
    ensures Freed(Allocated(lay, k, words), k) == lay
  {
    var b := lay[k];
    var r := Allocated(lay, k, words);
    var l0 := r[k := r[k].(used := false)];
    assert k > 0 ==> Solid(lay, k - 1);
    assert k + 1 < |lay| ==> Solid(lay, k);
    if b.len >= words + 2 * HEADER + MIN_DATA {
      assert PluggedAhead(l0, k) == Merged(l0, k);
      assert Merged(l0, k) == lay[..k] + [Block(b.start, b.len, false)] + lay[k + 1..] == lay;
    } else {
      assert k + 1 < |lay| ==> lay[k + 1].used;
      assert l0 == lay;
    }
  }

  lemma Elsewhere(lay: seq<Block>, end: nat, k: nat, b: Block)
    requires Tiled(lay, end) && k < |lay|
    ensures b in lay[..k] || b in lay[k + 1..] <==> b in lay && b != lay[k]
  {
    assert lay == lay[..k] + [lay[k]] + lay[k + 1..];
    if b in lay[..k] || b in lay[k + 1..] {
      var i :| 0 <= i < |lay| && i != k && lay[i] == b;
      if b == lay[k] { StartsApart(lay, end, i, k); }
    }
  }

  lemma StillWithout(lay: seq<Block>, k: nat, b: Block)
    requires k < |lay| && b in lay && b != lay[k]
    ensures b in Without(lay, k)
  {
    var j :| 0 <= j < |lay| && lay[j] == b;
    assert Without(lay, k)[j] == b;
  }

  // The live blocks that are left when block k is freed: all but that one.
  lemma FreedLive(lay: seq<Block>, end: nat, k: nat, b: Block)
    requires Tiled(lay, end) && k < |lay| && lay[k].used && b.used
    ensures b in Freed(lay, k) <==> b in lay && b != lay[k]
  {
    var l0 := Without(lay, k);
    PluggedLive(l0, k, b);
    Elsewhere(lay, end, k, b);
    assert l0 == lay[..k] + [l0[k]] + lay[k + 1..];
  }

  lemma MergedLive(lay: seq<Block>, k: nat, b: Block)
    requires k + 1 < |lay| && !lay[k].used && !lay[k + 1].used && b.used
    ensures b in Merged(lay, k) <==> b in lay
  {
    assert lay == lay[..k] + [lay[k], lay[k + 1]] + lay[k + 2..];
  }

  lemma PluggedLive(lay: seq<Block>, k: nat, b: Block)
    requires k < |lay| && !lay[k].used && b.used
    ensures b in Plugged(lay, k) <==> b in lay
  {
    if k + 1 < |lay| && !lay[k + 1].used { MergedLive(lay, k, b); }
    var l1 := PluggedAhead(lay, k);
    if k > 0 && !l1[k - 1].used { MergedLive(l1, k - 1, b); }
  }

  lemma AllocatedLive(lay: seq<Block>, k: nat, words: nat, b: Block)
    requires k < |lay| && Fits(lay[k], words) && b.used
    ensures b in Allocated(lay, k, words) <==> b in lay || b == Allocated(lay, k, words)[k]
  {
    var r := Allocated(lay, k, words);
    assert lay == lay[..k] + [lay[k]] + lay[k + 1..];
    assert r == lay[..k] + [r[k]] + (if |r| > |lay| then [r[k + 1]] else []) + lay[k + 1..];
  }

  // --- freeing everything ----------------------------------------------------

  ghost predicate AllFree(lay: seq<Block>) {
    forall i :: 0 <= i < |lay| ==> !lay[i].used
  }

  lemma FirstPair(lay: seq<Block>)
    requires NoHoles(lay)
    ensures |lay| > 1 ==> lay[0].used || lay[1].used
  {
    assert |lay| > 1 ==> Solid(lay, 0);
  }

  // A sound layout with no live block is one free block, and costs nothing.
  lemma AllFreeIsWhole(lay: seq<Block>, end: nat)
    requires Sound(lay, end) && AllFree(lay)
    ensures lay == [Block(0, end, false)] && UsedWords(lay) == 0
  {
    FirstPair(lay);
    assert Abuts(lay, end, 0);
    assert lay == [lay[0]];
  }

  ghost predicate LiveStart(lay: seq<Block>, a: nat) {
    exists i: nat :: i < |lay| && lay[i].used && lay[i].start == a
  }

  // Free the live block at address a.
  ghost function FreedAt(lay: seq<Block>, a: nat): seq<Block>
    requires LiveStart(lay, a)
  {
    var k: nat :| k < |lay| && lay[k].used && lay[k].start == a;
    Freed(lay, k)
  }

  // Each of the addresses in turn is that of a live block.
  ghost predicate FreesInTurn(lay: seq<Block>, starts: seq<nat>)
    decreases |starts|
  {
    starts == [] || (LiveStart(lay, starts[0]) && FreesInTurn(FreedAt(lay, starts[0]), starts[1..]))
  }

  ghost function AfterFrees(lay: seq<Block>, starts: seq<nat>): seq<Block>
    requires FreesInTurn(lay, starts)
    decreases |starts|
  {
    if starts == [] then lay else AfterFrees(FreedAt(lay, starts[0]), starts[1..])
  }

  // The addresses of the live blocks, each once, in any order.
  ghost predicate Enumerates(lay: seq<Block>, starts: seq<nat>) {
    NoDup(starts) && forall a: nat :: a in starts <==> LiveStart(lay, a)
  }

  lemma FreedStarts(lay: seq<Block>, end: nat, a: nat, c: nat)
    requires Tiled(lay, end) && LiveStart(lay, a)
    ensures LiveStart(FreedAt(lay, a), c) <==> LiveStart(lay, c) && c != a
  {
    hide Freed;
    var k: nat :| k < |lay| && lay[k].used && lay[k].start == a && FreedAt(lay, a) == Freed(lay, k);
    var r := Freed(lay, k);
    if LiveStart(r, c) {
      var i: nat :| i < |r| && r[i].used && r[i].start == c;
      FreedLive(lay, end, k, r[i]);
      var j: nat :| j < |lay| && lay[j] == r[i];
      if c == a { StartsApart(lay, end, j, k); }
    }
    if LiveStart(lay, c) && c != a {
      var i: nat :| i < |lay| && lay[i].used && lay[i].start == c;
      FreedLive(lay, end, k, lay[i]);
      var j: nat :| j < |r| && r[j] == lay[i];
    }
  }

  // An enumeration frees its first block and enumerates what is left.
  lemma EnumeratesRest(lay: seq<Block>, end: nat, starts: seq<nat>)
    requires Tiled(lay, end) && starts != [] && LiveStart(lay, starts[0])
    ensures Enumerates(lay, starts) <==> Enumerates(FreedAt(lay, starts[0]), starts[1..])
  {
    hide FreedAt;
    var a, rest := starts[0], starts[1..];
    forall c: nat ensures LiveStart(FreedAt(lay, a), c) <==> LiveStart(lay, c) && c != a {
      FreedStarts(lay, end, a, c);
    }
    assert starts == [a] + rest;
    if NoDup(starts) { assert forall i :: 0 <= i < |rest| ==> rest[i] == starts[i + 1]; }
  }

  // A list of addresses can be freed in turn and leaves one free block, with nothing
  // in use, if and only if it holds the live blocks' addresses, in whatever order.
  lemma {:induction false} FreeAllInAnyOrder(lay: seq<Block>, end: nat, starts: seq<nat>)
    requires Sound(lay, end)
    ensures Enumerates(lay, starts) <==>
      FreesInTurn(lay, starts) && AfterFrees(lay, starts) == [Block(0, end, false)]
    ensures Enumerates(lay, starts) ==> UsedWords(AfterFrees(lay, starts)) == 0
    decreases |starts|
  {
    hide FreedAt, Freed, UsedWords;
    if starts == [] {
      if Enumerates(lay, starts) {
        assert AllFree(lay) by {
          forall i | 0 <= i < |lay| ensures !lay[i].used { assert lay[i].used ==> LiveStart(lay, lay[i].start); }
        }
        AllFreeIsWhole(lay, end);
      }
    } else {
      if Enumerates(lay, starts) { assert starts[0] in starts; }
      if LiveStart(lay, starts[0]) {
        FreedAtSound(lay, end, starts[0]);
        EnumeratesRest(lay, end, starts);
        FreeAllInAnyOrder(FreedAt(lay, starts[0]), end, starts[1..]);
      }
    }
  }

  lemma FreedAtSound(lay: seq<Block>, end: nat, a: nat)
    requires Sound(lay, end) && LiveStart(lay, a)
    ensures Sound(FreedAt(lay, a), end)
  {
    hide Sound, Freed;
    var k: nat :| k < |lay| && lay[k].used && lay[k].start == a && FreedAt(lay, a) == Freed(lay, k);
    FreedSound(lay, end, k);
  }

  // --- the lowest free block -------------------------------------------------

  // Either every block is in use, or this is the first that is not.
  ghost predicate FirstFreeAt(lay: seq<Block>, i: nat) {
    i <= |lay| && (i < |lay| ==> !lay[i].used) && forall j :: 0 <= j < i ==> lay[j].used
  }

  lemma {:induction false} LowestFreeIs(lay: seq<Block>, end: nat, i: nat)
    requires FirstFreeAt(lay, i)
    ensures LowestFree(lay, end) == if i < |lay| then lay[i].start else end
  {
    if i > 0 { LowestFreeIs(lay[1..], end, i - 1); }
  }

  lemma {:induction false} LowestFreeAt(lay: seq<Block>, end: nat) returns (i: nat)
    ensures FirstFreeAt(lay, i) && LowestFree(lay, end) == if i < |lay| then lay[i].start else end
  {
    if lay == [] || !lay[0].used { i := 0; }
    else {
      var j := LowestFreeAt(lay[1..], end);
      i := j + 1;
      assert lay == [lay[0]] + lay[1..];
    }
  }

  lemma LowestFreeBelow(lay: seq<Block>, end: nat, k: nat)
    requires Tiled(lay, end) && k < |lay| && !lay[k].used
    ensures LowestFree(lay, end) <= lay[k].start
  {
    var i := LowestFreeAt(lay, end);
    Ordered(lay, end, i, k);
  }

  // Merging a free block with its successor does not move the lowest one.
  lemma MergedLowest(lay: seq<Block>, end: nat, k: nat)
    requires k + 1 < |lay| && !lay[k].used
    ensures LowestFree(Merged(lay, k), end) == LowestFree(lay, end)
  {
    MergedAt(lay, k);
    var i := LowestFreeAt(lay, end);
    LowestFreeIs(Merged(lay, k), end, i);
  }

  // A block set free becomes the lowest one if it lies below it.
  lemma UnusedLowest(lay: seq<Block>, end: nat, k: nat)
    requires Tiled(lay, end) && k < |lay|
    ensures LowestFree(lay[k := lay[k].(used := false)], end) == Min(LowestFree(lay, end), lay[k].start)
  {
    var i := LowestFreeAt(lay, end);
    var l0 := lay[k := lay[k].(used := false)];
    OrderedEnd(lay, end, k);
    if k < i {
      LowestFreeIs(l0, end, k);
      if i < |lay| { Ordered(lay, end, k, i); }
    } else {
      LowestFreeIs(l0, end, i);
      Ordered(lay, end, i, k);
    }
  }

  lemma CutLowest(lay: seq<Block>, end: nat, k: nat, words: nat)
    requires Tiled(lay, end) && k < |lay| && lay[k].used && lay[k].len >= 2 * HEADER + words
    ensures LowestFree(Cut(lay, k, words, true), end) == Min(LowestFree(lay, end), lay[k].start + HEADER + words)
  {
    CutAt(lay, k, words, true);
    var i := LowestFreeAt(lay, end);
    var r := Cut(lay, k, words, true);
    OrderedEnd(lay, end, k);
    if k < i {
      LowestFreeIs(r, end, k + 1);
      if i < |lay| { Ordered(lay, end, k, i); }
    } else {
      LowestFreeIs(r, end, i);
      Ordered(lay, end, i, k);
    }
  }
}
