// Any sequence of rt_memheap_alloc, rt_memheap_free and rt_memheap_realloc calls,
// and of writes of the callers to their own blocks.

module MemHeapRuns {
  import opened Common
  import opened BlockLayout
  import opened MemHeapLists
  import opened MemHeap

  // The payload words, the layout, the free list and max_used_size between two calls.
  datatype Moment = Moment(data: seq<int>, lay: seq<Block>, free: seq<int>, top: int)

  // A call with its result, or a write of a caller to its block k
  datatype Event = DoAlloc(bytes: nat, p: int) | DoFree(k: nat) | DoRealloc(k: nat, bytes: nat, p: int)
    | DoWrite(k: nat)

  ghost predicate Unchanged(a: Moment, b: Moment) {
    b.lay == a.lay && b.free == a.free && b.top == a.top
  }

  ghost predicate FollowsFree(a: Moment, k: nat, b: Moment)
    requires k < |a.lay|
  {
    && b.lay == Freed(a.lay, k) && b.free == FreedFree(a.lay, a.free, k) && b.top == a.top
    && PayloadKept(a.data, Without(a.lay, k), b.data)
  }

  ghost predicate FollowsResize(a: Moment, size: nat, k: nat, words: nat, p: int, b: Moment)
    requires k < |a.lay|
  {
    && PayloadMoved(a.data, a.lay, k, b.data, p, words)
    && if Moves(a.lay, k, words) then
        MovedTo(a.lay, a.free, k, words, b.lay, b.free, p, size, a.top, b.top)
      else
        && p == a.lay[k].start + ITEM && b.lay == Resized(a.lay, k, words)
        && b.free == ResizedFree(a.lay, a.free, k, words) && b.top == Max(a.top, size - FreeWords(b.lay))
  }

  // What Heap.Alloc, Heap.Free and Heap.Realloc ensure, and what a write inside a
  // block does.
  ghost predicate Follows(a: Moment, size: nat, e: Event, b: Moment) {
    match e
    case DoAlloc(bytes, p) =>
      && PayloadKept(a.data, a.lay, b.data)
      && if p == NIL then Unchanged(a, b)
        else
          && GrantedTo(a.lay, a.free, Request(bytes), b.lay, b.free, p)
          && b.top == Max(a.top, size - FreeWords(b.lay))
    case DoFree(k) => k < |a.lay| && a.lay[k].used && FollowsFree(a, k, b)
    case DoRealloc(k, bytes, p) =>
      && k < |a.lay| && a.lay[k].used
      && if bytes == 0 then FollowsFree(a, k, b)
        else if p == NIL then Unchanged(a, b) && b.data == a.data
        else FollowsResize(a, size, k, Request(bytes), p, b)
    case DoWrite(k) =>
      k < |a.lay| && a.lay[k].used && Unchanged(a, b) && PayloadKept(a.data, Without(a.lay, k), b.data)
  }

  ghost predicate History(ms: seq<Moment>, size: nat, es: seq<Event>) {
    && |ms| == |es| + 1 && size >= ITEM
    && forall i :: 0 <= i < |es| ==> Follows(ms[i], size, es[i], ms[i + 1])
  }

  // --- the layout ------------------------------------------------------------------

  ghost predicate Fine(lay: seq<Block>, size: nat) {
    size >= ITEM && Sound(lay, size - ITEM) && Roomy(lay)
  }

  lemma MergedRoomy(lay: seq<Block>, k: nat)
    requires Roomy(lay) && k + 1 < |lay| && !lay[k].used && !lay[k + 1].used
    ensures Roomy(Merged(lay, k)) && FreeWords(Merged(lay, k)) >= FreeWords(lay)
  {
    MergedAt(lay, k);
    FreeWordsMerged(lay, k);
  }

  lemma PluggedRoomy(lay: seq<Block>, k: nat)
    requires Roomy(lay) && k < |lay| && !lay[k].used
    ensures Roomy(Plugged(lay, k)) && FreeWords(Plugged(lay, k)) >= FreeWords(lay)
  {
    hide FreeWords, Merged;
    if k + 1 < |lay| && !lay[k + 1].used { MergedRoomy(lay, k); MergedAt(lay, k); }
    var l1 := PluggedAhead(lay, k);
    if k > 0 && !l1[k - 1].used { MergedRoomy(l1, k - 1); }
  }

  // Freeing a block only adds to what is free.
  lemma FreedFine(lay: seq<Block>, size: nat, k: nat)
    requires Fine(lay, size) && k < |lay| && lay[k].used
    ensures Fine(Freed(lay, k), size) && FreeWords(Freed(lay, k)) >= FreeWords(lay)
  {
    FreedSound(lay, size - ITEM, k);
    FreeWordsMarked(lay, k, false);
    PluggedRoomy(Without(lay, k), k);
  }

  lemma GrantedFine(lay: seq<Block>, size: nat, k: nat, words: nat)
    requires Fine(lay, size) && k < |lay| && !lay[k].used && Payload(lay[k]) >= words
    ensures Fine(Granted(lay, k, words), size)
  {
    var r := Granted(lay, k, words);
    GrantedTiled(lay, size - ITEM, k, words);
    if Payload(lay[k]) >= words + ITEM + MINI {
      CutAt(lay, k, ITEM - HEADER + words, true);
      CutNoHoles(lay, k, ITEM - HEADER + words);
    } else {
      forall i | 0 <= i < |r| - 1 ensures Solid(r, i) { assert Solid(lay, i); }
    }
  }

  lemma ResizedFine(lay: seq<Block>, size: nat, k: nat, words: nat)
    requires Fine(lay, size) && k < |lay| && lay[k].used && !Moves(lay, k, words)
    ensures Fine(Resized(lay, k, words), size)
  {
    if words > Payload(lay[k]) {
      GrownSound(lay, size - ITEM, k, words);
    } else if words + ITEM + MINI < Payload(lay[k]) {
      ShortenedKeeps(lay, size - ITEM, k, words);
      PluggedTiled(Split(lay, k, words, true), size - ITEM, k + 1);
      PluggedRoomy(Split(lay, k, words, true), k + 1);
    }
  }

  lemma FirstIs(lay: seq<Block>, free: seq<int>, words: nat, j: nat, k: nat)
    requires FirstInList(lay, free, words, j, k)
    ensures k < |lay| && !lay[k].used && Payload(lay[k]) >= words
  {}

  lemma MovedFine(a: Moment, size: nat, k: nat, words: nat, p: int, b: Moment)
    requires Fine(a.lay, size) && k < |a.lay| && a.lay[k].used
    requires MovedTo(a.lay, a.free, k, words, b.lay, b.free, p, size, a.top, b.top)
    ensures Fine(b.lay, size) && b.top >= a.top && size - FreeWords(b.lay) <= b.top
  {
    hide FreeWords, Fine, Freed, Granted, FirstInList;
    var l1: seq<Block>, f1: seq<int>, k1: nat :|
      MovedVia(a.lay, a.free, k, words, b.lay, b.free, p, l1, f1, k1) && b.top == Max(a.top, size - FreeWords(l1));
    var j: nat, g: nat :| GrantedAs(a.lay, a.free, words, l1, f1, p, j, g);
    FirstIs(a.lay, a.free, words, j, g);
    GrantedFine(a.lay, size, g, words);
    FreedFine(l1, size, k1);
  }

  // Every call keeps the heap tiled with no two free neighbours, and max_used_size
  // at least at what is in use.
  lemma FollowsFine(a: Moment, size: nat, e: Event, b: Moment)
    requires Fine(a.lay, size) && Follows(a, size, e, b)
    ensures Fine(b.lay, size) && a.top <= b.top
    ensures size - FreeWords(a.lay) <= a.top ==> size - FreeWords(b.lay) <= b.top
  {
    hide Fine, FreeWords;
    match e
    case DoAlloc(bytes, p) =>
      if p != NIL {
        var j: nat, g: nat :| GrantedAs(a.lay, a.free, Request(bytes), b.lay, b.free, p, j, g);
        GrantedFine(a.lay, size, g, Request(bytes));
      }
    case DoFree(k) => FreedFine(a.lay, size, k);
    case DoRealloc(k, bytes, p) =>
      if bytes == 0 {
        FreedFine(a.lay, size, k);
      } else if p != NIL {
        if Moves(a.lay, k, Request(bytes)) { MovedFine(a, size, k, Request(bytes), p, b); }
        else { ResizedFine(a.lay, size, k, Request(bytes)); }
      }
    case DoWrite(k) =>
  }

  lemma {:induction false} RunFine(ms: seq<Moment>, size: nat, es: seq<Event>, n: nat)
    requires History(ms, size, es) && Fine(ms[0].lay, size) && n <= |es|
    ensures Fine(ms[n].lay, size)
  {
    if n > 0 {
      RunFine(ms, size, es, n - 1);
      FollowsFine(ms[n - 1], size, es[n - 1], ms[n]);
    }
  }

  // After any calls, no two blocks share a word and all lie in front of the guard.
  lemma HandedOutApart(ms: seq<Moment>, size: nat, es: seq<Event>, i: nat, j: nat)
    requires History(ms, size, es) && Fine(ms[0].lay, size)
    requires var lay := ms[|es|].lay; i < |lay| && j < |lay| && i != j
    ensures var lay := ms[|es|].lay;
      && lay[i].start + lay[i].len <= size - ITEM
      && (lay[i].start + lay[i].len <= lay[j].start || lay[j].start + lay[j].len <= lay[i].start)
  {
    RunFine(ms, size, es, |es|);
    Apart(ms[|es|].lay, size - ITEM, i, j);
  }

  // After any calls, freeing the blocks at the given addresses gives one free block
  // exactly if they are the live ones, in whatever order.
  lemma NothingLeaks(ms: seq<Moment>, size: nat, es: seq<Event>, starts: seq<nat>)
    requires History(ms, size, es) && Fine(ms[0].lay, size)
    ensures var lay := ms[|es|].lay;
      Enumerates(lay, starts) <==>
        FreesInTurn(lay, starts) && AfterFrees(lay, starts) == [Block(0, size - ITEM, false)]
  {
    RunFine(ms, size, es, |es|);
    FreeAllInAnyOrder(ms[|es|].lay, size - ITEM, starts);
  }

  // --- the peak ------------------------------------------------------------------------

  // v words are in use after the event, or while a realloc that moves holds both
  // its blocks.
  ghost predicate Reached(a: Moment, size: nat, e: Event, b: Moment, v: int) {
    || v == size - FreeWords(b.lay)
    || (e.DoRealloc? && exists l1: seq<Block>, f1: seq<int>, k1: nat ::
          MovedVia(a.lay, a.free, e.k, Request(e.bytes), b.lay, b.free, e.p, l1, f1, k1) && v == size - FreeWords(l1))
  }

  lemma MovedReaches(a: Moment, size: nat, e: Event, b: Moment)
    requires e.DoRealloc?
    requires MovedTo(a.lay, a.free, e.k, Request(e.bytes), b.lay, b.free, e.p, size, a.top, b.top)
    ensures b.top == a.top || Reached(a, size, e, b, b.top)
  {
    hide FreeWords, MovedVia;
    var l1: seq<Block>, f1: seq<int>, k1: nat :|
      MovedVia(a.lay, a.free, e.k, Request(e.bytes), b.lay, b.free, e.p, l1, f1, k1)
      && b.top == Max(a.top, size - FreeWords(l1));
  }

  lemma FollowsTop(a: Moment, size: nat, e: Event, b: Moment)
    requires Follows(a, size, e, b)
    ensures b.top == a.top || Reached(a, size, e, b, b.top)
  {
    hide FreeWords, MovedTo, GrantedTo, PayloadKept, PayloadMoved, Freed, FreedFree, Resized, ResizedFree, Moves;
    if e.DoRealloc? && e.bytes != 0 && e.p != NIL && Moves(a.lay, e.k, Request(e.bytes)) {
      MovedReaches(a, size, e, b);
    }
  }

  // max_used_size is the historical maximum: no moment of the run exceeds it, and
  // unless it has stood since before, some moment reaches it.
  lemma {:induction false} MaxIsHistorical(ms: seq<Moment>, size: nat, es: seq<Event>, n: nat)
    requires History(ms, size, es) && Fine(ms[0].lay, size) && n <= |es|
    requires size - FreeWords(ms[0].lay) <= ms[0].top
    ensures forall i :: 0 <= i <= n ==> size - FreeWords(ms[i].lay) <= ms[i].top <= ms[n].top
    ensures ms[n].top == ms[0].top || exists i :: 0 <= i < n && Reached(ms[i], size, es[i], ms[i + 1], ms[n].top)
  {
    hide Follows, Reached, FreeWords;
    if n > 0 {
      MaxIsHistorical(ms, size, es, n - 1);
      RunFine(ms, size, es, n - 1);
      FollowsFine(ms[n - 1], size, es[n - 1], ms[n]);
      FollowsTop(ms[n - 1], size, es[n - 1], ms[n]);
      if ms[n].top != ms[n - 1].top { assert Reached(ms[n - 1], size, es[n - 1], ms[n - 1 + 1], ms[n].top); }
    }
  }

  // --- the data ----------------------------------------------------------------------------

  // Block b is live and lies in the pool.
  ghost predicate Live(m: Moment, b: Block) {
    b in m.lay && b.used && ITEM <= b.len && b.start + b.len <= |m.data|
  }

  function PayloadOf(m: Moment, b: Block): seq<int>
    requires ITEM <= b.len && b.start + b.len <= |m.data|
  {
    m.data[b.start + ITEM..b.start + b.len]
  }

  // The event frees, resizes or writes to block b.
  ghost predicate Touches(lay: seq<Block>, e: Event, b: Block) {
    match e
    case DoAlloc(_, _) => false
    case DoFree(k) => k < |lay| && lay[k] == b
    case DoRealloc(k, _, _) => k < |lay| && lay[k] == b
    case DoWrite(k) => k < |lay| && lay[k] == b
  }

  lemma KeptPayload(m: Moment, lay: seq<Block>, r: Moment, b: Block)
    requires PayloadKept(m.data, lay, r.data) && b in lay && Live(m, b)
    ensures |r.data| == |m.data| && PayloadOf(r, b) == PayloadOf(m, b)
  {
    var i :| 0 <= i < |lay| && lay[i] == b;
    assert PayloadKeptAt(m.data, lay, r.data, i);
  }

  lemma AllocLive(m: Moment, end: nat, words: nat, r: Moment, p: int, b: Block)
    requires Tiled(m.lay, end) && GrantedTo(m.lay, m.free, words, r.lay, r.free, p) && b in m.lay && b.used
    ensures b in r.lay
  {
    hide FirstInList, Granted;
    var j: nat, g: nat :| GrantedAs(m.lay, m.free, words, r.lay, r.free, p, j, g);
    FirstIs(m.lay, m.free, words, j, g);
    GrantedLive(m.lay, end, g, words, b);
  }

  lemma ResizeLive(m: Moment, size: nat, k: nat, words: nat, p: int, r: Moment, b: Block)
    requires Fine(m.lay, size) && k < |m.lay| && m.lay[k].used && words > 0
    requires FollowsResize(m, size, k, words, p, r) && b in m.lay && b.used && b != m.lay[k]
    ensures b in r.lay
  {
    hide MovedTo, Resized, ResizedFree, Moves, PayloadMoved, FreeWords;
    if Moves(m.lay, k, words) {
      var n := MovedLive(m.lay, m.free, size - ITEM, k, words, r.lay, r.free, p, size, m.top, r.top);
    } else {
      ResizedLive(m.lay, size - ITEM, k, words, b);
    }
  }

  lemma FollowsLive(m: Moment, size: nat, e: Event, r: Moment, b: Block)
    requires Fine(m.lay, size) && Follows(m, size, e, r) && b in m.lay && b.used && !Touches(m.lay, e, b)
    ensures b in r.lay
  {
    hide FreeWords, PayloadKept, Freed, FreedFree, GrantedTo, FollowsResize, Roomy, NoHoles;
    match e
    case DoAlloc(bytes, p) => if p != NIL { AllocLive(m, size - ITEM, Request(bytes), r, p, b); }
    case DoFree(k) => FreedLive(m.lay, size - ITEM, k, b);
    case DoRealloc(k, bytes, p) =>
      if bytes == 0 { FreedLive(m.lay, size - ITEM, k, b); }
      else if p != NIL { ResizeLive(m, size, k, Request(bytes), p, r, b); }
    case DoWrite(k) =>
  }

  lemma FollowsKeeps(m: Moment, size: nat, e: Event, r: Moment, b: Block)
    requires Fine(m.lay, size) && Follows(m, size, e, r) && Live(m, b) && !Touches(m.lay, e, b)
    ensures Live(r, b) && PayloadOf(r, b) == PayloadOf(m, b)
  {
    hide Fine, PayloadKept, FreeWords;
    FollowsLive(m, size, e, r, b);
    match e
    case DoAlloc(bytes, p) => KeptPayload(m, m.lay, r, b);
    case DoFree(k) => StillWithout(m.lay, k, b); KeptPayload(m, Without(m.lay, k), r, b);
    case DoRealloc(k, bytes, p) =>
      if bytes == 0 || p != NIL { StillWithout(m.lay, k, b); KeptPayload(m, Without(m.lay, k), r, b); }
    case DoWrite(k) => StillWithout(m.lay, k, b); KeptPayload(m, Without(m.lay, k), r, b);
  }

  // The payload of a live block survives every sequence of calls, and of writes to
  // other blocks, in which the block itself is neither freed nor resized.
  lemma {:induction false} DataSurvive(ms: seq<Moment>, size: nat, es: seq<Event>, b: Block, n: nat)
    requires History(ms, size, es) && Fine(ms[0].lay, size) && Live(ms[0], b) && n <= |es|
    requires forall i :: 0 <= i < n ==> !Touches(ms[i].lay, es[i], b)
    ensures Live(ms[n], b) && PayloadOf(ms[n], b) == PayloadOf(ms[0], b)
  {
    hide Follows, Touches, Fine, Live;
    if n > 0 {
      DataSurvive(ms, size, es, b, n - 1);
      RunFine(ms, size, es, n - 1);
      FollowsKeeps(ms[n - 1], size, es[n - 1], ms[n], b);
    }
  }

  // --- the calls themselves ------------------------------------------------------------------

  // The moment at which heap h is.
  ghost function At(h: Heap): Moment
    reads h, h.data
  {
    Moment(h.data[..], h.lay, h.free, h.maxUsed)
  }

  // A history may begin at any heap that is in order, a new one for instance.
  lemma MayBegin(h: Heap)
    requires h.Valid()
    ensures Fine(h.lay, h.size) && h.size - FreeWords(h.lay) <= h.maxUsed
  {
    hide Rings, Flags, Listed, FreeWords;
  }

  // Every call that the code makes is an event of a history.
  method Allocate(h: Heap, bytes: nat) returns (p: int)
    requires h.Valid()
    modifies h
    ensures h.Valid() && Follows(old(At(h)), h.size, DoAlloc(bytes, p), At(h))
  {
    hide Rings, Flags, Listed, NoHoles, GrantedTo, FreeWords;
    AllKept(h.data[..], h.lay, h.End());
    p := h.Alloc(bytes);
  }

  method Release(h: Heap, ptr: int, ghost k: nat)
    requires h.Valid() && (ptr != NIL ==> k < |h.lay| && h.lay[k].used && ptr == h.lay[k].start + ITEM)
    modifies h
    ensures h.Valid()
    ensures if ptr == NIL then At(h) == old(At(h)) else Follows(old(At(h)), h.size, DoFree(k), At(h))
  {
    hide Rings, Flags, Listed, NoHoles, Tiled, Freed, FreedFree, FreeWords;
    if ptr != NIL {
      MarkedTiled(h.lay, h.End(), k, false);
      AllKept(h.data[..], Without(h.lay, k), h.End());
    }
    h.Free(ptr, k);
  }

  // realloc of no block at all is an allocation.
  function Resizing(ptr: int, k: nat, bytes: nat, p: int): Event {
    if ptr == NIL then DoAlloc(bytes, p) else DoRealloc(k, bytes, p)
  }

  method Resize(h: Heap, ptr: int, bytes: nat, ghost k: nat) returns (p: int)
    requires h.Valid() && (ptr != NIL ==> k < |h.lay| && h.lay[k].used && ptr == h.lay[k].start + ITEM)
    modifies h, h.data
    ensures h.Valid() && Follows(old(At(h)), h.size, Resizing(ptr, k, bytes, p), At(h))
  {
    hide Rings, Flags, Listed, NoHoles, Tiled, Freed, FreedFree, FreeWords, Resized, ResizedFree,
      PayloadKept, GrantedTo, MovedTo, Moves, GivenInBytes, RefusedInBytes, KeepsPlace, BytesMoved;
    p := h.Realloc(ptr, bytes, k);
  }

  // A caller writes to word i of its block.
  method Write(h: Heap, ptr: int, i: nat, x: int, ghost k: nat)
    requires h.Valid() && k < |h.lay| && h.lay[k].used && ptr == h.lay[k].start + ITEM && i < Payload(h.lay[k])
    modifies h.data
    ensures h.Valid() && Follows(old(At(h)), h.size, DoWrite(k), At(h))
  {
    ghost var d := h.data[..];
    OrderedEnd(h.lay, h.End(), k);
    h.data[ptr + i] := x;
    forall j | 0 <= j < |h.lay| ensures PayloadKeptAt(d, Without(h.lay, k), h.data[..], j) {
      Apart(h.lay, h.End(), j, k);
    }
  }
}
