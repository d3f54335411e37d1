// Any sequence of rt_smem_alloc, rt_smem_free and rt_smem_realloc calls, seen as
// what it does to the layout of the heap.

module SmallMemRuns {
  import opened Common
  import opened BlockLayout
  import opened SmallMem

  datatype Step = DoAlloc(bytes: nat) | DoFree(k: nat) | DoRealloc(k: nat, bytes: nat)

  // Only live blocks are freed or resized.
  ghost predicate Allowed(lay: seq<Block>, step: Step) {
    match step
    case DoAlloc(_) => true
    case DoFree(k) => k < |lay| && lay[k].used
    case DoRealloc(k, _) => k < |lay| && lay[k].used
  }

  // The layouts that Heap.Alloc, Heap.Free and Heap.Realloc ensure.
  function Next(lay: seq<Block>, size: nat, step: Step): seq<Block>
    requires Allowed(lay, step)
  {
    match step
    case DoAlloc(bytes) =>
      var w := Request(Words(bytes));
      var f := FirstFit(lay, w, 0);
      if bytes == 0 || f == |lay| then lay else Allocated(lay, f, w)
    case DoFree(k) => Freed(lay, k)
    case DoRealloc(k, bytes) => Reallocated(lay, size, k, Words(bytes))
  }

  ghost predicate Legal(lay: seq<Block>, size: nat, steps: seq<Step>)
    decreases |steps|
  {
    steps == [] || (Allowed(lay, steps[0]) && Legal(Next(lay, size, steps[0]), size, steps[1..]))
  }

  ghost function Run(lay: seq<Block>, size: nat, steps: seq<Step>): seq<Block>
    requires Legal(lay, size, steps)
    decreases |steps|
  {
    if steps == [] then lay else Run(Next(lay, size, steps[0]), size, steps[1..])
  }

  lemma NextSound(lay: seq<Block>, size: nat, step: Step)
    requires Sound(lay, size + HEADER) && Allowed(lay, step)
    ensures Sound(Next(lay, size, step), size + HEADER)
  {
    match step
    case DoAlloc(bytes) =>
      var w := Request(Words(bytes));
      var f := FirstFit(lay, w, 0);
      if f < |lay| { AllocatedSound(lay, size + HEADER, f, w); }
    case DoFree(k) => FreedSound(lay, size + HEADER, k);
    case DoRealloc(k, bytes) => ReallocatedSound(lay, size, k, Words(bytes));
  }

  lemma {:induction false} RunSound(lay: seq<Block>, size: nat, steps: seq<Step>)
    requires Sound(lay, size + HEADER) && Legal(lay, size, steps)
    ensures Sound(Run(lay, size, steps), size + HEADER)
    decreases |steps|
  {
    if steps != [] {
      NextSound(lay, size, steps[0]);
      RunSound(Next(lay, size, steps[0]), size, steps[1..]);
    }
  }

  function Fresh(size: nat): seq<Block> {
    [Block(0, size + HEADER, false)]
  }

  lemma FreshSound(size: nat)
    ensures Sound(Fresh(size), size + HEADER)
  {}

  // Whatever has been called since init: two blocks handed out never share a
  // word, and every block lies in the heap.
  lemma HandedOutApart(size: nat, steps: seq<Step>, i: nat, j: nat)
    requires Legal(Fresh(size), size, steps)
    requires var lay := Run(Fresh(size), size, steps); i < |lay| && j < |lay| && i != j
    ensures var lay := Run(Fresh(size), size, steps);
      && lay[i].start + lay[i].len <= size + HEADER
      && (lay[i].start + lay[i].len <= lay[j].start || lay[j].start + lay[j].len <= lay[i].start)
  {
    FreshSound(size);
    RunSound(Fresh(size), size, steps);
    Apart(Run(Fresh(size), size, steps), size + HEADER, i, j);
  }

  // Nothing leaks: wherever a run has led, freeing the blocks at the given addresses
  // gives back the heap as it was at the start exactly if they are the live ones.
  lemma NothingLeaks(size: nat, steps: seq<Step>, starts: seq<nat>)
    requires Legal(Fresh(size), size, steps)
    ensures var lay := Run(Fresh(size), size, steps);
      Enumerates(lay, starts) <==> FreesInTurn(lay, starts) && AfterFrees(lay, starts) == Fresh(size)
  {
    FreshSound(size);
    RunSound(Fresh(size), size, steps);
    FreeAllInAnyOrder(Run(Fresh(size), size, steps), size + HEADER, starts);
  }

  // --- data over a run -----------------------------------------------------------

  // The words of the heap and its layout, before and after a call or a write.
  datatype Moment = Moment(h: seq<int>, lay: seq<Block>)

  datatype Event = Call(step: Step) | Write(k: nat)   // a caller writes to its block k

  // The block an event is about.
  ghost predicate Touches(lay: seq<Block>, e: Event, b: Block) {
    match e
    case Call(DoAlloc(_)) => false
    case Call(DoFree(k)) => k < |lay| && lay[k] == b
    case Call(DoRealloc(k, _)) => k < |lay| && lay[k] == b
    case Write(k) => k < |lay| && lay[k] == b
  }

  // What Heap.Alloc, Heap.Free and Heap.Realloc ensure of layout and heap, and what
  // a write inside a block does.
  ghost predicate Follows(a: Moment, size: nat, e: Event, b: Moment) {
    && |b.h| == |a.h|
    && match e
      case Call(step) => Allowed(a.lay, step) && b.lay == Next(a.lay, size, step) && (
        match step
        case DoAlloc(_) => LiveKept(a.h, a.lay, b.h)
        case DoFree(k) => LiveKept(a.h, Without(a.lay, k), b.h)
        case DoRealloc(k, _) => LiveKept(a.h, Without(a.lay, k), b.h))
      case Write(k) => k < |a.lay| && a.lay[k].used && b.lay == a.lay && LiveKept(a.h, Without(a.lay, k), b.h)
  }

  // Block b is live and lies in the heap.
  ghost predicate Live(m: Moment, b: Block) {
    b in m.lay && b.used && HEADER <= b.len && b.start + b.len <= |m.h|
  }

  lemma NextLive(lay: seq<Block>, size: nat, step: Step, b: Block)
    requires Sound(lay, size + HEADER) && Allowed(lay, step) && b in lay && b.used && !Touches(lay, Call(step), b)
    ensures b in Next(lay, size, step)
  {
    match step
    case DoAlloc(bytes) =>
      var w := Request(Words(bytes));
      var f := FirstFit(lay, w, 0);
      if f < |lay| { AllocatedLive(lay, f, w, b); }
    case DoFree(k) => FreedLive(lay, size + HEADER, k, b);
    case DoRealloc(k, bytes) => ReallocatedLive(lay, size, k, Words(bytes), b);
  }

  lemma KeptData(h: seq<int>, lay: seq<Block>, h': seq<int>, b: Block)
    requires LiveKept(h, lay, h') && b in lay && b.used && HEADER <= b.len && b.start + b.len <= |h|
    ensures Data(h', b) == Data(h, b)
  {
    var j :| 0 <= j < |lay| && lay[j] == b;
    assert KeptAt(h, lay, h', j);
  }

  lemma FollowsKeeps(m: Moment, size: nat, e: Event, r: Moment, b: Block)
    requires Sound(m.lay, size + HEADER) && Follows(m, size, e, r) && Live(m, b) && !Touches(m.lay, e, b)
    ensures Sound(r.lay, size + HEADER) && Live(r, b) && Data(r.h, b) == Data(m.h, b)
  {
    hide Sound, LiveKept, Next;
    match e
    case Call(step) =>
      NextSound(m.lay, size, step);
      NextLive(m.lay, size, step, b);
      match step {
        case DoAlloc(_) => KeptData(m.h, m.lay, r.h, b);
        case DoFree(k) => StillWithout(m.lay, k, b); KeptData(m.h, Without(m.lay, k), r.h, b);
        case DoRealloc(k, _) => StillWithout(m.lay, k, b); KeptData(m.h, Without(m.lay, k), r.h, b);
      }
    case Write(k) =>
      StillWithout(m.lay, k, b);
      KeptData(m.h, Without(m.lay, k), r.h, b);
  }

  ghost predicate History(ms: seq<Moment>, size: nat, es: seq<Event>) {
    |ms| == |es| + 1 && forall i :: 0 <= i < |es| ==> Follows(ms[i], size, es[i], ms[i + 1])
  }

  // The data of a live block survive every sequence of calls, and of writes to
  // other blocks, in which the block itself is neither freed nor resized.
  lemma {:induction false} DataSurvive(ms: seq<Moment>, size: nat, es: seq<Event>, b: Block)
    requires History(ms, size, es) && Sound(ms[0].lay, size + HEADER) && Live(ms[0], b)
    requires forall i :: 0 <= i < |es| ==> !Touches(ms[i].lay, es[i], b)
    ensures Live(ms[|es|], b) && Data(ms[|es|].h, b) == Data(ms[0].h, b)
    decreases |es|
  {
    if es != [] {
      FollowsKeeps(ms[0], size, es[0], ms[1], b);
      assert forall i :: 0 <= i < |es[1..]| ==> es[1..][i] == es[i + 1] && ms[1..][i] == ms[i + 1];
      DataSurvive(ms[1..], size, es[1..], b);
    }
  }

  // --- the peak over a run ---------------------------------------------------------

  // What Heap's methods ensure of max.
  function MaxNext(lay: seq<Block>, size: nat, step: Step, m: nat): nat
    requires Allowed(lay, step)
  {
    match step
    case DoAlloc(bytes) =>
      if bytes == 0 || FirstFit(lay, Request(Words(bytes)), 0) == |lay| then m
      else Max(m, UsedWords(Next(lay, size, step)))
    case DoFree(_) => m
    case DoRealloc(k, bytes) => Max(m, ReallocPeak(lay, size, k, Words(bytes)))
  }

  ghost function MaxAfter(lay: seq<Block>, size: nat, steps: seq<Step>, m: nat): nat
    requires Legal(lay, size, steps)
    decreases |steps|
  {
    if steps == [] then m else MaxAfter(Next(lay, size, steps[0]), size, steps[1..], MaxNext(lay, size, steps[0], m))
  }

  // A realloc that moves holds two blocks at once.
  function Between(lay: seq<Block>, size: nat, step: Step): seq<Block>
    requires Allowed(lay, step)
  {
    match step
    case DoRealloc(k, bytes) =>
      var w := Words(bytes);
      var f := FirstFit(lay, Request(w), 0);
      if 0 < w <= size && w != Room(lay[k]) && w + HEADER + MIN_DATA >= Room(lay[k]) && f < |lay|
      then Allocated(lay, f, Request(w)) else lay
    case _ => lay
  }

  // Every layout that a run passes through.
  ghost function Passed(lay: seq<Block>, size: nat, steps: seq<Step>): (r: seq<seq<Block>>)
    requires Legal(lay, size, steps)
    ensures lay in r
    decreases |steps|
  {
    if steps == [] then [lay]
    else [lay, Between(lay, size, steps[0])] + Passed(Next(lay, size, steps[0]), size, steps[1..])
  }

  // max is the historical maximum of used: no moment of the run exceeds it, and
  // unless it has stood since before, some moment reaches it.
  lemma {:induction false} MaxIsHistorical(lay: seq<Block>, size: nat, steps: seq<Step>, m: nat)
    requires Legal(lay, size, steps) && UsedWords(lay) <= m
    ensures forall l :: l in Passed(lay, size, steps) ==> UsedWords(l) <= MaxAfter(lay, size, steps, m)
    ensures m <= MaxAfter(lay, size, steps, m)
    ensures MaxAfter(lay, size, steps, m) == m
      || exists l :: l in Passed(lay, size, steps) && UsedWords(l) == MaxAfter(lay, size, steps, m)
    decreases |steps|
  {
    if steps != [] {
      var next, m1 := Next(lay, size, steps[0]), MaxNext(lay, size, steps[0], m);
      StepPeak(lay, size, steps[0], m);
      MaxIsHistorical(next, size, steps[1..], m1);
      assert forall l :: l in Passed(next, size, steps[1..]) ==> l in Passed(lay, size, steps);
      assert next in Passed(next, size, steps[1..]);
    }
  }

  lemma StepPeak(lay: seq<Block>, size: nat, step: Step, m: nat)
    requires Allowed(lay, step) && UsedWords(lay) <= m
    ensures var m1 := MaxNext(lay, size, step, m);
      && m <= m1 && UsedWords(Between(lay, size, step)) <= m1 && UsedWords(Next(lay, size, step)) <= m1
      && (m1 == m || m1 == UsedWords(Between(lay, size, step)) || m1 == UsedWords(Next(lay, size, step)))
  {
    match step
    case DoAlloc(bytes) =>
    case DoFree(k) => FreedUsed(lay, k);
    case DoRealloc(k, bytes) => ReallocatedUsed(lay, size, k, Words(bytes));
  }

  lemma ReallocatedUsed(lay: seq<Block>, size: nat, k: nat, words: nat)
    requires k < |lay| && lay[k].used
    ensures UsedWords(Reallocated(lay, size, k, words)) <= ReallocPeak(lay, size, k, words)
  {
    var f := FirstFit(lay, Request(words), 0);
    if words == 0 {
      FreedUsed(lay, k);
    } else if words <= size && words != Room(lay[k]) {
      if words + HEADER + MIN_DATA < Room(lay[k]) {
        ShrunkUsed(lay, k, words);
      } else if f < |lay| {
        AllocatedKeeps(lay, f, Request(words), k);
        FreedUsed(Allocated(lay, f, Request(words)), Shifted(lay, f, Request(words), k));
      }
    }
  }

  // --- the calls themselves ----------------------------------------------------------

  // The moment at which heap h is.
  ghost function At(h: Heap): Moment
    reads h, h.heap
  {
    Moment(h.heap[..], h.lay)
  }

  // A step of a run, seen in the heap and in max.
  ghost predicate Makes(a: Moment, m0: nat, size: nat, step: Step, b: Moment, m1: nat) {
    Follows(a, size, Call(step), b) && m1 == MaxNext(a.lay, size, step, m0)
  }

  // Every call that the code makes is a step of a run.
  method Allocate(h: Heap, bytes: nat) returns (p: nat)
    requires h.Valid()
    modifies h, h.heap
    ensures h.Valid() && Makes(old(At(h)), old(h.max), h.size, DoAlloc(bytes), At(h), h.max)
  {
    p := h.Alloc(bytes);
  }

  method Release(h: Heap, rmem: nat, ghost k: nat)
    requires h.Valid() && (rmem != 0 ==> k < |h.lay| && h.lay[k].used && h.lay[k].start + HEADER == rmem)
    modifies h, h.heap
    ensures h.Valid()
    ensures if rmem == 0 then At(h) == old(At(h)) && h.max == old(h.max)
      else Makes(old(At(h)), old(h.max), h.size, DoFree(k), At(h), h.max)
  {
    h.Free(rmem, k);
  }

  // realloc of no block at all is an allocation.
  function Resizing(rmem: nat, k: nat, bytes: nat): Step {
    if rmem == 0 then DoAlloc(bytes) else DoRealloc(k, bytes)
  }

  method Resize(h: Heap, rmem: nat, bytes: nat, ghost k: nat) returns (p: nat)
    requires h.Valid() && (rmem != 0 ==> k < |h.lay| && h.lay[k].used && h.lay[k].start + HEADER == rmem)
    modifies h, h.heap
    ensures h.Valid() && Makes(old(At(h)), old(h.max), h.size, Resizing(rmem, k, bytes), At(h), h.max)
  {
    if Words(bytes) > h.size { NothingFits(h.lay, h.End(), Request(Words(bytes)), 0); }
    p := h.Realloc(rmem, bytes, k);
  }

  // A caller writes to word i of its block.
  method WriteTo(h: Heap, rmem: nat, i: nat, x: int, ghost k: nat)
    requires h.Valid() && k < |h.lay| && h.lay[k].used && h.lay[k].start + HEADER == rmem && i < Room(h.lay[k])
    modifies h.heap
    ensures h.Valid() && h.max == old(h.max) && Follows(old(At(h)), h.size, Write(k), At(h))
  {
    ghost var h0 := h.heap[..];
    HeaderLinks(h0, h.lay, h.pool, h.End(), k);
    h.heap[rmem + i] := x;
    DataWritten(h0, h.heap[..], h.lay, h.pool, h.End(), k);
  }
}
