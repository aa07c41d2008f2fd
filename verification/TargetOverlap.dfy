/** When a pointer leads into the windows of the object that holds it (process_ptrmem() and
    WRITE_CACHES, src/ugtrain.cpp): exactly then the windows and the target can disturb each
    other. */
module TargetOverlap {
  import opened Common
  import opened WriteBack
  import opened CacheCycle
  import opened PointerTarget

  /** What is written to memory under a dirty window is lost. */
  lemma {:induction false} DirtyWindowWins(ws: seq<Window>, m: seq<byte>, n: seq<byte>, k: nat, count: nat, a: nat)
    requires k < count <= |ws| && |m| == |n| && a < |m|
    requires ws[k].dirty && ws[k].start.Some? && ws[k].start.value + |ws[k].data| <= |m|
    requires ws[k].start.value <= a < ws[k].start.value + |ws[k].data|
    ensures Flush(ws, m, count)[a] == Flush(ws, n, count)[a]
  {
    if k + 1 < count { DirtyWindowWins(ws, m, n, k, count - 1, a); }
  }

  /** A trainer that wishes for the value 7 everywhere. */
  function Sevens(): Policy<int>
  {
    Policy((s, i) => s, (s, slot, buf) => s, (s, c, buf) => Satisfied, (s, slot, buf) => Some([7]),
      (s, slot) => s, (s, slot, buf) => None, (s, slot, buf) => s, (s, slot, to) => s)
  }

  /** A value of one byte where the pointer leads. */
  function Neighbour(): Entry { Entry(Slot(0, 1, 0, 0, 0), false, []) }

  /** Window of an object at address 4096: the first byte of the object has been changed to 9. */
  function DirtyWindow(): (w: Window)
    ensures w.offs == 0 && w.start == Some(4096) && w.dirty && |w.data| == 2048
    ensures forall i :: 0 <= i < 2048 ==> w.data[i] == if i == 0 then 9 else 1
  {
    Window(0, Some(4096), seq(2048, i => if i == 0 then 9 else 1), true)
  }

  lemma {:induction false} NeighbourWritten(m: seq<byte>, to: nat)
    requires to < |m|
    ensures DirectTarget(Sevens(), to, [Neighbour()], m, 0).mem == m[to := 7]
  {
    assert [Neighbour()][..0] == [];
    assert DirectTarget(Sevens(), to, [], m, 0) == Effect(m, 0);
    assert DirectVisit(Sevens(), to, Neighbour(), m, 0).mem == Patch(m, to, [7]);
  }

  lemma {:induction false} WindowWritten(m: seq<byte>, a: nat)
    requires |m| == 8192 && 4096 < a < 6144
    ensures Flush([DirtyWindow()], m, 1)[a] == 1
  {
    assert Flush([DirtyWindow()], m, 0) == m;
    assert Flush([DirtyWindow()], m, 1) == Patch(m, 4096, DirtyWindow().data);
  }

  lemma {:induction false} NeighbourInWindow(to: nat)
    requires 4096 <= to < 6144
    ensures !TargetApart([DirtyWindow()], 2048, 4096, to, [Neighbour()], 8192)
  {
    var ws, act := [DirtyWindow()], [Neighbour()];
    assert InWindow(ws[0], 2048, 4096, to) && InSomeWindow(ws, 2048, 4096, to);
    assert EntryTouches(to, act[0], to) && TargetTouches(to, act, to);
  }

  /** Two small objects on the heap, 64 bytes apart.  The first one holds a pointer to the
      second, and has been changed in its window, which is as long as MEM_CHUNK.  The value
      written behind the pointer is gone when the window has been written back. */
  lemma {:induction false} LostWrite()
    ensures
      var ws, mem, act, to := [DirtyWindow()], seq(8192, _ => 1 as byte), [Neighbour()], 4096 + 64;
      && Coherent(ws, 2048, 4096, mem) && !TargetApart(ws, 2048, 4096, to, act, 8192)
      && DirectTarget(Sevens(), to, act, Flush(ws, mem, 1), 0).mem[to] == 7
      && DirectTarget(Sevens(), to, act, mem, 0).mem[to] == 7
      && Flush(ws, DirectTarget(Sevens(), to, act, mem, 0).mem, 1)[to] == 1
  {
    var mem := seq(8192, _ => 1 as byte);
    assert Mirrors([DirtyWindow()], 2048, 4096, mem, 0);
    NeighbourInWindow(4160);
    NeighbourWritten(mem, 4160);
    NeighbourWritten(Flush([DirtyWindow()], mem, 1), 4160);
    WindowWritten(mem[4160 := 7], 4160);
  }

  // ---------------------------------------------------------------------------
  // Exactly when
  // ---------------------------------------------------------------------------

  predicate EntryReadable(offs: nat, e: Entry, top: nat)
  {
    Readable(offs, e.slot, top) && forall i :: 0 <= i < |e.checks| && e.checks[i].OnMemory? ==>
      Readable(offs, e.checks[i].slot, top)
  }

  predicate TargetReadable(offs: nat, act: seq<Entry>, top: nat)
  {
    forall i :: 0 <= i < |act| ==> EntryReadable(offs, act[i], top)
  }

  /** A trainer that counts its writes, takes one off for every value with a byte 1 in it, and
      does not write when a check reads one. */
  function Counting(): Policy<int>
  {
    Policy(
      (s, i) => s,
      (s, slot, buf) => if 1 in buf then s - 1 else s,
      (s, c, buf) => if 1 in buf then Violated else Satisfied,
      (s, slot, buf) => Some([]),
      (s, slot) => s + 1,
      (s, slot, buf) => None, (s, slot, buf) => s, (s, slot, to) => s)
  }

  predicate Zeros(m: seq<byte>) { forall i :: 0 <= i < |m| ==> m[i] == 0 }

  lemma {:induction false} ZerosHoldNoOne(z: seq<byte>, i: nat, j: nat)
    requires Zeros(z) && i <= j <= |z|
    ensures 1 !in z[i..j]
  {}

  lemma {:induction false} OneIsRead(d: seq<byte>, offs: nat, s: Slot, a: nat)
    requires Readable(offs, s, |d|) && InSlot(offs, s, a) && d[a] == 1
    ensures 1 in d[offs + s.addr..offs + s.addr + s.size]
  {
    assert d[offs + s.addr..offs + s.addr + s.size][a - offs - s.addr] == 1;
  }

  lemma {:induction false} ZerosPass(offs: nat, checks: seq<Check>, z: seq<byte>, st: int)
    requires Zeros(z) && forall i :: 0 <= i < |checks| && checks[i].OnMemory? ==> Readable(offs, checks[i].slot, |z|)
    ensures DirectChecks(Counting(), offs, checks, z, st).Passed?
  {
    if checks != [] {
      var c := checks[0];
      if c.OnMemory? { ZerosHoldNoOne(z, offs + c.slot.addr, offs + c.slot.addr + c.slot.size); }
      ZerosPass(offs, checks[1..], z, st);
    }
  }

  lemma {:induction false} OneFails(offs: nat, checks: seq<Check>, d: seq<byte>, st: int, i: nat, a: nat)
    requires i < |checks| && checks[i].OnMemory? && Readable(offs, checks[i].slot, |d|)
    requires InSlot(offs, checks[i].slot, a) && d[a] == 1
    ensures !DirectChecks(Counting(), offs, checks, d, st).Passed?
  {
    if i == 0 {
      OneIsRead(d, offs, checks[0].slot, a);
    } else {
      OneFails(offs, checks[1..], d, st, i - 1, a);
    }
  }

  function BytesOf(offs: nat, s: Slot, m: seq<byte>): seq<byte>
    requires Readable(offs, s, |m|)
  {
    m[offs + s.addr..offs + s.addr + s.size]
  }

  predicate ChecksPass(offs: nat, checks: seq<Check>, m: seq<byte>)
  {
    DirectChecks(Counting(), offs, checks, m, 0).Passed?
  }

  lemma {:induction false} StateIgnored(offs: nat, checks: seq<Check>, m: seq<byte>, s: int)
    ensures DirectChecks(Counting(), offs, checks, m, s) == DirectChecks(Counting(), offs, checks, m, 0)
  {
    if checks != [] { StateIgnored(offs, checks[1..], m, s); }
  }

  /** What a value counts for. */
  function Score(offs: nat, e: Entry, m: seq<byte>): int
    requires Readable(offs, e.slot, |m|)
  {
    (if 1 in BytesOf(offs, e.slot, m) then -1 else 0) + (if !e.watch && ChecksPass(offs, e.checks, m) then 1 else 0)
  }

  lemma {:induction false} NothingPatched(m: seq<byte>, at: nat, size: nat)
    requires at <= |m|
    ensures Patch(m, at, Cut([], size)) == m
  {}

  lemma {:induction false} ChangeScores(offs: nat, e: Entry, buf: seq<byte>, m: seq<byte>, s: int)
    requires Readable(offs, e.slot, |m|)
    ensures
      var v := DirectChange(Counting(), offs, e, buf, m, s);
      v.mem == m && v.st == s + if !e.watch && ChecksPass(offs, e.checks, m) then 1 else 0
  {
    StateIgnored(offs, e.checks, m, s);
    NothingPatched(m, offs + e.slot.addr, e.slot.size);
  }

  lemma {:induction false} VisitScores(offs: nat, e: Entry, m: seq<byte>, s: int)
    requires Readable(offs, e.slot, |m|)
    ensures
      var v := DirectVisit(Counting(), offs, e, m, s);
      v.mem == m && v.st == s + Score(offs, e, m)
  {
    var buf := BytesOf(offs, e.slot, m);
    ChangeScores(offs, e, buf, m, if 1 in buf then s - 1 else s);
  }

  predicate CheckTouches(offs: nat, e: Entry, a: nat)
  {
    exists i :: 0 <= i < |e.checks| && e.checks[i].OnMemory? && InSlot(offs, e.checks[i].slot, a)
  }

  lemma {:induction false} TouchedCheckFails(offs: nat, e: Entry, d: seq<byte>, a: nat)
    requires EntryReadable(offs, e, |d|) && a < |d| && d[a] == 1 && CheckTouches(offs, e, a)
    ensures !ChecksPass(offs, e.checks, d)
  {
    var i :| 0 <= i < |e.checks| && e.checks[i].OnMemory? && InSlot(offs, e.checks[i].slot, a);
    OneFails(offs, e.checks, d, 0, i, a);
  }

  /** Memory with a byte 1 never counts for more than zeros, and for less when it is read. */
  lemma {:induction false} ScoresLess(offs: nat, e: Entry, z: seq<byte>, d: seq<byte>, a: nat)
    requires Zeros(z) && |z| == |d| && EntryReadable(offs, e, |z|) && a < |d| && d[a] == 1
    ensures Score(offs, e, d) <= Score(offs, e, z) && (EntryTouches(offs, e, a) ==>
      Score(offs, e, d) < Score(offs, e, z))
  {
    ZerosHoldNoOne(z, offs + e.slot.addr, offs + e.slot.addr + e.slot.size);
    ZerosPass(offs, e.checks, z, 0);
    if InSlot(offs, e.slot, a) {
      OneIsRead(d, offs, e.slot, a);
    } else if CheckTouches(offs, e, a) {
      TouchedCheckFails(offs, e, d, a);
    }
  }

  lemma {:induction false} LastTouches(offs: nat, act: seq<Entry>, a: nat)
    requires act != [] && TargetTouches(offs, act, a)
    ensures EntryTouches(offs, act[|act|-1], a) || TargetTouches(offs, act[..|act|-1], a)
  {
    var i :| 0 <= i < |act| && EntryTouches(offs, act[i], a);
    if i < |act| - 1 { assert EntryTouches(offs, act[..|act|-1][i], a); }
  }

  lemma {:induction false} TargetCounts(offs: nat, act: seq<Entry>, z: seq<byte>, d: seq<byte>, a: nat)
    requires Zeros(z) && |z| == |d| && TargetReadable(offs, act, |z|) && a < |d| && d[a] == 1
    ensures
      var v, w := DirectTarget(Counting(), offs, act, z, 0), DirectTarget(Counting(), offs, act, d, 0);
      v.mem == z && w.mem == d && w.st <= v.st && (TargetTouches(offs, act, a) ==> w.st < v.st)
  {
    if act != [] {
      var n := |act| - 1;
      TargetCounts(offs, act[..n], z, d, a);
      var v, w := DirectTarget(Counting(), offs, act[..n], z, 0), DirectTarget(Counting(), offs, act[..n], d, 0);
      VisitScores(offs, act[n], z, v.st);
      VisitScores(offs, act[n], d, w.st);
      ScoresLess(offs, act[n], z, d, a);
      if TargetTouches(offs, act, a) { LastTouches(offs, act, a); }
    }
  }

  /** A byte in some window lies in the part of one that no later window covers. */
  lemma {:induction false} ZoneFound(ws: seq<Window>, chunk: nat, base: nat, k: nat, a: nat) returns (j: nat)
    requires Ascending(ws) && k < |ws| && InWindow(ws[k], chunk, base, a)
    ensures j < |ws| && InZone(ws, chunk, base, j, a)
    decreases |ws| - k
  {
    if InZone(ws, chunk, base, k, a) {
      j := k;
    } else {
      j := ZoneFound(ws, chunk, base, k + 1, a);
    }
  }

  /** Only window j is valid: filled from zeros, with a byte 1 set at a. */
  function OneSet(ws: seq<Window>, chunk: nat, base: nat, j: nat, a: nat): (r: seq<Window>)
    requires j < |ws| && InWindow(ws[j], chunk, base, a)
    ensures SameOffsets(ws, r)
  {
    var data := seq(chunk, i => if base + ws[j].offs + i == a then 1 else 0);
    seq(|ws|, k requires 0 <= k < |ws| =>
      if k == j then Window(ws[j].offs, Some(base + ws[j].offs), data, true) else Window(ws[k].offs, None, [], false))
  }

  lemma {:induction false} OneSetCoherent(ws: seq<Window>, chunk: nat, base: nat, j: nat, a: nat, mem: seq<byte>)
    requires Ascending(ws) && j < |ws| && InWindow(ws[j], chunk, base, a) && InZone(ws, chunk, base, j, a)
    requires Zeros(mem) && base + ws[j].offs + chunk <= |mem|
    ensures
      var ws' := OneSet(ws, chunk, base, j, a);
      Coherent(ws', chunk, base, mem) && a < |mem| && Flush(ws', mem, |ws'|)[a] == 1
  {
    var ws' := OneSet(ws, chunk, base, j, a);
    forall i | 0 <= i < |ws'| ensures Mirrors(ws', chunk, base, mem, i) {}
    FlushInside(ws', chunk, base, mem, |ws'|, j, a);
  }

  /** A target that touches a byte of a window is disturbed for some trainer and some state of
      the windows. */
  lemma {:induction false} OverlapDisturbs(ws: seq<Window>, chunk: nat, base: nat, offs: nat, act: seq<Entry>, top: nat)
    returns (ws': seq<Window>, mem: seq<byte>)
    requires Ascending(ws) && forall k :: 0 <= k < |ws| ==> base + ws[k].offs + chunk <= top
    requires TargetReadable(offs, act, top) && !TargetApart(ws, chunk, base, offs, act, top)
    ensures |mem| == top && SameOffsets(ws, ws') && Coherent(ws', chunk, base, mem)
    ensures !Undisturbed(Counting(), ws', chunk, base, mem, 0, offs, act)
  {
    var a: nat :| a < top && TargetTouches(offs, act, a) && InSomeWindow(ws, chunk, base, a);
    var k: nat :| k < |ws| && InWindow(ws[k], chunk, base, a);
    var j := ZoneFound(ws, chunk, base, k, a);
    mem := seq(top, _ => 0);
    ws' := OneSet(ws, chunk, base, j, a);
    OneSetCoherent(ws, chunk, base, j, a, mem);
    TargetCounts(offs, act, mem, Flush(ws', mem, |ws'|), a);
  }

  /** The windows and the target leave each other alone, whatever the trainer does and the
      windows hold, if and only if no byte the target touches lies in one of them. */
  lemma {:induction false} UndisturbedIffApart(ws: seq<Window>, chunk: nat, base: nat, offs: nat, act: seq<Entry>,
        top: nat)
    requires Ascending(ws) && forall k :: 0 <= k < |ws| ==> base + ws[k].offs + chunk <= top
    requires TargetReadable(offs, act, top)
    ensures TargetApart(ws, chunk, base, offs, act, top) <==>
      forall p: Policy<int>, ws', mem: seq<byte>, st ::
        |mem| == top && SameOffsets(ws, ws') && Coherent(ws', chunk, base, mem) ==>
          Undisturbed(p, ws', chunk, base, mem, st, offs, act)
  {
    if TargetApart(ws, chunk, base, offs, act, top) {
      forall p: Policy<int>, ws', mem: seq<byte>, st | |mem| == top && SameOffsets(ws, ws') &&
        Coherent(ws', chunk, base, mem)
        ensures Undisturbed(p, ws', chunk, base, mem, st, offs, act)
      {
        StillApart(ws, ws', chunk, base, offs, act, top);
        TargetCommutes(p, ws', chunk, base, mem, st, offs, act);
      }
    } else {
      var ws', mem := OverlapDisturbs(ws, chunk, base, offs, act, top);
    }
  }
}
