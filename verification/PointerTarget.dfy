/** Processing what a pointer leads to (process_ptrmem(), src/ugtrain.cpp) through windows of
    its own, while the windows of the object that holds the pointer are still open. */
module PointerTarget {
  import opened Common
  import opened WriteBack
  import opened CacheCycle

  // ---------------------------------------------------------------------------
  // Reference
  // ---------------------------------------------------------------------------

  datatype Effect<S> = Effect(mem: seq<byte>, st: S)

  /** All active entries of the target, each read and written in place. */
  function DirectTarget<S>(p: Policy<S>, offs: nat, act: seq<Entry>, mem: seq<byte>, st: S): (r: Effect<S>)
    ensures |r.mem| == |mem|
  {
    if act == [] then Effect(mem, st)
    else
      var t := DirectTarget(p, offs, act[..|act|-1], mem, st);
      var v := DirectVisit(p, offs, act[|act|-1], t.mem, t.st);
      Effect(v.mem, v.st)
  }

  /** Entry i of the target sees what the entries before it have left. */
  lemma {:induction false} TargetEntry<S>(p: Policy<S>, offs: nat, act: seq<Entry>, mem: seq<byte>, st: S, i: nat)
    returns (kicked: bool)
    requires i < |act|
    ensures DirectTarget(p, offs, act[..0], mem, st) == Effect(mem, st)
    ensures
      var t, u := DirectTarget(p, offs, act[..i], mem, st), DirectTarget(p, offs, act[..i+1], mem, st);
      Visited(p, offs, act[i], t.mem, t.st, Outcome(u.mem, u.st, kicked))
  {
    var t := DirectTarget(p, offs, act[..i], mem, st);
    assert act[..i+1][..i] == act[..i];
    VisitMeans(p, offs, act[i], t.mem, t.st);
    kicked := DirectVisit(p, offs, act[i], t.mem, t.st).kicked;
  }

  // ---------------------------------------------------------------------------
  // Through the windows of the target
  // ---------------------------------------------------------------------------

  ghost predicate TargetUsable(ws: seq<Window>, chunk: nat, offs: nat, act: seq<Entry>, top: nat)
  {
    forall i :: 0 <= i < |act| ==> EntryUsable(ws, chunk, offs, act[i], top)
  }

  /** The rest of process_ptrmem(), once the pointer is to be followed: invalidate, process,
      write back. */
  method ProcessTarget<S>(t: Trainer<S>, cl: CacheList, offs: nat, act: seq<Entry>)
    requires cl.Valid() && t !in cl.Repr && Ascending(cl.ws) && NoneDirty(cl.ws)
    requires TargetUsable(cl.ws, cl.chunk, offs, act, |t.mem|)
    modifies t`mem, t`st, cl.Repr
    ensures cl.Valid() && NoneDirty(cl.ws) && SameOffsets(old(cl.ws), cl.ws)
    ensures DirectTarget(t.policy, offs, act, old(t.mem), old(t.st)) == Effect(t.mem, t.st)
  {
    cl.Invalidate();
    ghost var ws0, mem0, st0 := cl.ws, t.mem, t.st;
    CleanListOpens(cl.ws, cl.chunk, offs, t.mem);
    var i := 0;
    while i < |act|
      invariant i <= |act| && t.Open(cl, offs) && SameOffsets(ws0, cl.ws) && t.mem == mem0
      invariant DirectTarget(t.policy, offs, act[..i], mem0, st0) == Effect(cl.Direct(t.mem), t.st)
    {
      assert act[..i+1][..i] == act[..i];
      EntryStillUsable(old(cl.ws), cl.ws, cl.chunk, offs, act[i], |t.mem|);
      var kicked := t.Visit(cl, offs, act[i]);
      i := i + 1;
    }
    assert act[..i] == act;
    t.WriteCaches(cl);
  }

  // ---------------------------------------------------------------------------
  // Elsewhere in memory
  // ---------------------------------------------------------------------------

  /** The two memories agree on the zone. */
  ghost predicate Same(m: seq<byte>, n: seq<byte>, zone: set<nat>)
  {
    |m| == |n| && forall a :: a in zone && a < |m| ==> m[a] == n[a]
  }

  /** And everywhere else. */
  ghost predicate SameElsewhere(m: seq<byte>, n: seq<byte>, zone: set<nat>)
  {
    |m| == |n| && forall a :: 0 <= a < |m| && a !in zone ==> m[a] == n[a]
  }

  predicate InSlot(offs: nat, s: Slot, a: nat) { offs + s.addr <= a < offs + s.addr + s.size }

  /** Processing the entry looks at byte a. */
  predicate EntryTouches(offs: nat, e: Entry, a: nat)
  {
    || InSlot(offs, e.slot, a)
    || (!e.watch && exists i :: 0 <= i < |e.checks| && e.checks[i].OnMemory? && InSlot(offs, e.checks[i].slot, a))
  }

  predicate TargetTouches(offs: nat, act: seq<Entry>, a: nat)
  {
    exists i :: 0 <= i < |act| && EntryTouches(offs, act[i], a)
  }

  ghost predicate EntryIn(offs: nat, e: Entry, zone: set<nat>, top: nat)
  {
    forall a :: 0 <= a < top && EntryTouches(offs, e, a) ==> a in zone
  }

  lemma {:induction false} SameBytes(m: seq<byte>, n: seq<byte>, zone: set<nat>, offs: nat, s: Slot)
    requires Same(m, n, zone) && Readable(offs, s, |m|)
    requires forall a :: 0 <= a < |m| && InSlot(offs, s, a) ==> a in zone
    ensures m[offs + s.addr..offs + s.addr + s.size] == n[offs + s.addr..offs + s.addr + s.size]
  {
    var x, y := m[offs + s.addr..offs + s.addr + s.size], n[offs + s.addr..offs + s.addr + s.size];
    forall i | 0 <= i < s.size ensures x[i] == y[i] {
      assert InSlot(offs, s, offs + s.addr + i);
    }
  }

  lemma {:induction false} ChecksLocal<S>(p: Policy<S>, offs: nat, checks: seq<Check>, m: seq<byte>, n: seq<byte>,
        st: S, zone: set<nat>)
    requires Same(m, n, zone)
    requires forall i, a ::
      0 <= i < |checks| && checks[i].OnMemory? && 0 <= a < |m| && InSlot(offs, checks[i].slot, a) ==> a in zone
    ensures DirectChecks(p, offs, checks, m, st) == DirectChecks(p, offs, checks, n, st)
  {
    if checks != [] {
      var c := checks[0];
      if c.OnMemory? && Readable(offs, c.slot, |m|) { SameBytes(m, n, zone, offs, c.slot); }
      ChecksLocal(p, offs, checks[1..], m, n, st, zone);
    }
  }

  /** A write inside the zone. */
  lemma {:induction false} PatchLocal(m: seq<byte>, n: seq<byte>, at: nat, v: seq<byte>, zone: set<nat>)
    requires Same(m, n, zone) && at + |v| <= |m| && forall a :: at <= a < at + |v| ==> a in zone
    ensures Same(Patch(m, at, v), Patch(n, at, v), zone) && SameElsewhere(Patch(m, at, v), m, zone)
  {}

  /** An entry whose bytes all lie in the zone depends on the zone only, and changes nothing
      outside it. */
  lemma {:induction false} VisitLocal<S>(p: Policy<S>, offs: nat, e: Entry, m: seq<byte>, n: seq<byte>, st: S,
        zone: set<nat>)
    requires Same(m, n, zone) && EntryIn(offs, e, zone, |m|)
    ensures
      var v, w := DirectVisit(p, offs, e, m, st), DirectVisit(p, offs, e, n, st);
      v.st == w.st && v.kicked == w.kicked && Same(v.mem, w.mem, zone) && SameElsewhere(v.mem, m, zone)
  {
    if Readable(offs, e.slot, |m|) {
      forall a | 0 <= a < |m| && InSlot(offs, e.slot, a) ensures a in zone { assert EntryTouches(offs, e, a); }
      SameBytes(m, n, zone, offs, e.slot);
      var buf := m[offs + e.slot.addr..offs + e.slot.addr + e.slot.size];
      ChangeLocal(p, offs, e, buf, m, n, p.observe(st, e.slot, buf), zone);
    }
  }

  lemma {:induction false} ChangeLocal<S>(p: Policy<S>, offs: nat, e: Entry, buf: seq<byte>, m: seq<byte>, n: seq<byte>,
        st: S, zone: set<nat>)
    requires Same(m, n, zone) && EntryIn(offs, e, zone, |m|) && Readable(offs, e.slot, |m|)
    requires forall a :: 0 <= a < |m| && InSlot(offs, e.slot, a) ==> a in zone
    ensures
      var v, w := DirectChange(p, offs, e, buf, m, st), DirectChange(p, offs, e, buf, n, st);
      v.st == w.st && v.kicked == w.kicked && Same(v.mem, w.mem, zone) && SameElsewhere(v.mem, m, zone)
  {
    if !e.watch {
      forall i, a | 0 <= i < |e.checks| && e.checks[i].OnMemory? && 0 <= a < |m| && InSlot(offs, e.checks[i].slot, a)
        ensures a in zone
      {
        assert EntryTouches(offs, e, a);
      }
      ChecksLocal(p, offs, e.checks, m, n, st, zone);
      var wish := p.wish(st, e.slot, buf);
      if wish.Some? {
        var v := Cut(wish.value, e.slot.size);
        forall a: nat | offs + e.slot.addr <= a < offs + e.slot.addr + |v| ensures a in zone {
          assert InSlot(offs, e.slot, a);
        }
        PatchLocal(m, n, offs + e.slot.addr, v, zone);
      }
    }
  }

  /** What lies behind a pointer depends on the bytes it touches alone, and changes no others. */
  lemma {:induction false} TargetLocal<S>(p: Policy<S>, offs: nat, act: seq<Entry>, m: seq<byte>, n: seq<byte>, st: S,
        zone: set<nat>)
    requires Same(m, n, zone) && forall i :: 0 <= i < |act| ==> EntryIn(offs, act[i], zone, |m|)
    ensures
      var v, w := DirectTarget(p, offs, act, m, st), DirectTarget(p, offs, act, n, st);
      v.st == w.st && Same(v.mem, w.mem, zone) && SameElsewhere(v.mem, m, zone)
  {
    if act != [] {
      var init, e := act[..|act|-1], act[|act|-1];
      TargetLocal(p, offs, init, m, n, st, zone);
      var v, w := DirectTarget(p, offs, init, m, st), DirectTarget(p, offs, init, n, st);
      VisitLocal(p, offs, e, v.mem, w.mem, v.st, zone);
    }
  }

  // ---------------------------------------------------------------------------
  // Under open windows
  // ---------------------------------------------------------------------------

  predicate InWindow(w: Window, chunk: nat, base: nat, a: nat)
  {
    base + w.offs <= a < base + w.offs + chunk
  }

  predicate InSomeWindow(ws: seq<Window>, chunk: nat, base: nat, a: nat)
  {
    exists k :: 0 <= k < |ws| && InWindow(ws[k], chunk, base, a)
  }

  /** No byte that the target touches lies in a window of the object. */
  ghost predicate TargetApart(ws: seq<Window>, chunk: nat, base: nat, offs: nat, act: seq<Entry>, top: nat)
  {
    forall a :: 0 <= a < top && TargetTouches(offs, act, a) ==> !InSomeWindow(ws, chunk, base, a)
  }

  lemma {:induction false} StillApart(ws: seq<Window>, ws': seq<Window>, chunk: nat, base: nat, offs: nat,
        act: seq<Entry>, top: nat)
    requires SameOffsets(ws, ws') && TargetApart(ws, chunk, base, offs, act, top)
    ensures TargetApart(ws', chunk, base, offs, act, top)
  {
    forall a | 0 <= a < top && TargetTouches(offs, act, a) ensures !InSomeWindow(ws', chunk, base, a) {
      forall k | 0 <= k < |ws'| ensures !InWindow(ws'[k], chunk, base, a) { assert !InWindow(ws[k], chunk, base, a); }
    }
  }

  ghost function Touched(offs: nat, act: seq<Entry>, top: nat): (z: set<nat>)
    ensures forall a :: a in z <==> 0 <= a < top && TargetTouches(offs, act, a)
  {
    set a: nat | a < top && TargetTouches(offs, act, a)
  }

  /** Writing back leaves alone what lies in no window, and depends on memory byte by byte. */
  lemma {:induction false} FlushAt(ws: seq<Window>, m: seq<byte>, n: seq<byte>, k: nat, a: nat)
    requires |m| == |n| && k <= |ws| && a < |m| && m[a] == n[a]
    ensures Flush(ws, m, k)[a] == Flush(ws, n, k)[a]
  {
    if k > 0 { FlushAt(ws, m, n, k - 1, a); }
  }

  lemma {:induction false} FlushNotIn(ws: seq<Window>, chunk: nat, base: nat, m: seq<byte>, k: nat, a: nat)
    requires Coherent(ws, chunk, base, m) && k <= |ws| && a < |m| && !InSomeWindow(ws, chunk, base, a)
    ensures Flush(ws, m, k)[a] == m[a]
  {
    if k > 0 {
      FlushNotIn(ws, chunk, base, m, k - 1, a);
      assert Mirrors(ws, chunk, base, m, k - 1);
      assert !InWindow(ws[k-1], chunk, base, a);
    }
  }

  /** A change of memory that touches no window keeps the windows in step. */
  lemma {:induction false} StillCoherent(ws: seq<Window>, chunk: nat, base: nat, m: seq<byte>, n: seq<byte>,
        zone: set<nat>)
    requires Coherent(ws, chunk, base, m) && SameElsewhere(n, m, zone)
    requires forall a :: a in zone ==> !InSomeWindow(ws, chunk, base, a)
    ensures Coherent(ws, chunk, base, n)
  {
    forall k | 0 <= k < |ws| ensures Mirrors(ws, chunk, base, n, k) {
      assert Mirrors(ws, chunk, base, m, k);
      if ws[k].start.Some? {
        var s := ws[k].start.value;
        forall a | s <= a < s + chunk ensures n[a] == m[a] {
          assert InWindow(ws[k], chunk, base, a);
        }
      }
    }
  }

  /** The target is processed in memory under the object's windows as it would be in the memory
      that writing these back yields. */
  ghost predicate Undisturbed<S>(p: Policy<S>, ws: seq<Window>, chunk: nat, base: nat, mem: seq<byte>, st: S, offs: nat,
        act: seq<Entry>)
  {
    var t := DirectTarget(p, offs, act, mem, st);
    Coherent(ws, chunk, base, t.mem) && DirectTarget(p, offs, act, Flush(ws, mem, |ws|), st) ==
      Effect(Flush(ws, t.mem, |ws|), t.st)
  }

  /** Processing a target under open windows: the memory that writing them back yields
      changes exactly as if the target had been processed in it. */
  lemma {:induction false} TargetCommutes<S>(p: Policy<S>, ws: seq<Window>, chunk: nat, base: nat, mem: seq<byte>,
        st: S, offs: nat, act: seq<Entry>)
    requires Coherent(ws, chunk, base, mem) && TargetApart(ws, chunk, base, offs, act, |mem|)
    ensures Undisturbed(p, ws, chunk, base, mem, st, offs, act)
  {
    var zone, direct := Touched(offs, act, |mem|), Flush(ws, mem, |ws|);
    var t, d := DirectTarget(p, offs, act, mem, st), DirectTarget(p, offs, act, direct, st);
    forall i | 0 <= i < |act| ensures EntryIn(offs, act[i], zone, |mem|) {
      assert forall a :: EntryTouches(offs, act[i], a) ==> TargetTouches(offs, act, a);
    }
    forall a | a in zone && a < |mem| ensures direct[a] == mem[a] { FlushNotIn(ws, chunk, base, mem, |ws|, a); }
    TargetLocal(p, offs, act, mem, direct, st, zone);
    TargetLocal(p, offs, act, direct, mem, st, zone);
    StillCoherent(ws, chunk, base, mem, t.mem, zone);
    forall a: nat | a < |mem| ensures d.mem[a] == Flush(ws, t.mem, |ws|)[a] {
      if a in zone {
        FlushNotIn(ws, chunk, base, t.mem, |ws|, a);
      } else {
        FlushAt(ws, t.mem, mem, |ws|, a);
      }
    }
    assert d.mem == Flush(ws, t.mem, |ws|);
  }
}
