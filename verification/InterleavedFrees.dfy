/** Several frees at once (src/linuxhooking/libmemhack.c, preprocess_free): the search and
    the removal only hold the lock for reading, so frees of different threads interleave
    between any two accesses to the table.  A store holds the lock for writing. */
module InterleavedFrees {
  import opened SlotTable

  /** Where a free stands: looking at slot j; about to clear slot j; about to compare j with
      insert_idx; about to set insert_idx to j. */
  datatype Pc =
    | Scan(addr: nat, j: nat)
    | Clear(addr: nat, j: nat)
    | Compare(addr: nat, j: nat)
    | Write(addr: nat, j: nat)
  {
    predicate Pending() { Compare? || Write? }
  }

  /** `missed` collects live addresses whose free ran into the sentinel. */
  datatype State = State(t: Table, frees: map<nat, Pc>, missed: set<nat>)

  datatype Step = Begin(thread: nat, addr: nat) | Advance(thread: nat) | Stored(addr: nat)

  const INIT := State(EMPTY, map[], {})

  /** An object is freed by one thread at a time, and only stored when it is not live. */
  predicate Enabled(s: State, step: Step)
  {
    match step
    case Begin(th, a) => th !in s.frees && a > INVAL && forall u :: u in s.frees ==> s.frees[u].addr != a
    case Advance(th) => th in s.frees
    case Stored(a) => s.frees == map[] && a > INVAL && a !in Live(s.t.slots)
  }

  /** Whether the thread stays inside the free. */
  datatype Outcome = Left | At(pc: Pc)

  /** One access of one thread. */
  function Moved(t: Table, pc: Pc): (Table, Outcome)
  {
    match pc
    case Scan(a, j) =>
      if |t.slots| <= j || t.slots[j] == INVAL then (t, Left)
      else if t.slots[j] == a then (t, At(Clear(a, j)))
      else (t, At(Scan(a, j + 1)))
    case Clear(a, j) => (if j < |t.slots| then t.(slots := t.slots[j := 0]) else t, At(Compare(a, j)))
    case Compare(a, j) => (t, if j < t.insertIdx then At(Write(a, j)) else Left)
    case Write(_, j) => (t.(insertIdx := j), Left)
  }

  function Next(s: State, step: Step): State
  {
    match step
    case Begin(th, a) => s.(frees := s.frees[th := Scan(a, 0)])
    case Stored(a) => if s.t.MaxObj() >= 1 && s.t.insertIdx <= s.t.MaxObj() then s.(t := StoreIn(s.t, a)) else s
    case Advance(th) =>
      if th !in s.frees then s
      else
        var pc := s.frees[th];
        var (t, o) := Moved(s.t, pc);
        State(t, if o.Left? then s.frees - {th} else s.frees[th := o.pc],
              if pc.Scan? && o.Left? && pc.addr in Live(s.t.slots) then s.missed + {pc.addr} else s.missed)
  }

  /** The state after a history, and the histories that can happen. */
  function After(steps: seq<Step>): State
  {
    if steps == [] then INIT else Next(After(steps[..|steps|-1]), steps[|steps|-1])
  }

  predicate Legal(steps: seq<Step>)
  {
    steps != [] ==> Legal(steps[..|steps|-1]) && Enabled(After(steps[..|steps|-1]), steps[|steps|-1])
  }

  // ---------------------------------------------------------------------------
  // What every interleaving keeps
  // ---------------------------------------------------------------------------

  /** A scan has the slot of its address still ahead; the others are at a used slot. */
  ghost predicate PcSound(slots: seq<nat>, pc: Pc)
  {
    match pc
    case Scan(a, j) => a > INVAL && j <= Used(slots) && forall k :: 0 <= k < j ==> slots[k] != a
    case Clear(a, j) => a > INVAL && j < Used(slots) && slots[j] == a
    case Compare(a, j) => j < Used(slots) && slots[j] == 0
    case Write(a, j) => j < Used(slots) && slots[j] == 0
  }

  ghost predicate OneFreePerAddress(frees: map<nat, Pc>)
  {
    forall u, v :: u in frees && v in frees && u != v ==> frees[u].addr != frees[v].addr
  }

  ghost predicate Inv(s: State)
  {
    && Sound(s.t) && OneFreePerAddress(s.frees) && s.missed == {}
    && forall th :: th in s.frees ==> PcSound(s.t.slots, s.frees[th])
  }

  lemma {:induction false} InitInv()
    ensures Inv(INIT)
  {
    EmptySound();
  }

  lemma {:induction false} ClearKeepsOthers(slots: seq<nat>, j: nat, pc: Pc)
    requires PrefixUsed(slots) && Distinct(slots) && j < Used(slots) && slots[j] > INVAL && PcSound(slots, pc) &&
      pc.addr != slots[j]
    ensures PcSound(slots[j := 0], pc)
  {
    UsedIs(slots[j := 0], Used(slots));
  }

  /** The moving thread: the table stays sound, the thread stays where it should be, and no
      live address is missed. */
  lemma {:induction false} MoveKeeps(t: Table, pc: Pc)
    requires Sound(t) && PcSound(t.slots, pc)
    ensures var (t', o) := Moved(t, pc);
      && Sound(t') && Used(t'.slots) == Used(t.slots)
      && (o.At? ==> PcSound(t'.slots, o.pc) && o.pc.addr == pc.addr)
      && (pc.Scan? && o.Left? ==> pc.addr !in Live(t.slots))
      && Live(t'.slots) == (if pc.Clear? then Live(t.slots) - {pc.addr} else Live(t.slots))
  {
    match pc
    case Scan(a, j) => ScanKeeps(t, a, j);
    case Clear(a, j) => ClearKeeps(t, a, j);
    case Compare(a, j) =>
    case Write(a, j) =>
  }

  lemma {:induction false} ScanKeeps(t: Table, a: nat, j: nat)
    requires Sound(t) && PcSound(t.slots, Scan(a, j))
    ensures var (t', o) := Moved(t, Scan(a, j));
      t' == t && (if o.At? then PcSound(t.slots, o.pc) && o.pc.addr == a else a !in Live(t.slots))
  {
    if t.slots[j] == INVAL { NotBeforeSentinel(t.slots, a, j); } else { ScanGoesOn(t.slots, j); }
  }

  lemma {:induction false} ClearKeeps(t: Table, a: nat, j: nat)
    requires Sound(t) && PcSound(t.slots, Clear(a, j))
    ensures var t' := Moved(t, Clear(a, j)).0;
      && Sound(t') && Used(t'.slots) == Used(t.slots) && PcSound(t'.slots, Compare(a, j))
      && Live(t'.slots) == Live(t.slots) - {a}
  {
    ClearRemoves(t.slots, j);
    UsedIs(t.slots[j := 0], Used(t.slots));
  }

  lemma {:induction false} ScanGoesOn(slots: seq<nat>, j: nat)
    requires PrefixUsed(slots) && j <= Used(slots) && j < |slots| && slots[j] != INVAL
    ensures j < Used(slots)
  {}

  /** The other threads are not disturbed. */
  lemma {:induction false} MoveKeepsOthers(t: Table, pc: Pc, other: Pc)
    requires Sound(t) && PcSound(t.slots, pc) && PcSound(t.slots, other) && pc.addr != other.addr
    ensures PcSound(Moved(t, pc).0.slots, other)
  {
    if pc.Clear? { ClearKeepsOthers(t.slots, pc.j, other); }
  }

  /** Every step keeps the invariant; a store adds exactly its address to the live ones, and
      a free removes exactly its own. */
  lemma {:induction false} NextInv(s: State, step: Step)
    requires Inv(s) && Enabled(s, step)
    ensures Inv(Next(s, step))
    ensures Live(Next(s, step).t.slots) ==
      match step
      case Stored(a) => Live(s.t.slots) + {a}
      case Begin(_, _) => Live(s.t.slots)
      case Advance(th) => if s.frees[th].Clear? then Live(s.t.slots) - {s.frees[th].addr} else Live(s.t.slots)
  {
    match step
    case Stored(a) => StoreKeeps(s.t, a);
    case Begin(th, a) =>
    case Advance(th) => AdvanceInv(s, th);
  }

  lemma {:induction false} AdvanceInv(s: State, th: nat)
    requires Inv(s) && Enabled(s, Advance(th))
    ensures Inv(Next(s, Advance(th)))
    ensures Live(Next(s, Advance(th)).t.slots) ==
      if s.frees[th].Clear? then Live(s.t.slots) - {s.frees[th].addr} else Live(s.t.slots)
  {
    var pc := s.frees[th];
    MoveKeeps(s.t, pc);
    forall u | u in s.frees && u != th ensures PcSound(Moved(s.t, pc).0.slots, s.frees[u]) {
      MoveKeepsOthers(s.t, pc, s.frees[u]);
    }
  }

  /** However frees interleave: the used slots form a prefix and the last slot is the
      sentinel, no scan ever misses a live address, and there is room from insert_idx on. */
  lemma {:induction false} RunInv(steps: seq<Step>)
    requires Legal(steps)
    ensures Inv(After(steps))
  {
    if steps == [] {
      InitInv();
    } else {
      RunInv(steps[..|steps|-1]);
      NextInv(After(steps[..|steps|-1]), steps[|steps|-1]);
    }
  }

  // ---------------------------------------------------------------------------
  // What interleaving can lose: a hole below insert_idx
  // ---------------------------------------------------------------------------

  /** Every hole below insert_idx belongs to a free that has yet to lower insert_idx. */
  ghost predicate PendingExact(s: State)
  {
    forall k :: 0 <= k < s.t.insertIdx && k < |s.t.slots| && s.t.slots[k] == 0 ==> HoleOwned(s.frees, k)
  }

  ghost predicate HoleOwned(frees: map<nat, Pc>, k: nat)
  {
    exists th :: th in frees && frees[th].Pending() && frees[th].j == k
  }

  /** With no free in flight, nothing is lost: no hole lies below insert_idx. */
  lemma {:induction false} QuiescentIsExact(s: State)
    requires Inv(s) && PendingExact(s) && s.frees == map[]
    ensures Exact(s.t)
  {
    forall j | 0 <= j < s.t.insertIdx && j < |s.t.slots| ensures s.t.slots[j] > INVAL {
      assert !HoleOwned(s.frees, j);
    }
  }

  ghost predicate PendingDistinct(frees: map<nat, Pc>)
  {
    forall u, v :: u in frees && v in frees && u != v && frees[u].Pending() && frees[v].Pending() ==>
      frees[u].j != frees[v].j
  }

  ghost predicate WriteOrdered(t: Table, frees: map<nat, Pc>, pc: Pc)
  {
    pc.Write? && t.insertIdx <= pc.j ==>
      t.insertIdx < |t.slots| && t.slots[t.insertIdx] == 0 && !HoleOwned(frees, t.insertIdx)
  }

  /** Pending frees have different slots, and one that is about to write its index either
      lowers insert_idx or finds it at a hole that no pending free owns. */
  ghost predicate WritesOrdered(s: State)
  {
    && PendingDistinct(s.frees)
    && forall th :: th in s.frees ==> WriteOrdered(s.t, s.frees, s.frees[th])
  }

  lemma {:induction false} NextOrdered(s: State, step: Step)
    requires Inv(s) && WritesOrdered(s) && Enabled(s, step)
    ensures WritesOrdered(Next(s, step))
  {
    match step
    case Stored(a) =>
    case Begin(th, a) =>
      forall k | HoleOwned(s.frees[th := Scan(a, 0)], k) ensures HoleOwned(s.frees, k) {}
    case Advance(th) =>
      match s.frees[th]
      case Scan(_, _) => ScanOrdered(s, th);
      case Clear(_, _) => ClearOrdered(s, th);
      case Compare(_, _) => CompareOrdered(s, th);
      case Write(_, _) => WriteKeepsOrder(s, th);
  }

  lemma {:induction false} ScanOrdered(s: State, th: nat)
    requires Inv(s) && WritesOrdered(s) && th in s.frees && s.frees[th].Scan?
    ensures WritesOrdered(Next(s, Advance(th)))
  {
    forall k | HoleOwned(Next(s, Advance(th)).frees, k) ensures HoleOwned(s.frees, k) {}
  }

  lemma {:induction false} ClearOrdered(s: State, th: nat)
    requires Inv(s) && WritesOrdered(s) && th in s.frees && s.frees[th].Clear?
    ensures WritesOrdered(Next(s, Advance(th)))
  {
    var s', j := Next(s, Advance(th)), s.frees[th].j;
    assert PcSound(s.t.slots, s.frees[th]);
    forall k | HoleOwned(s'.frees, k) ensures HoleOwned(s.frees, k) || k == j {}
    forall u | u in s.frees && s.frees[u].Pending() ensures s.frees[u].j != j {
      assert PcSound(s.t.slots, s.frees[u]);
    }
    forall u | u in s'.frees ensures WriteOrdered(s'.t, s'.frees, s'.frees[u]) {
      if u != th { assert WriteOrdered(s.t, s.frees, s.frees[u]); }
    }
  }

  lemma {:induction false} CompareOrdered(s: State, th: nat)
    requires Inv(s) && WritesOrdered(s) && th in s.frees && s.frees[th].Compare?
    ensures WritesOrdered(Next(s, Advance(th)))
  {
    forall k | HoleOwned(Next(s, Advance(th)).frees, k) ensures HoleOwned(s.frees, k) {
      if s.frees[th].j == k { assert s.frees[th].Pending(); }
    }
  }

  lemma {:induction false} WriteKeepsOrder(s: State, th: nat)
    requires Inv(s) && WritesOrdered(s) && th in s.frees && s.frees[th].Write?
    ensures WritesOrdered(Next(s, Advance(th)))
  {
    var s', j := Next(s, Advance(th)), s.frees[th].j;
    assert PcSound(s.t.slots, s.frees[th]);
    assert !HoleOwned(s'.frees, j);
  }

  /** The write of insert_idx is the only step that can lose a hole, and it does exactly when
      another free has lowered insert_idx below this one's slot in the meantime. */
  lemma {:induction false} StaleWriteLosesHole(s: State, th: nat)
    requires Inv(s) && WritesOrdered(s) && PendingExact(s) && th in s.frees && s.frees[th].Write?
    ensures PendingExact(Next(s, Advance(th))) <==> s.frees[th].j < s.t.insertIdx
  {
    var s', j := Next(s, Advance(th)), s.frees[th].j;
    assert WriteOrdered(s.t, s.frees, s.frees[th]);
    assert PcSound(s.t.slots, s.frees[th]);
    if j < s.t.insertIdx {
      forall k | 0 <= k < j && s.t.slots[k] == 0 ensures HoleOwned(s'.frees, k) {
        var u :| u in s.frees && s.frees[u].Pending() && s.frees[u].j == k;
        assert u in s'.frees && s'.frees[u] == s.frees[u];
      }
    } else {
      var k := s.t.insertIdx;
      assert s.t.slots[k] == 0 && !HoleOwned(s.frees, k);
      assert HoleOwned(s.frees, j);
      forall u | u in s'.frees && s'.frees[u].Pending() ensures s'.frees[u].j != k {
        assert s.frees[u] == s'.frees[u];
      }
      assert !HoleOwned(s'.frees, k);
    }
  }

  /** Every other step keeps the holes below insert_idx owned. */
  lemma {:induction false} OtherStepsLoseNothing(s: State, step: Step)
    requires Inv(s) && WritesOrdered(s) && PendingExact(s) && Enabled(s, step)
    requires step.Advance? ==> !s.frees[step.thread].Write?
    ensures PendingExact(Next(s, step))
  {
    var s' := Next(s, step);
    match step
    case Stored(a) =>
      QuiescentIsExact(s);
      StoreExact(s.t, a);
    case Begin(th, a) =>
      OwnersStay(s.frees, s'.frees, th);
    case Advance(th) =>
      assert PcSound(s.t.slots, s.frees[th]);
      if s.frees[th].Scan? || s.frees[th].Clear? {
        OwnersStay(s.frees, s'.frees, th);
        if s.frees[th].Clear? { assert s'.frees[th].Pending(); }
      } else {
        CompareLosesNothing(s, th);
      }
  }

  /** Only a pending thread can own a hole. */
  lemma {:induction false} OwnersStay(frees: map<nat, Pc>, frees': map<nat, Pc>, th: nat)
    requires th in frees ==> !frees[th].Pending()
    requires forall u :: u in frees && u != th ==> u in frees' && frees'[u] == frees[u]
    ensures forall k :: HoleOwned(frees, k) ==> HoleOwned(frees', k)
  {
    forall k | HoleOwned(frees, k) ensures HoleOwned(frees', k) {
      var u :| u in frees && frees[u].Pending() && frees[u].j == k;
      assert u in frees' && frees'[u] == frees[u];
    }
  }

  lemma {:induction false} CompareLosesNothing(s: State, th: nat)
    requires Inv(s) && PendingExact(s) && th in s.frees && s.frees[th].Compare?
    ensures PendingExact(Next(s, Advance(th)))
  {
    var s', j := Next(s, Advance(th)), s.frees[th].j;
    forall k | 0 <= k < s.t.insertIdx && k < |s.t.slots| && s.t.slots[k] == 0 ensures HoleOwned(s'.frees, k) {
      var u :| u in s.frees && s.frees[u].Pending() && s.frees[u].j == k;
      if u == th { assert s'.frees[th].Pending(); } else { assert u in s'.frees && s'.frees[u] == s.frees[u]; }
    }
  }

  // ---------------------------------------------------------------------------
  // Over whole runs
  // ---------------------------------------------------------------------------

  /** In every interleaving, pending frees have different slots, and a write that does not
      lower insert_idx leaves a hole that nobody owns below it. */
  lemma {:induction false} RunOrdered(steps: seq<Step>)
    requires Legal(steps)
    ensures WritesOrdered(After(steps))
  {
    if steps != [] {
      var init := steps[..|steps|-1];
      RunInv(init);
      RunOrdered(init);
      NextOrdered(After(init), steps[|steps|-1]);
    }
  }

  /** The step writes insert_idx after another free has lowered it at least as far. */
  predicate StaleWrite(s: State, step: Step)
  {
    step.Advance? && step.thread in s.frees && s.frees[step.thread].Write? && s.t.insertIdx <= s.frees[step.thread].j
  }

  predicate NoStaleWrite(steps: seq<Step>)
  {
    steps != [] ==> NoStaleWrite(steps[..|steps|-1]) && !StaleWrite(After(steps[..|steps|-1]), steps[|steps|-1])
  }

  /** A step keeps every hole below insert_idx owned if and only if it is not such a write. */
  lemma {:induction false} StepExactIff(s: State, step: Step)
    requires Inv(s) && WritesOrdered(s) && PendingExact(s) && Enabled(s, step)
    ensures PendingExact(Next(s, step)) <==> !StaleWrite(s, step)
  {
    if step.Advance? && s.frees[step.thread].Write? {
      StaleWriteLosesHole(s, step.thread);
    } else {
      OtherStepsLoseNothing(s, step);
    }
  }

  /** Most addresses live at the same time, over a whole run. */
  function PeakLive(steps: seq<Step>): nat
  {
    if steps == [] then 0 else Max(PeakLive(steps[..|steps|-1]), |Live(After(steps).t.slots)|)
  }

  /** As many slots have been used as the peak says, and the capacity is in proportion. */
  ghost predicate UsedIsPeak(t: Table, peak: nat)
  {
    Used(t.slots) == peak && |t.slots| <= 1 + Max(1, 2 * peak)
  }

  lemma {:induction false} StoredAtPeak(s: State, a: nat, peak: nat)
    requires Inv(s) && PendingExact(s) && UsedIsPeak(s.t, peak) && Enabled(s, Stored(a))
    ensures var t := Next(s, Stored(a)).t; UsedIsPeak(t, Max(peak, |Live(t.slots)|))
  {
    QuiescentIsExact(s);
    TableStoredAtPeak(s.t, a, peak);
    assert Next(s, Stored(a)).t == StoreIn(s.t, a);
  }

  lemma {:induction false} TableStoredAtPeak(t: Table, a: nat, peak: nat)
    requires Exact(t) && UsedIsPeak(t, peak) && a > INVAL && a !in Live(t.slots)
    ensures t.MaxObj() >= 1 && t.insertIdx <= t.MaxObj()
    ensures UsedIsPeak(StoreIn(t, a), Max(peak, |Live(StoreIn(t, a).slots)|))
  {
    StoreAtPeak(t, a, peak);
    StoreKeeps(t, a);
  }

  lemma {:induction false} OtherAtPeak(s: State, step: Step, peak: nat)
    requires Inv(s) && UsedIsPeak(s.t, peak) && Enabled(s, step) && !step.Stored?
    ensures var t := Next(s, step).t; UsedIsPeak(t, Max(peak, |Live(t.slots)|))
  {
    NextInv(s, step);
    LiveAgainstUsed(Next(s, step).t.slots);
    if step.Advance? { MoveKeeps(s.t, s.frees[step.thread]); }
  }

  /** Without a stale write, frees may interleave as they like: every hole below insert_idx is
      owned, and none is left there once no free is under way; the first sentinel stands at
      the peak of live objects, and the capacity is at most twice that. */
  lemma {:induction false} NoStaleWriteIsExact(steps: seq<Step>)
    requires Legal(steps) && NoStaleWrite(steps)
    ensures PendingExact(After(steps)) && UsedIsPeak(After(steps).t, PeakLive(steps))
    ensures After(steps).frees == map[] ==> Exact(After(steps).t)
  {
    RunInv(steps);
    if steps == [] {
      EmptySound();
    } else {
      var init, step := steps[..|steps|-1], steps[|steps|-1];
      NoStaleWriteIsExact(init);
      RunInv(init);
      RunOrdered(init);
      StepExactIff(After(init), step);
      if step.Stored? {
        StoredAtPeak(After(init), step.addr, PeakLive(init));
      } else {
        OtherAtPeak(After(init), step, PeakLive(init));
      }
    }
    if After(steps).frees == map[] { QuiescentIsExact(After(steps)); }
  }

  /** The first stale write of a run leaves a hole that nobody owns. */
  lemma {:induction false} FirstStaleWriteLosesHole(steps: seq<Step>, step: Step)
    requires Legal(steps) && NoStaleWrite(steps) && Enabled(After(steps), step)
    ensures PendingExact(Next(After(steps), step)) <==> !StaleWrite(After(steps), step)
  {
    RunInv(steps);
    RunOrdered(steps);
    NoStaleWriteIsExact(steps);
    StepExactIff(After(steps), step);
  }

  /** In any run, stale writes or not, the peak is at most what has been used. */
  lemma {:induction false} PeakWithinUsed(steps: seq<Step>)
    requires Legal(steps)
    ensures PeakLive(steps) <= Used(After(steps).t.slots)
  {
    RunInv(steps);
    LiveAgainstUsed(After(steps).t.slots);
    if steps != [] {
      var init := steps[..|steps|-1];
      PeakWithinUsed(init);
      RunInv(init);
      UsedGrows(After(init), steps[|steps|-1]);
    }
  }

  lemma {:induction false} UsedGrows(s: State, step: Step)
    requires Inv(s) && Enabled(s, step)
    ensures Used(s.t.slots) <= Used(Next(s, step).t.slots)
  {
    if step.Stored? { StoreKeeps(s.t, step.addr); }
    if step.Advance? { MoveKeeps(s.t, s.frees[step.thread]); }
  }

  // ---------------------------------------------------------------------------
  // A run with a stale write
  // ---------------------------------------------------------------------------

  lemma {:induction false} Extend(steps: seq<Step>, step: Step, s: State)
    requires Legal(steps) && Enabled(After(steps), step) && Next(After(steps), step) == s
    ensures Legal(steps + [step]) && After(steps + [step]) == s
  {
    assert (steps + [step])[..|steps|] == steps;
  }

  /** A step of one thread that stays inside its free. */
  lemma {:induction false} Moves(steps: seq<Step>, th: nat, t: Table, pc: Pc)
    requires Legal(steps) && th in After(steps).frees
    requires Moved(After(steps).t, After(steps).frees[th]) == (t, At(pc))
    ensures var s := After(steps);
      Legal(steps + [Advance(th)]) && After(steps + [Advance(th)]) == State(t, s.frees[th := pc], s.missed)
  {
    var s := After(steps);
    Extend(steps, Advance(th), State(t, s.frees[th := pc], s.missed));
  }

  lemma {:induction false} Stores(steps: seq<Step>, addr: nat, j: nat)
    requires Legal(steps) && After(steps).frees == map[] && Sound(After(steps).t)
    requires addr > INVAL && addr !in After(steps).t.slots
    requires var g := Grown(After(steps).t);
      && g.insertIdx <= j < g.MaxObj() && g.slots[j] <= INVAL
      && forall k :: g.insertIdx <= k < j ==> g.slots[k] > INVAL
    ensures Legal(steps + [Stored(addr)])
    ensures var s := After(steps); After(steps + [Stored(addr)]) == s.(t := Table(Grown(s.t).slots[j := addr], j))
  {
    var s := After(steps);
    LiveElements(s.t.slots);
    Extend(steps, Stored(addr), s.(t := Table(Grown(s.t).slots[j := addr], j)));
  }

  lemma {:induction false} OneStored() returns (steps: seq<Step>)
    ensures Legal(steps) && After(steps) == State(Table([10, 1], 0), map[], {})
  {
    steps := [];
    Stores(steps, 10, 0);
    steps := steps + [Stored(10)];
  }

  lemma {:induction false} TwoStored() returns (steps: seq<Step>)
    ensures Legal(steps) && After(steps) == State(Table([10, 20, 1], 1), map[], {})
  {
    steps := OneStored();
    assert [10, 1] + Sentinels(1) == [10, 1, 1];
    RunInv(steps);
    Stores(steps, 20, 1);
    steps := steps + [Stored(20)];
  }

  lemma {:induction false} ThreeStored() returns (steps: seq<Step>)
    ensures Legal(steps) && After(steps) == State(Table([10, 20, 30, 1, 1], 2), map[], {})
  {
    steps := TwoStored();
    assert [10, 20, 1] + Sentinels(2) == [10, 20, 1, 1, 1];
    RunInv(steps);
    Stores(steps, 30, 2);
    steps := steps + [Stored(30)];
  }

  /** A scan goes on to slot j. */
  lemma {:induction false} Scans(steps: seq<Step>, th: nat, addr: nat, i: nat, j: nat) returns (r: seq<Step>)
    requires Legal(steps) && th in After(steps).frees && After(steps).frees[th] == Scan(addr, i)
    requires i <= j < |After(steps).t.slots|
    requires forall k :: i <= k < j ==> After(steps).t.slots[k] != addr && After(steps).t.slots[k] != INVAL
    ensures var s := After(steps); Legal(r) && After(r) == s.(frees := s.frees[th := Scan(addr, j)])
    decreases j - i
  {
    var s := After(steps);
    if i == j {
      assert s.frees[th := Scan(addr, j)] == s.frees;
      r := steps;
    } else {
      Moves(steps, th, s.t, Scan(addr, i + 1));
      r := Scans(steps + [Advance(th)], th, addr, i + 1, j);
    }
  }

  /** A thread clears slot j and is about to compare. */
  lemma {:induction false} Clears(steps: seq<Step>, th: nat, addr: nat, j: nat) returns (r: seq<Step>)
    requires Legal(steps) && th in After(steps).frees && After(steps).frees[th] == Scan(addr, j)
    requires addr > INVAL && j < |After(steps).t.slots| && After(steps).t.slots[j] == addr
    ensures
      var s := After(steps);
      Legal(r) && After(r) == State(s.t.(slots := s.t.slots[j := 0]), s.frees[th := Compare(addr, j)], s.missed)
  {
    var s := After(steps);
    Moves(steps, th, s.t, Clear(addr, j));
    r := steps + [Advance(th)];
    Moves(r, th, s.t.(slots := s.t.slots[j := 0]), Compare(addr, j));
    r := r + [Advance(th)];
  }

  /** A thread frees the address of slot j up to the point where it is about to write j. */
  lemma {:induction false} FreesUpToWrite(steps: seq<Step>, th: nat, addr: nat, j: nat) returns (r: seq<Step>)
    requires Legal(steps) && Enabled(After(steps), Begin(th, addr))
    requires j < |After(steps).t.slots| && After(steps).t.slots[j] == addr && j < After(steps).t.insertIdx
    requires forall k :: 0 <= k < j ==> After(steps).t.slots[k] != addr && After(steps).t.slots[k] != INVAL
    ensures
      var s := After(steps);
      Legal(r) && After(r) == State(s.t.(slots := s.t.slots[j := 0]), s.frees[th := Write(addr, j)], s.missed)
  {
    var s := After(steps);
    Extend(steps, Begin(th, addr), s.(frees := s.frees[th := Scan(addr, 0)]));
    r := Scans(steps + [Begin(th, addr)], th, addr, 0, j);
    r := Clears(r, th, addr, j);
    Moves(r, th, After(r).t, Write(addr, j));
    r := r + [Advance(th)];
  }

  /** The last step of a free. */
  lemma {:induction false} Leaves(steps: seq<Step>, th: nat, t: Table, others: map<nat, Pc>)
    requires Legal(steps) && th in After(steps).frees && After(steps).frees - {th} == others
    requires Moved(After(steps).t, After(steps).frees[th]) == (t, Left)
    requires After(steps).frees[th].Scan? ==> After(steps).frees[th].addr !in Live(After(steps).t.slots)
    ensures Legal(steps + [Advance(th)]) && After(steps + [Advance(th)]) == State(t, others, After(steps).missed)
  {
    Extend(steps, Advance(th), State(t, others, After(steps).missed));
  }

  lemma {:induction false} WithoutAgain(m: map<nat, Pc>, th: nat, pc: Pc)
    requires th !in m
    ensures m[th := pc] - {th} == m
  {}

  /** A free that no other thread steps in between does what the serialised one does, whatever
      else is under way. */
  lemma {:induction false} UndisturbedFree(steps: seq<Step>, th: nat, addr: nat) returns (r: seq<Step>)
    requires Legal(steps) && Enabled(After(steps), Begin(th, addr))
    ensures var s := After(steps); Legal(r) && After(r) == State(FreeIn(s.t, addr), s.frees, s.missed)
  {
    var s := After(steps);
    RunInv(steps);
    var j := Find(s.t.slots, addr);
    Extend(steps, Begin(th, addr), s.(frees := s.frees[th := Scan(addr, 0)]));
    r := Scans(steps + [Begin(th, addr)], th, addr, 0, j);
    ScannedTo(s, th, addr, j);
    if j < Used(s.t.slots) {
      r := ClearAndLeave(r, th, addr, j, s);
    } else {
      r := GiveUp(r, th, addr, j, s);
    }
  }

  lemma {:induction false} ScannedTo(s: State, th: nat, addr: nat, j: nat)
    ensures s.frees[th := Scan(addr, 0)][th := Scan(addr, j)] == s.frees[th := Scan(addr, j)]
  {}

  lemma {:induction false} GiveUp(steps: seq<Step>, th: nat, addr: nat, j: nat, s: State) returns (r: seq<Step>)
    requires Legal(steps) && th !in s.frees && After(steps) == s.(frees := s.frees[th := Scan(addr, j)])
    requires Sound(s.t) && addr > INVAL && j == Find(s.t.slots, addr) == Used(s.t.slots)
    ensures Legal(r) && After(r) == State(FreeIn(s.t, addr), s.frees, s.missed)
  {
    if addr in Live(s.t.slots) { FindsLive(s.t.slots, addr); }
    WithoutAgain(s.frees, th, Scan(addr, j));
    Leaves(steps, th, s.t, s.frees);
    r := steps + [Advance(th)];
  }

  lemma {:induction false} ClearAndLeave(steps: seq<Step>, th: nat, addr: nat, j: nat, s: State) returns (r: seq<Step>)
    requires Legal(steps) && th !in s.frees && After(steps) == s.(frees := s.frees[th := Scan(addr, j)])
    requires addr > INVAL && j == Find(s.t.slots, addr) < Used(s.t.slots)
    ensures Legal(r) && After(r) == State(FreeIn(s.t, addr), s.frees, s.missed)
  {
    r := Clears(steps, th, addr, j);
    var t := After(r).t;
    if j < t.insertIdx {
      Moves(r, th, t, Write(addr, j));
      r := r + [Advance(th)];
      WithoutAgain(s.frees, th, Write(addr, j));
      Leaves(r, th, t.(insertIdx := j), s.frees);
    } else {
      WithoutAgain(s.frees, th, Compare(addr, j));
      Leaves(r, th, t, s.frees);
    }
    r := r + [Advance(th)];
  }

  /** Thread 1 frees 20 up to the point where it is about to write its index. */
  lemma {:induction false} FirstFreeWaits() returns (steps: seq<Step>)
    ensures Legal(steps) && After(steps) == State(Table([10, 0, 30, 1, 1], 2), map[1 := Write(20, 1)], {})
  {
    steps := ThreeStored();
    assert [10, 20, 30, 1, 1][1 := 0] == [10, 0, 30, 1, 1];
    steps := FreesUpToWrite(steps, 1, 20, 1);
  }

  /** Thread 2 frees 10 up to the same point. */
  lemma {:induction false} SecondFreeWaits() returns (steps: seq<Step>)
    ensures Legal(steps)
    ensures After(steps) == State(Table([0, 0, 30, 1, 1], 2), map[1 := Write(20, 1), 2 := Write(10, 0)], {})
  {
    steps := FirstFreeWaits();
    assert [10, 0, 30, 1, 1][0 := 0] == [0, 0, 30, 1, 1];
    steps := FreesUpToWrite(steps, 2, 10, 0);
  }

  /** The lower index is written first, the higher one over it. */
  lemma {:induction false} BothFreed() returns (steps: seq<Step>)
    ensures Legal(steps) && After(steps) == State(Table([0, 0, 30, 1, 1], 1), map[], {})
  {
    steps := SecondFreeWaits();
    var m := After(steps).frees;
    Extend(steps, Advance(2), State(Table([0, 0, 30, 1, 1], 0), m - {2}, {}));
    steps := steps + [Advance(2)];
    Extend(steps, Advance(1), State(Table([0, 0, 30, 1, 1], 1), m - {2} - {1}, {}));
    steps := steps + [Advance(1)];
    assert m - {2} - {1} == map[];
  }

  lemma {:induction false} HoleSkipped() returns (steps: seq<Step>)
    ensures Legal(steps) && After(steps) == State(Table([0, 40, 30, 1, 1], 1), map[], {})
  {
    steps := BothFreed();
    RunInv(steps);
    Stores(steps, 40, 1);
    steps := steps + [Stored(40)];
  }

  lemma {:induction false} NewSlotTaken() returns (steps: seq<Step>)
    ensures Legal(steps) && After(steps) == State(Table([0, 40, 30, 50, 1], 3), map[], {}) && PeakLive(steps) <= 3
  {
    steps := PeakOfThree();
    RunInv(steps);
    assert Grown(Table([0, 40, 30, 1, 1], 1)) == Table([0, 40, 30, 1, 1], 1);
    Stores(steps, 50, 3);
    assert [0, 40, 30, 1, 1][3 := 50] == [0, 40, 30, 50, 1];
    LiveOfLast();
    PeakOneMore(steps, Stored(50));
    steps := steps + [Stored(50)];
  }

  lemma {:induction false} PeakOfThree() returns (steps: seq<Step>)
    ensures Legal(steps) && After(steps) == State(Table([0, 40, 30, 1, 1], 1), map[], {}) && PeakLive(steps) <= 3
  {
    steps := HoleSkipped();
    RunInv(steps);
    PeakWithinUsed(steps);
    UsedIs([0, 40, 30, 1, 1], 3);
  }

  lemma {:induction false} PeakOneMore(steps: seq<Step>, step: Step)
    ensures PeakLive(steps + [step]) == Max(PeakLive(steps), |Live(After(steps + [step]).t.slots)|)
  {
    assert (steps + [step])[..|steps|] == steps;
  }

  lemma {:induction false} LiveOfLast()
    ensures Live([0, 40, 30, 50, 1]) == {30, 40, 50} && |Live([0, 40, 30, 50, 1])| == 3
  {
    LiveElements([0, 40, 30, 50, 1]);
  }

  /** Two frees of neighbours can leave insert_idx above a hole; the table then uses four slots
      although never more than three objects were live at a time. */
  lemma {:induction false} InterleavingLosesHole() returns (steps: seq<Step>)
    ensures Legal(steps) && !Exact(After(steps).t)
    ensures PeakLive(steps) <= 3 && Used(After(steps).t.slots) == 4
  {
    steps := NewSlotTaken();
    assert After(steps).t.slots[0] == 0;
    UsedIs([0, 40, 30, 50, 1], 4);
  }
}
