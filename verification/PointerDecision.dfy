/** The decision process_ptrmem() (src/ugtrain.cpp) takes, as the policy of a trainer: the run
    over an object follows its pointers as their histories say, and needs nothing of the places
    they do not lead to. */
module PointerDecision {
  import opened Common
  import opened WriteBack
  import opened CacheCycle
  import opened PointerTarget
  import opened ObjectCycle
  import F = PtrFollow
  import M = MemMgmt

  /** A pointer, by its element, of an object, by its number. */
  type Key = (nat, nat)

  /** State of the trainer: the object being processed, what is remembered of each pointer (by
      its element) for each object, and everything else. */
  datatype Known<R> = Known(idx: nat, rows: map<Key, F.Row>, rest: R)
  {
    function Key(s: Slot): Key { (s.element, idx) }

    function RowAt(k: Key): F.Row { if k in rows then rows[k] else F.Row(M.Init, 0, 0) }

    function RowOf(s: Slot): F.Row { RowAt(Key(s)) }

    function With(s: Slot, r: F.Row): Known<R> { this.(rows := rows[Key(s) := r]) }
  }

  /** What is decided elsewhere; `once` tells the pointers to be followed once, `toPtr` reads an
      address from bytes. */
  datatype Rest<!R> = Rest(
    select: (R, nat) -> R,
    observe: (Known<R>, Slot, seq<byte>) -> R,
    check: (Known<R>, Check, seq<byte>) -> Verdict,
    wish: (Known<R>, Slot, seq<byte>) -> Option<seq<byte>>,
    wrote: (Known<R>, Slot) -> R,
    once: nat -> bool,
    toPtr: seq<byte> -> nat)

  function Passing<R>(d: Rest<R>, buf: seq<byte>): F.Visit { F.Visit(d.toPtr(buf), F.Pass) }

  /** A pointer is followed when it is the one remembered, is not null and is not done with. */
  function CodePolicy<R>(d: Rest<R>): Policy<Known<R>>
  {
    Policy(
      (k: Known<R>, i: nat) => k.(idx := i, rest := d.select(k.rest, i)),
      (k: Known<R>, s: Slot, buf: seq<byte>) => k.(rest := d.observe(k, s, buf)),
      d.check,
      d.wish,
      (k: Known<R>, s: Slot) => k.(rest := d.wrote(k, s)),
      (k: Known<R>, s: Slot, buf: seq<byte>) => if F.RowFollows(k.RowOf(s), Passing(d, buf)) then
        Some(d.toPtr(buf)) else None,
      (k: Known<R>, s: Slot, buf: seq<byte>) => k.With(s, F.RowAfter(d.once(s.element), k.RowOf(s), Passing(d, buf))),
      (k: Known<R>, s: Slot, to: nat) => k.With(s, F.RowAfter(d.once(s.element), k.RowOf(s), F.Visit(to, F.Pass))))
  }

  function AnswerOf(r: CheckResult): F.Answer
  {
    match r
    case Passed => F.Pass
    case Failed(kicked) => if kicked then F.Kick else F.Fail
  }

  /** The visit that processing the pointer at `slot` is. */
  function VisitAt<R>(d: Rest<R>, base: nat, slot: Slot, checks: seq<Check>, mem: seq<byte>, st: Known<R>): F.Visit
    requires Readable(base, slot, |mem|)
  {
    F.Visit(d.toPtr(mem[base + slot.addr..base + slot.addr + slot.size]),
      AnswerOf(DirectChecks(CodePolicy(d), base, checks, mem, st)))
  }

  lemma {:induction false} VisitKeepsRows<R>(d: Rest<R>, offs: nat, e: Entry, mem: seq<byte>, st: Known<R>)
    ensures var t := DirectVisit(CodePolicy(d), offs, e, mem, st).st; t.rows == st.rows && t.idx == st.idx
  {}

  lemma {:induction false} TargetKeepsRows<R>(d: Rest<R>, offs: nat, act: seq<Entry>, mem: seq<byte>, st: Known<R>)
    ensures var t := DirectTarget(CodePolicy(d), offs, act, mem, st).st; t.rows == st.rows && t.idx == st.idx
  {
    if act != [] { TargetKeepsRows(d, offs, act[..|act|-1], mem, st); }
  }

  /** The pointer leads somewhere exactly when its row says so, to the address just read, which
      is the remembered one; its row takes the visit, all other rows stay. */
  lemma {:induction false} PointerTakesVisit<R>(d: Rest<R>, base: nat, slot: Slot, checks: seq<Check>, act: seq<Entry>,
        mem: seq<byte>, st: Known<R>)
    requires Readable(base, slot, |mem|)
    ensures
      var v, r := VisitAt(d, base, slot, checks, mem, st), st.RowOf(slot);
      var after := DirectPointer(CodePolicy(d), base, slot, checks, act, mem, st).st;
      && Leads(CodePolicy(d), base, slot, checks, mem, st) == (if F.RowFollows(r, v) then Some(v.ptr) else None)
      && (F.RowFollows(r, v) ==> v.ptr == r.oldval != 0)
      && after.idx == st.idx && after.RowOf(slot) == F.RowAfter(d.once(slot.element), r, v)
      && forall k :: k != st.Key(slot) ==> after.RowAt(k) == st.RowAt(k)
  {
    var p, v, r := CodePolicy(d), VisitAt(d, base, slot, checks, mem, st), st.RowOf(slot);
    var buf := mem[base + slot.addr..base + slot.addr + slot.size];
    var after := F.RowAfter(d.once(slot.element), r, v);
    WithAt(st, slot, after);
    AnswerIgnored(d.once(slot.element), r, Passing(d, buf), v);
    if F.RowFollows(r, Passing(d, buf)) {
      assert p.follow(st, slot, buf) == Some(v.ptr);
      if v.answer.Pass? {
        assert p.followed(st, slot, v.ptr) == st.With(slot, after);
        TargetKeepsRows(d, v.ptr, act, mem, st.With(slot, after));
      }
    } else {
      assert p.follow(st, slot, buf) == None && p.noted(st, slot, buf) == st.With(slot, after);
    }
  }

  lemma {:induction false} WithAt<R>(st: Known<R>, s: Slot, r: F.Row)
    ensures st.With(s, r).RowOf(s) == r && st.With(s, r).idx == st.idx
    ensures forall k :: k != st.Key(s) ==> st.With(s, r).RowAt(k) == st.RowAt(k)
  {}

  /** The checks matter only when the pointer is the one remembered. */
  lemma {:induction false} AnswerIgnored(once: bool, r: F.Row, passing: F.Visit, v: F.Visit)
    requires passing == F.Visit(v.ptr, F.Pass)
    ensures F.RowFollows(r, v) <==> F.RowFollows(r, passing) && v.answer.Pass?
    ensures !F.RowFollows(r, passing) ==> F.RowAfter(once, r, v) == F.RowAfter(once, r, passing)
    ensures F.RowFollows(r, passing) && !v.answer.Pass? ==> F.RowAfter(once, r, v) == r
  {}

  // ---------------------------------------------------------------------------
  // Whole runs
  // ---------------------------------------------------------------------------

  /** Every visit there has been, for each pointer of each object. */
  type Hist = map<Key, seq<F.Visit>>

  function HistAt(h: Hist, k: Key): seq<F.Visit> { if k in h then h[k] else [] }

  /** A round of the loop over the values of object number idx that gets to a pointer and can
      read it. */
  predicate Visits<R>(size: nat, n: Node, o: ObjectOutcome<Known<R>>)
  {
    o.addr != 0 && InBounds(n, size) && n.Pointer? && Readable(o.addr, n.slot, |o.mem|)
  }

  function VisitOf<R>(d: Rest<R>, idx: nat, size: nat, n: Node, o: ObjectOutcome<Known<R>>): F.Visit
    requires Visits(size, n, o)
  {
    VisitAt(d, o.addr, n.slot, n.checks, o.mem, CodePolicy(d).select(o.st, idx))
  }

  function RoundHist<R>(d: Rest<R>, idx: nat, size: nat, n: Node, o: ObjectOutcome<Known<R>>, h: Hist): Hist
  {
    if Visits(size, n, o) then
      var k := (n.slot.element, idx);
      h[k := HistAt(h, k) + [VisitOf(d, idx, size, n, o)]]
    else h
  }

  function ObjectHist<R>(d: Rest<R>, idx: nat, size: nat, act: seq<Node>, acts: seq<seq<Entry>>,
        o: ObjectOutcome<Known<R>>, h: Hist): Hist
  {
    if act == [] then h
    else
      var init := act[..|act|-1];
      RoundHist(d, idx, size, act[|act|-1], DirectObject(CodePolicy(d), idx, size, init, acts, o),
        ObjectHist(d, idx, size, init, acts, o, h))
  }

  function ClassHist<R>(d: Rest<R>, n: nat, sizes: seq<nat>, act: seq<Node>, acts: seq<seq<Entry>>,
        c: ClassOutcome<Known<R>>, h: Hist): Hist
    requires n <= |c.addrs| == |sizes|
  {
    if n == 0 then h
    else
      var o := ObjectOf(DirectClass(CodePolicy(d), n - 1, sizes, act, acts, c), n - 1);
      ObjectHist(d, n - 1, sizes[n-1], act, acts, o, ClassHist(d, n - 1, sizes, act, acts, c, h))
  }

  /** What is remembered of every pointer of every object fits its history. */
  ghost predicate AllFit<R>(d: Rest<R>, st: Known<R>, h: Hist)
  {
    forall k: Key :: F.Fits(d.once(k.0), st.RowAt(k), HistAt(h, k))
  }

  lemma {:induction false} RoundFits<R>(d: Rest<R>, idx: nat, size: nat, n: Node, acts: seq<seq<Entry>>,
        o: ObjectOutcome<Known<R>>, h: Hist)
    requires AllFit(d, o.st, h)
    ensures AllFit(d, DirectNode(CodePolicy(d), idx, size, n, acts, o).st, RoundHist(d, idx, size, n, o, h))
  {
    var p := CodePolicy(d);
    var st := p.select(o.st, idx);
    assert AllFit(d, st, h);
    if Visits(size, n, o) {
      var k, v := (n.slot.element, idx), VisitOf(d, idx, size, n, o);
      PointerTakesVisit(d, o.addr, n.slot, n.checks, ActOf(acts, n.target), o.mem, st);
      F.VisitFits(d.once(k.0), st.RowAt(k), HistAt(h, k), v);
    } else if o.addr != 0 && InBounds(n, size) && n.Plain? {
      VisitKeepsRows(d, o.addr, n.entry, o.mem, st);
    }
  }

  lemma {:induction false} ObjectFits<R>(d: Rest<R>, idx: nat, size: nat, act: seq<Node>, acts: seq<seq<Entry>>,
        o: ObjectOutcome<Known<R>>, h: Hist)
    requires AllFit(d, o.st, h)
    ensures
      AllFit(d, DirectObject(CodePolicy(d), idx, size, act, acts, o).st, ObjectHist(d, idx, size, act, acts, o, h))
  {
    if act != [] {
      var init := act[..|act|-1];
      ObjectFits(d, idx, size, init, acts, o, h);
      RoundFits(d, idx, size, act[|act|-1], acts, DirectObject(CodePolicy(d), idx, size, init, acts, o),
        ObjectHist(d, idx, size, init, acts, o, h));
    }
  }

  lemma {:induction false} OneMoreObject<R>(d: Rest<R>, n: nat, sizes: seq<nat>, act: seq<Node>, acts: seq<seq<Entry>>,
        c: ClassOutcome<Known<R>>, h: Hist)
    requires 0 < n <= |c.addrs| == |sizes|
    ensures
      var o := ObjectOf(DirectClass(CodePolicy(d), n - 1, sizes, act, acts, c), n - 1);
      var g := ClassHist(d, n - 1, sizes, act, acts, c, h);
      && DirectClass(CodePolicy(d), n, sizes, act, acts, c).st ==
        DirectObject(CodePolicy(d), n - 1, sizes[n-1], act, acts, o).st
      && ClassHist(d, n, sizes, act, acts, c, h) == ObjectHist(d, n - 1, sizes[n-1], act, acts, o, g)
  {}

  lemma {:induction false} ClassFits<R>(d: Rest<R>, n: nat, sizes: seq<nat>, act: seq<Node>, acts: seq<seq<Entry>>,
        c: ClassOutcome<Known<R>>, h: Hist)
    requires n <= |c.addrs| == |sizes| && AllFit(d, c.st, h)
    ensures AllFit(d, DirectClass(CodePolicy(d), n, sizes, act, acts, c).st, ClassHist(d, n, sizes, act, acts, c, h))
  {
    if n > 0 {
      ClassFits(d, n - 1, sizes, act, acts, c, h);
      OneMoreObject(d, n, sizes, act, acts, c, h);
      var o := ObjectOf(DirectClass(CodePolicy(d), n - 1, sizes, act, acts, c), n - 1);
      ObjectFits(d, n - 1, sizes[n-1], act, acts, o, ClassHist(d, n - 1, sizes, act, acts, c, h));
    }
  }

  /** A cycle over the objects of a class, with memory and everything else as they are then; or
      objects are removed and added: object j is the one that had number from[j], if it had
      one. */
  datatype Event<R> =
    | Cycle(mem: seq<byte>, rest: R, addrs: seq<nat>, sizes: seq<nat>, act: seq<Node>, acts: seq<seq<Entry>>)
    | Renumbered(from: seq<nat>)

  predicate Proper<R>(e: Event<R>) { e.Cycle? ==> |e.addrs| == |e.sizes| }

  function Moved<V>(m: map<Key, V>, from: seq<nat>): map<Key, V>
  {
    var elements := set k | k in m :: k.0;
    map e, j | e in elements && 0 <= j < |from| && (e, from[j]) in m :: (e, j) := m[(e, from[j])]
  }

  /** State and histories. */
  datatype Story<R> = Story(st: Known<R>, hist: Hist)

  /** The cycle as it begins. */
  function Begin<R>(s: Story<R>, e: Event<R>): ClassOutcome<Known<R>>
    requires e.Cycle?
  {
    ClassOutcome(e.mem, s.st.(rest := e.rest), e.addrs)
  }

  function Next<R>(d: Rest<R>, s: Story<R>, e: Event<R>): Story<R>
    requires Proper(e)
  {
    match e
    case Cycle(mem, rest, addrs, sizes, act, acts) =>
      Story(DirectClass(CodePolicy(d), |addrs|, sizes, act, acts, Begin(s, e)).st,
        ClassHist(d, |addrs|, sizes, act, acts, Begin(s, e), s.hist))
    case Renumbered(from) => Story(s.st.(rows := Moved(s.st.rows, from)), Moved(s.hist, from))
  }

  function After<R>(d: Rest<R>, rest: R, run: seq<Event<R>>): Story<R>
    requires forall i :: 0 <= i < |run| ==> Proper(run[i])
  {
    if run == [] then Story(Known(0, map[], rest), map[])
    else Next(d, After(d, rest, run[..|run|-1]), run[|run|-1])
  }

  lemma {:induction false} MovedAt<V>(m: map<Key, V>, from: seq<nat>, k: Key)
    ensures k in Moved(m, from) <==> k.1 < |from| && (k.0, from[k.1]) in m
    ensures k in Moved(m, from) ==> Moved(m, from)[k] == m[(k.0, from[k.1])]
  {
    assert k == (k.0, k.1);
  }

  lemma {:induction false} MovedRowFits<R>(d: Rest<R>, st: Known<R>, h: Hist, from: seq<nat>, k: Key)
    requires AllFit(d, st, h)
    ensures F.Fits(d.once(k.0), st.(rows := Moved(st.rows, from)).RowAt(k), HistAt(Moved(h, from), k))
  {
    MovedAt(st.rows, from, k);
    MovedAt(h, from, k);
    if k.1 < |from| {
      var was := (k.0, from[k.1]);
      assert F.Fits(d.once(was.0), st.RowAt(was), HistAt(h, was));
    }
  }

  lemma {:induction false} MovedFits<R>(d: Rest<R>, st: Known<R>, h: Hist, from: seq<nat>)
    requires AllFit(d, st, h)
    ensures AllFit(d, st.(rows := Moved(st.rows, from)), Moved(h, from))
  {
    forall k: Key ensures F.Fits(d.once(k.0), st.(rows := Moved(st.rows, from)).RowAt(k), HistAt(Moved(h, from), k)) {
      MovedRowFits(d, st, h, from, k);
    }
  }

  /** After any cycles and any removals and additions of objects, all that is remembered fits
      what happened. */
  lemma {:induction false} RunFits<R>(d: Rest<R>, rest: R, run: seq<Event<R>>)
    requires forall i :: 0 <= i < |run| ==> Proper(run[i])
    ensures var s := After(d, rest, run); AllFit(d, s.st, s.hist)
  {
    if run != [] {
      var init, e := run[..|run|-1], run[|run|-1];
      RunFits(d, rest, init);
      var s := After(d, rest, init);
      match e
      case Cycle(mem, other, addrs, sizes, act, acts) =>
        assert AllFit(d, Begin(s, e).st, s.hist);
        ClassFits(d, |addrs|, sizes, act, acts, Begin(s, e), s.hist);
      case Renumbered(from) => MovedFits(d, s.st, s.hist, from);
    }
  }

  /** Where object k and value i of a cycle are reached: state of the object, and histories. */
  function Reached<R>(d: Rest<R>, s: Story<R>, e: Event<R>, k: nat, i: nat): ObjectOutcome<Known<R>>
    requires e.Cycle? && Proper(e) && k < |e.addrs| && i < |e.act|
  {
    DirectObject(CodePolicy(d), k, e.sizes[k], e.act[..i], e.acts,
      ObjectOf(DirectClass(CodePolicy(d), k, e.sizes, e.act, e.acts, Begin(s, e)), k))
  }

  function HistBefore<R>(d: Rest<R>, s: Story<R>, e: Event<R>, k: nat, i: nat): Hist
    requires e.Cycle? && Proper(e) && k < |e.addrs| && i < |e.act|
  {
    ObjectHist(d, k, e.sizes[k], e.act[..i], e.acts,
      ObjectOf(DirectClass(CodePolicy(d), k, e.sizes, e.act, e.acts, Begin(s, e)), k),
      ClassHist(d, k, e.sizes, e.act, e.acts, Begin(s, e), s.hist))
  }

  /** In every cycle of every run, a pointer of an object leads somewhere exactly when its
      history up to there says that it is followed, and then to the address just read. */
  lemma {:induction false} LeadsAsHistorySays<R>(d: Rest<R>, rest: R, run: seq<Event<R>>, e: Event<R>, k: nat, i: nat)
    requires (forall j :: 0 <= j < |run| ==> Proper(run[j])) && e.Cycle? && Proper(e) && k < |e.addrs| && i < |e.act|
    requires Visits(e.sizes[k], e.act[i], Reached(d, After(d, rest, run), e, k, i))
    ensures
      var s, n := After(d, rest, run), e.act[i];
      var o, h := Reached(d, s, e, k, i), HistAt(HistBefore(d, s, e, k, i), (n.slot.element, k));
      var v := VisitOf(d, k, e.sizes[k], n, o);
      Leads(CodePolicy(d), o.addr, n.slot, n.checks, o.mem, CodePolicy(d).select(o.st, k)) ==
        if F.Follows(d.once(n.slot.element), h, v) then Some(v.ptr) else None
  {
    var s, n := After(d, rest, run), e.act[i];
    var c := Begin(s, e);
    RunFits(d, rest, run);
    assert AllFit(d, c.st, s.hist);
    ClassFits(d, k, e.sizes, e.act, e.acts, c, s.hist);
    var q := ObjectOf(DirectClass(CodePolicy(d), k, e.sizes, e.act, e.acts, c), k);
    ObjectFits(d, k, e.sizes[k], e.act[..i], e.acts, q, ClassHist(d, k, e.sizes, e.act, e.acts, c, s.hist));
    VisitDecides(d, k, e.sizes[k], n, e.acts, Reached(d, s, e, k, i), HistBefore(d, s, e, k, i));
  }

  lemma {:induction false} VisitDecides<R>(d: Rest<R>, idx: nat, size: nat, n: Node, acts: seq<seq<Entry>>,
        o: ObjectOutcome<Known<R>>, h: Hist)
    requires AllFit(d, o.st, h) && Visits(size, n, o)
    ensures
      var v := VisitOf(d, idx, size, n, o);
      Leads(CodePolicy(d), o.addr, n.slot, n.checks, o.mem, CodePolicy(d).select(o.st, idx)) ==
        if F.Follows(d.once(n.slot.element), HistAt(h, (n.slot.element, idx)), v) then Some(v.ptr) else None
  {
    var st, k := CodePolicy(d).select(o.st, idx), (n.slot.element, idx);
    assert st.RowAt(k) == o.st.RowAt(k);
    PointerTakesVisit(d, o.addr, n.slot, n.checks, ActOf(acts, n.target), o.mem, st);
    F.VisitFits(d.once(k.0), st.RowAt(k), HistAt(h, k), VisitOf(d, idx, size, n, o));
  }

  /** All that processing a pointer asks of its target: if the address just read is the one
      remembered, the target can be processed there. */
  lemma {:induction false} OnlyRememberedPlace<R>(d: Rest<R>, l: Layout, base: nat, slot: Slot, checks: seq<Check>,
        k: nat, acts: seq<seq<Entry>>, mem: seq<byte>, st: Known<R>)
    requires SlotUsable(l.ws, l.chunk, base, slot, |mem|) && ChecksUsable(l.ws, l.chunk, base, checks, |mem|) &&
      k < |acts|
    requires
      var r := st.RowOf(slot);
      Readable(base, slot, |mem|) && F.RowFollows(r, VisitAt(d, base, slot, checks, mem, st)) ==>
        PlaceUsable(l, base, k, acts[k], r.oldval, |mem|)
    ensures NodeUsable(CodePolicy(d), l, base, Pointer(slot, checks, k), acts, mem, st)
  {
    if Readable(base, slot, |mem|) { PointerTakesVisit(d, base, slot, checks, acts[k], mem, st); }
  }
}
