/** The chunk cache (src/ugtrain.cpp): filling windows, checking and changing values in them,
    and writing them back, proved to have the effect of reading and writing every value
    directly in target memory. */
module CacheCycle {
  import opened Common
  import opened WriteBack

  // ---------------------------------------------------------------------------
  // What is processed
  // ---------------------------------------------------------------------------

  /** A cached location: offset within the object, size in bytes, its window, and the
      index of its first byte in the window. */
  datatype Slot = Slot(addr: nat, size: nat, window: nat, pos: nat, element: nat)

  /** A check reads cached memory, or something outside target memory (another value, the
      object number).  A failing object check removes the object. */
  datatype Check = OnMemory(slot: Slot, isObjcheck: bool) | OffMemory(element: nat, isObjcheck: bool)

  /** What a check says; Unavailable when what it looks at cannot be had (yet). */
  datatype Verdict = Satisfied | Violated | Unavailable

  datatype Entry = Entry(slot: Slot, watch: bool, checks: seq<Check>)

  /** What the trainer does with the values it reads; arbitrary functions of its own state
      and of the bytes read.  `wish` yields the value to write, if any; `follow` the address a
      pointer is to be followed to, if it is, and `noted` and `followed` what is remembered of
      it then. */
  datatype Policy<!S> = Policy(
    select: (S, nat) -> S,
    observe: (S, Slot, seq<byte>) -> S,
    check: (S, Check, seq<byte>) -> Verdict,
    wish: (S, Slot, seq<byte>) -> Option<seq<byte>>,
    wrote: (S, Slot) -> S,
    follow: (S, Slot, seq<byte>) -> Option<nat>,
    noted: (S, Slot, seq<byte>) -> S,
    followed: (S, Slot, nat) -> S)

  /** The value as it is copied into memory: cut to the width of its type. */
  function Cut(v: seq<byte>, size: nat): (r: seq<byte>)
    ensures |r| <= size
  {
    if |v| <= size then v else v[..size]
  }

  // ---------------------------------------------------------------------------
  // Reference: every access goes directly to target memory
  // ---------------------------------------------------------------------------

  predicate Readable(base: nat, s: Slot, top: nat) { base + s.addr + s.size <= top }

  datatype CheckResult = Passed | Failed(kicked: bool)

  /** A check of memory that cannot be read is not available. */
  function DirectCheck<S>(p: Policy<S>, base: nat, c: Check, mem: seq<byte>, st: S): Verdict
  {
    if c.OffMemory? then p.check(st, c, [])
    else if !Readable(base, c.slot, |mem|) then Unavailable
    else p.check(st, c, mem[base + c.slot.addr..base + c.slot.addr + c.slot.size])
  }

  /** What the first check that does not hold means: only an object check that fails, rather
      than being unavailable, removes the object. */
  function ResultOf(c: Check, v: Verdict): CheckResult
  {
    match v
    case Satisfied => Passed
    case Violated => Failed(c.isObjcheck)
    case Unavailable => Failed(false)
  }

  function DirectChecks<S>(p: Policy<S>, base: nat, checks: seq<Check>, mem: seq<byte>, st: S): CheckResult
  {
    if checks == [] then Passed
    else
      var r := ResultOf(checks[0], DirectCheck(p, base, checks[0], mem, st));
      if r.Passed? then DirectChecks(p, base, checks[1..], mem, st) else r
  }

  // ---------------------------------------------------------------------------
  // Which checks hold, in terms of the trainer's own verdicts
  // ---------------------------------------------------------------------------

  /** The trainer's verdict on what check c finds in memory. */
  ghost predicate Says<S>(p: Policy<S>, base: nat, c: Check, mem: seq<byte>, st: S, v: Verdict)
  {
    || (c.OffMemory? && p.check(st, c, []) == v)
    || (c.OnMemory? && base + c.slot.addr + c.slot.size > |mem| && v == Unavailable)
    || (c.OnMemory? && base + c.slot.addr + c.slot.size <= |mem| &&
        p.check(st, c, mem[base + c.slot.addr..base + c.slot.addr + c.slot.size]) == v)
  }

  /** The first n checks are satisfied. */
  ghost predicate Satisfy<S>(p: Policy<S>, base: nat, checks: seq<Check>, n: nat, mem: seq<byte>, st: S)
    requires n <= |checks|
  {
    forall i :: 0 <= i < n ==> Says(p, base, checks[i], mem, st, Satisfied)
  }

  /** Check i is an object check, and the first one that is not satisfied: it is violated. */
  ghost predicate RemovesAt<S>(p: Policy<S>, base: nat, checks: seq<Check>, i: nat, mem: seq<byte>, st: S)
  {
    i < |checks| && checks[i].isObjcheck && Says(p, base, checks[i], mem, st, Violated) &&
      Satisfy(p, base, checks, i, mem, st)
  }

  ghost predicate Removes<S>(p: Policy<S>, base: nat, checks: seq<Check>, mem: seq<byte>, st: S)
  {
    exists i: nat :: RemovesAt(p, base, checks, i, mem, st)
  }

  lemma {:induction false} SatisfyFirst<S>(p: Policy<S>, base: nat, checks: seq<Check>, n: nat, mem: seq<byte>, st: S)
    requires 0 < n <= |checks|
    ensures Satisfy(p, base, checks, n, mem, st) <==>
      Says(p, base, checks[0], mem, st, Satisfied) && Satisfy(p, base, checks[1..], n - 1, mem, st)
  {
    if Satisfy(p, base, checks, n, mem, st) {
      forall i | 0 <= i < n - 1 ensures Says(p, base, checks[1..][i], mem, st, Satisfied) {
        assert checks[1..][i] == checks[i + 1];
      }
    }
    if Says(p, base, checks[0], mem, st, Satisfied) && Satisfy(p, base, checks[1..], n - 1, mem, st) {
      forall i | 0 <= i < n ensures Says(p, base, checks[i], mem, st, Satisfied) {
        if i > 0 { assert checks[1..][i - 1] == checks[i]; }
      }
    }
  }

  lemma {:induction false} RemovesFirst<S>(p: Policy<S>, base: nat, checks: seq<Check>, mem: seq<byte>, st: S)
    requires checks != []
    ensures Removes(p, base, checks, mem, st) <==>
      || (checks[0].isObjcheck && Says(p, base, checks[0], mem, st, Violated))
      || (Says(p, base, checks[0], mem, st, Satisfied) && Removes(p, base, checks[1..], mem, st))
  {
    if i: nat :| RemovesAt(p, base, checks, i, mem, st) {
      if i > 0 {
        SatisfyFirst(p, base, checks, i, mem, st);
        assert RemovesAt(p, base, checks[1..], i - 1, mem, st);
      }
    }
    if checks[0].isObjcheck && Says(p, base, checks[0], mem, st, Violated) {
      assert RemovesAt(p, base, checks, 0, mem, st);
    }
    if Says(p, base, checks[0], mem, st, Satisfied) && Removes(p, base, checks[1..], mem, st) {
      var i: nat :| RemovesAt(p, base, checks[1..], i, mem, st);
      SatisfyFirst(p, base, checks, i + 1, mem, st);
      assert RemovesAt(p, base, checks, i + 1, mem, st);
    }
  }

  /** The checks pass exactly when all are satisfied, and remove the object exactly when the
      first one that is not satisfied is an object check and is violated. */
  lemma {:induction false} ChecksMean<S>(p: Policy<S>, base: nat, checks: seq<Check>, mem: seq<byte>, st: S)
    ensures
      var r := DirectChecks(p, base, checks, mem, st);
      && (r.Passed? <==> Satisfy(p, base, checks, |checks|, mem, st))
      && (r == Failed(true) <==> Removes(p, base, checks, mem, st))
  {
    if checks != [] {
      ChecksMean(p, base, checks[1..], mem, st);
      SatisfyFirst(p, base, checks, |checks|, mem, st);
      RemovesFirst(p, base, checks, mem, st);
      FirstSays(p, base, checks[0], mem, st);
    }
  }

  lemma {:induction false} FirstSays<S>(p: Policy<S>, base: nat, c: Check, mem: seq<byte>, st: S)
    ensures
      var r := ResultOf(c, DirectCheck(p, base, c, mem, st));
      && (r.Passed? <==> Says(p, base, c, mem, st, Satisfied))
      && (r == Failed(true) <==> c.isObjcheck && Says(p, base, c, mem, st, Violated))
      && !(Says(p, base, c, mem, st, Satisfied) && Says(p, base, c, mem, st, Violated))
  {}

  datatype Outcome<S> = Outcome(mem: seq<byte>, st: S, kicked: bool)

  /** Runs the checks of an entry whose bytes are `buf`, and writes the wished value if all
      of them pass. */
  function DirectChange<S>(p: Policy<S>, base: nat, e: Entry, buf: seq<byte>, mem: seq<byte>, st: S): (r: Outcome<S>)
    requires Readable(base, e.slot, |mem|)
    ensures |r.mem| == |mem|
  {
    if e.watch then Outcome(mem, st, false)
    else match DirectChecks(p, base, e.checks, mem, st)
      case Failed(kicked) => Outcome(mem, st, kicked)
      case Passed =>
        match p.wish(st, e.slot, buf)
        case None => Outcome(mem, st, false)
        case Some(v) => Outcome(Patch(mem, base + e.slot.addr, Cut(v, e.slot.size)), p.wrote(st, e.slot), false)
  }

  /** Reads the entry and processes it; one that cannot be read is skipped. */
  function DirectVisit<S>(p: Policy<S>, base: nat, e: Entry, mem: seq<byte>, st: S): (r: Outcome<S>)
    ensures |r.mem| == |mem|
  {
    if !Readable(base, e.slot, |mem|) then Outcome(mem, st, false)
    else
      var buf := mem[base + e.slot.addr..base + e.slot.addr + e.slot.size];
      DirectChange(p, base, e, buf, mem, p.observe(st, e.slot, buf))
  }

  /** What processing the entry did, given what it has read: the object is removed exactly when
      an object check says so, and the wish is written, over the bytes of the value and no
      others, exactly when the entry is not only watched and all checks are satisfied. */
  ghost predicate Altered<S>(p: Policy<S>, base: nat, e: Entry, buf: seq<byte>, mem: seq<byte>, st: S, v: Outcome<S>)
  {
    var wish := p.wish(st, e.slot, buf);
    var writes := !e.watch && wish.Some? && Satisfy(p, base, e.checks, |e.checks|, mem, st);
    && (v.kicked <==> !e.watch && Removes(p, base, e.checks, mem, st))
    && v.st == (if writes then p.wrote(st, e.slot) else st)
    && |v.mem| == |mem|
    && forall a :: 0 <= a < |mem| ==>
         var i := a - base - e.slot.addr;
         v.mem[a] == if writes && 0 <= i < e.slot.size && i < |wish.value| then wish.value[i] else mem[a]
  }

  lemma {:induction false} ChangeMeans<S>(p: Policy<S>, base: nat, e: Entry, buf: seq<byte>, mem: seq<byte>, st: S)
    requires base + e.slot.addr + e.slot.size <= |mem|
    ensures Altered(p, base, e, buf, mem, st, DirectChange(p, base, e, buf, mem, st))
  {
    ChecksMean(p, base, e.checks, mem, st);
  }

  /** The same from memory on: a value that cannot be read is skipped, any other is seen before
      its checks are run. */
  ghost predicate Visited<S>(p: Policy<S>, base: nat, e: Entry, mem: seq<byte>, st: S, v: Outcome<S>)
  {
    if base + e.slot.addr + e.slot.size > |mem| then v == Outcome(mem, st, false)
    else
      var buf := mem[base + e.slot.addr..base + e.slot.addr + e.slot.size];
      Altered(p, base, e, buf, mem, p.observe(st, e.slot, buf), v)
  }

  lemma {:induction false} VisitMeans<S>(p: Policy<S>, base: nat, e: Entry, mem: seq<byte>, st: S)
    ensures Visited(p, base, e, mem, st, DirectVisit(p, base, e, mem, st))
  {
    if base + e.slot.addr + e.slot.size <= |mem| {
      var buf := mem[base + e.slot.addr..base + e.slot.addr + e.slot.size];
      ChangeMeans(p, base, e, buf, mem, p.observe(st, e.slot, buf));
    }
  }

  // ---------------------------------------------------------------------------
  // The cache
  // ---------------------------------------------------------------------------

  class CacheEntry {
    var offs: nat           // offset within the object
    var start: Option<nat>  // target address read from, None when invalid
    var isDirty: bool       // writing back required?
    const data: array<byte>

    /** init_cache() */
    constructor (chunk: nat, addr: nat)
      ensures offs == addr && start == None && !isDirty
      ensures fresh(data) && data.Length == chunk
    {
      offs, start, isDirty := addr, None, false;
      data := new byte[chunk](_ => 0);
    }

    ghost function Value(): Window
      reads this, data
    {
      Window(offs, start, data[..], isDirty)
    }
  }

  ghost function Values(caches: seq<CacheEntry>): (r: seq<Window>)
    reads caches, set k | 0 <= k < |caches| :: caches[k].data
    ensures |r| == |caches| && forall k :: 0 <= k < |caches| ==> r[k] == caches[k].Value()
  {
    if caches == [] then [] else [caches[0].Value()] + Values(caches[1..])
  }

  class CacheList {
    const chunk: nat
    const caches: seq<CacheEntry>
    ghost const Repr: set<object>
    ghost var ws: seq<Window>

    ghost predicate Valid()
      reads this, Repr
    {
      && this in Repr && |ws| == |caches|
      && (forall k {:trigger caches[k]} :: 0 <= k < |caches| ==>
           && caches[k] in Repr && caches[k].data in Repr && caches[k].data.Length == chunk
           && ws[k] == caches[k].Value())
      && (forall j, k :: 0 <= j < k < |caches| ==> caches[j] != caches[k] && caches[j].data != caches[k].data)
    }

    constructor (chunk: nat, caches: seq<CacheEntry>)
      requires forall k :: 0 <= k < |caches| ==> caches[k].data.Length == chunk
      requires forall j, k :: 0 <= j < k < |caches| ==> caches[j] != caches[k] && caches[j].data != caches[k].data
      ensures Valid() && this.chunk == chunk && this.caches == caches
      ensures |ws| == |caches| && forall k :: 0 <= k < |caches| ==> ws[k] == caches[k].Value()
      ensures forall o :: o in Repr ==>
        o == this || exists k :: 0 <= k < |caches| && (o == caches[k] || o == caches[k].data)
    {
      this.chunk, this.caches := chunk, caches;
      ghost var objs: set<object> := set k | 0 <= k < |caches| :: caches[k];
      ghost var arrs: set<object> := set k | 0 <= k < |caches| :: caches[k].data;
      this.Repr := {this} + objs + arrs;
      this.ws := Values(caches);
    }

    /** Target memory as direct accesses would have left it. */
    ghost function Direct(mem: seq<byte>): seq<byte>
      reads this
    {
      Flush(ws, mem, |ws|)
    }

    /** Reads a whole window from target memory. */
    method Load(k: nat, mem: seq<byte>, at: nat)
      requires Valid() && k < |caches| && at + chunk <= |mem|
      modifies Repr
      ensures Valid() && ws == old(ws)[k := old(ws)[k].(start := Some(at), data := mem[at..at + chunk])]
    {
      var c := caches[k];
      forall i | 0 <= i < chunk { c.data[i] := mem[at + i]; }
      c.start := Some(at);
      assert c.data[..] == mem[at..at + chunk];
      ws := ws[k := ws[k].(start := Some(at), data := mem[at..at + chunk])];
    }

    /** Sets a new value in a window. */
    method Set(k: nat, pos: nat, v: seq<byte>)
      requires Valid() && k < |caches| && pos + |v| <= chunk
      modifies Repr
      ensures Valid() && |old(ws)[k].data| == chunk && ws == Changed(old(ws), k, old(ws)[k].offs + pos, v)
    {
      var c := caches[k];
      ghost var d := c.data[..];
      forall i | 0 <= i < |v| { c.data[pos + i] := v[i]; }
      c.isDirty := true;
      assert c.data[..] == Patch(d, pos, v);
      ws := ws[k := ws[k].(data := Patch(d, pos, v), dirty := true)];
    }

    /** INVALIDATE_CACHES */
    method Invalidate()
      requires Valid()
      modifies Repr
      ensures Valid() && |ws| == |old(ws)|
      ensures forall k :: 0 <= k < |ws| ==> ws[k] == old(ws)[k].(start := None)
    {
      for i := 0 to |caches|
        invariant Valid() && |ws| == |old(ws)|
        invariant forall k :: 0 <= k < i ==> ws[k] == old(ws)[k].(start := None)
        invariant forall k :: i <= k < |ws| ==> ws[k] == old(ws)[k]
      {
        caches[i].start := None;
        ws := ws[i := ws[i].(start := None)];
      }
    }
  }

  ghost predicate SlotPlaced(ws: seq<Window>, chunk: nat, s: Slot)
  {
    Placed(ws, chunk, s.window, s.addr, s.size) && s.pos == s.addr - ws[s.window].offs
  }

  /** The slot lies in its window, and if it can be read, the window can be transferred. */
  ghost predicate SlotUsable(ws: seq<Window>, chunk: nat, base: nat, s: Slot, top: nat)
  {
    SlotPlaced(ws, chunk, s) && (Readable(base, s, top) ==> base + ws[s.window].offs + chunk <= top)
  }

  ghost predicate ChecksUsable(ws: seq<Window>, chunk: nat, base: nat, checks: seq<Check>, top: nat)
  {
    forall i :: 0 <= i < |checks| && checks[i].OnMemory? ==> SlotUsable(ws, chunk, base, checks[i].slot, top)
  }

  ghost predicate EntryUsable(ws: seq<Window>, chunk: nat, base: nat, e: Entry, top: nat)
  {
    SlotUsable(ws, chunk, base, e.slot, top) && ChecksUsable(ws, chunk, base, e.checks, top)
  }

  lemma {:induction false} EntryStillUsable(ws: seq<Window>, ws': seq<Window>, chunk: nat, base: nat, e: Entry,
        top: nat)
    requires SameOffsets(ws, ws') && EntryUsable(ws, chunk, base, e, top)
    ensures EntryUsable(ws', chunk, base, e, top)
  {
    SlotStillUsable(ws, ws', chunk, base, e.slot, top);
    ChecksStillUsable(ws, ws', chunk, base, e.checks, top);
  }

  lemma {:induction false} SlotStillUsable(ws: seq<Window>, ws': seq<Window>, chunk: nat, base: nat, s: Slot, top: nat)
    requires SameOffsets(ws, ws') && SlotUsable(ws, chunk, base, s, top)
    ensures SlotUsable(ws', chunk, base, s, top)
  {}

  lemma {:induction false} ChecksStillUsable(ws: seq<Window>, ws': seq<Window>, chunk: nat, base: nat,
        checks: seq<Check>, top: nat)
    requires SameOffsets(ws, ws') && ChecksUsable(ws, chunk, base, checks, top)
    ensures ChecksUsable(ws', chunk, base, checks, top)
  {
    forall i | 0 <= i < |checks| && checks[i].OnMemory? ensures SlotUsable(ws', chunk, base, checks[i].slot, top) {
      SlotStillUsable(ws, ws', chunk, base, checks[i].slot, top);
    }
  }

  /** The same windows, more of them filled. */
  ghost predicate FurtherFilled(ws: seq<Window>, ws': seq<Window>)
  {
    SameOffsets(ws, ws') && forall k :: 0 <= k < |ws| && ws[k].start.Some? ==> ws'[k].start.Some?
  }

  class Trainer<S> {
    const policy: Policy<S>
    var mem: seq<byte>  // memory of the frozen game process
    var st: S

    constructor (policy: Policy<S>, mem: seq<byte>, st: S)
      ensures this.policy == policy && this.mem == mem && this.st == st
    {
      this.policy, this.mem, this.st := policy, mem, st;
    }

    /** The list caches memory around `base`, and its windows are in step with it. */
    ghost predicate Open(cl: CacheList, base: nat)
      reads this, cl, cl.Repr
    {
      cl.Valid() && this !in cl.Repr && Coherent(cl.ws, cl.chunk, base, mem)
    }

    /** Makes sure that a window is valid. */
    method FillWindow(cl: CacheList, base: nat, k: nat)
      requires cl.Valid() && this !in cl.Repr && k < |cl.ws| && base + cl.ws[k].offs + cl.chunk <= |mem|
      modifies cl.Repr
      ensures cl.Valid() && cl.ws == Filled(old(cl.ws), cl.chunk, base, mem, k)
    {
      var c := cl.caches[k];
      if c.start == None {
        cl.Load(k, mem, base + c.offs);
      }
    }

    /** Reads a slot of a window that can be transferred. */
    method ReadSlot(cl: CacheList, base: nat, s: Slot) returns (buf: seq<byte>)
      requires Open(cl, base) && SlotPlaced(cl.ws, cl.chunk, s) && base + cl.ws[s.window].offs + cl.chunk <= |mem|
      modifies cl.Repr
      ensures Open(cl, base) && cl.ws == Filled(old(cl.ws), cl.chunk, base, mem, s.window)
      ensures cl.ws[s.window].start.Some? && cl.Direct(mem) == old(cl.Direct(mem))
      ensures Readable(base, s, |mem|) && buf == cl.Direct(mem)[base + s.addr..base + s.addr + s.size]
    {
      FillAndRead(cl.ws, cl.chunk, base, mem, s.window, s.addr, s.size);
      FillWindow(cl, base, s.window);
      var c := cl.caches[s.window];
      assert c.data[..] == cl.ws[s.window].data;
      buf := c.data[s.pos..s.pos + s.size];
    }

    /** FILL_CACHE_AND_BUF: reads the window if it is invalid, then the slot from it.  None if
        the window cannot be read. */
    method Fill(cl: CacheList, base: nat, s: Slot) returns (buf: Option<seq<byte>>)
      requires Open(cl, base) && SlotUsable(cl.ws, cl.chunk, base, s, |mem|)
      modifies cl.Repr
      ensures Open(cl, base) && FurtherFilled(old(cl.ws), cl.ws)
      ensures cl.Direct(mem) == old(cl.Direct(mem))
      ensures buf.Some? <==> Readable(base, s, |mem|)
      ensures buf.Some? ==>
        cl.ws[s.window].start.Some? && buf.value == cl.Direct(mem)[base + s.addr..base + s.addr + s.size]
    {
      var c := cl.caches[s.window];
      assert Mirrors(cl.ws, cl.chunk, base, mem, s.window);
      if c.start == None && base + c.offs + cl.chunk > |mem| { return None; }
      var slot := ReadSlot(cl, base, s);
      return Some(slot);
    }

    /** process_checks(): stops at the first check that does not hold. */
    method ProcessChecks(cl: CacheList, base: nat, checks: seq<Check>) returns (r: CheckResult)
      requires Open(cl, base) && ChecksUsable(cl.ws, cl.chunk, base, checks, |mem|)
      modifies cl.Repr
      ensures Open(cl, base) && FurtherFilled(old(cl.ws), cl.ws)
      ensures cl.Direct(mem) == old(cl.Direct(mem))
      ensures r == DirectChecks(policy, base, checks, cl.Direct(mem), st)
      ensures r.Passed? <==> Satisfy(policy, base, checks, |checks|, cl.Direct(mem), st)
      ensures r == Failed(true) <==> Removes(policy, base, checks, cl.Direct(mem), st)
    {
      ghost var direct, ws0 := cl.Direct(mem), cl.ws;
      ChecksMean(policy, base, checks, direct, st);
      assert checks[0..] == checks;
      var i := 0;
      while i < |checks|
        invariant i <= |checks| && Open(cl, base) && FurtherFilled(ws0, cl.ws)
        invariant cl.Direct(mem) == direct
        invariant DirectChecks(policy, base, checks[i..], direct, st) == DirectChecks(policy, base, checks, direct, st)
      {
        var c := checks[i];
        assert checks[i..][1..] == checks[i+1..];
        if c.OnMemory? { SlotStillUsable(ws0, cl.ws, cl.chunk, base, c.slot, |mem|); }
        var v := RunCheck(cl, base, c);
        match v
        case Unavailable => return Failed(false);
        case Violated => return Failed(c.isObjcheck);
        case Satisfied =>
        i := i + 1;
      }
      return Passed;
    }

    /** One check: FILL_CACHE_AND_BUF and or_check_memory(). */
    method RunCheck(cl: CacheList, base: nat, c: Check) returns (v: Verdict)
      requires Open(cl, base) && (c.OnMemory? ==> SlotUsable(cl.ws, cl.chunk, base, c.slot, |mem|))
      modifies cl.Repr
      ensures Open(cl, base) && FurtherFilled(old(cl.ws), cl.ws) && cl.Direct(mem) == old(cl.Direct(mem))
      ensures v == DirectCheck(policy, base, c, cl.Direct(mem), st)
    {
      if c.OffMemory? { return policy.check(st, c, []); }
      var buf := Fill(cl, base, c.slot);
      if buf.None? { return Unavailable; }
      return policy.check(st, c, buf.value);
    }

    /** FILL_CACHE_AND_BUF followed by change_memory(): one entry of one object. */
    method Visit(cl: CacheList, base: nat, e: Entry) returns (kicked: bool)
      requires Open(cl, base) && EntryUsable(cl.ws, cl.chunk, base, e, |mem|)
      modifies this`st, cl.Repr
      ensures Open(cl, base) && SameOffsets(old(cl.ws), cl.ws)
      ensures DirectVisit(policy, base, e, old(cl.Direct(mem)), old(st)) == Outcome(cl.Direct(mem), st, kicked)
      ensures Visited(policy, base, e, old(cl.Direct(mem)), old(st), Outcome(cl.Direct(mem), st, kicked))
    {
      VisitMeans(policy, base, e, cl.Direct(mem), st);
      var buf := Fill(cl, base, e.slot);
      if buf.None? { return false; }
      EntryStillUsable(old(cl.ws), cl.ws, cl.chunk, base, e, |mem|);
      kicked := ChangeMemory(cl, base, e, buf.value);
    }

    /** change_memory(), once the value has been read. */
    method ChangeMemory(cl: CacheList, base: nat, e: Entry, buf: seq<byte>) returns (kicked: bool)
      requires Open(cl, base) && EntryUsable(cl.ws, cl.chunk, base, e, |mem|)
      requires Readable(base, e.slot, |mem|) && cl.ws[e.slot.window].start.Some?
      modifies this`st, cl.Repr
      ensures Open(cl, base) && SameOffsets(old(cl.ws), cl.ws)
      ensures
        DirectChange(policy, base, e, buf, old(cl.Direct(mem)), policy.observe(old(st), e.slot, buf)) ==
          Outcome(cl.Direct(mem), st, kicked)
    {
      st := policy.observe(st, e.slot, buf);
      kicked := ChangeMemVal(cl, base, e, buf);
    }

    /** change_mem_val(): the checks, then the write. */
    method ChangeMemVal(cl: CacheList, base: nat, e: Entry, buf: seq<byte>) returns (kicked: bool)
      requires Open(cl, base) && EntryUsable(cl.ws, cl.chunk, base, e, |mem|)
      requires Readable(base, e.slot, |mem|) && cl.ws[e.slot.window].start.Some?
      modifies this`st, cl.Repr
      ensures Open(cl, base) && SameOffsets(old(cl.ws), cl.ws)
      ensures DirectChange(policy, base, e, buf, old(cl.Direct(mem)), old(st)) == Outcome(cl.Direct(mem), st, kicked)
    {
      if e.watch { return false; }
      var r := ProcessChecks(cl, base, e.checks);
      if r.Failed? { return r.kicked; }
      SlotStillUsable(old(cl.ws), cl.ws, cl.chunk, base, e.slot, |mem|);
      ApplyWish(cl, base, e.slot, buf);
      return false;
    }

    /** The write in change_mem_val(), after the checks have passed. */
    method ApplyWish(cl: CacheList, base: nat, s: Slot, buf: seq<byte>)
      requires Open(cl, base) && SlotPlaced(cl.ws, cl.chunk, s)
      requires Readable(base, s, |mem|) && cl.ws[s.window].start.Some?
      modifies this`st, cl.Repr
      ensures Open(cl, base) && SameOffsets(old(cl.ws), cl.ws)
      ensures
        var wish := policy.wish(old(st), s, buf);
        && st == (if wish == None then old(st) else policy.wrote(old(st), s))
        && cl.Direct(mem) ==
           if wish == None then old(cl.Direct(mem))
           else Patch(old(cl.Direct(mem)), base + s.addr, Cut(wish.value, s.size))
    {
      var wish := policy.wish(st, s, buf);
      if wish.Some? {
        SetSlot(cl, base, s, Cut(wish.value, s.size));
        st := policy.wrote(st, s);
      }
    }

    method SetSlot(cl: CacheList, base: nat, s: Slot, v: seq<byte>)
      requires Open(cl, base) && SlotPlaced(cl.ws, cl.chunk, s) && |v| <= s.size
      requires Readable(base, s, |mem|) && cl.ws[s.window].start.Some?
      modifies cl.Repr
      ensures Open(cl, base) && SameOffsets(old(cl.ws), cl.ws)
      ensures cl.Direct(mem) == Patch(old(cl.Direct(mem)), base + s.addr, v)
    {
      assert Mirrors(cl.ws, cl.chunk, base, mem, s.window);
      ChangedCoherent(cl.ws, cl.chunk, base, mem, s.window, s.addr, v);
      ChangeCommutes(cl.ws, cl.chunk, base, mem, s.window, s.addr, v);
      cl.Set(s.window, s.pos, v);
    }

    /** WRITE_CACHES: dirty windows are written back whole, in list order. */
    method WriteCaches(cl: CacheList)
      requires cl.Valid() && this !in cl.Repr
      modifies this`mem, cl.Repr
      ensures cl.Valid() && |cl.ws| == |old(cl.ws)|
      ensures forall k :: 0 <= k < |cl.ws| ==> cl.ws[k] == old(cl.ws)[k].(dirty := false)
      ensures mem == old(cl.Direct(mem))
    {
      ghost var ws0, mem0 := cl.ws, mem;
      for i := 0 to |cl.caches|
        invariant cl.Valid() && this !in cl.Repr && |cl.ws| == |ws0|
        invariant forall k :: 0 <= k < i ==> cl.ws[k] == ws0[k].(dirty := false)
        invariant forall k :: i <= k < |ws0| ==> cl.ws[k] == ws0[k]
        invariant mem == Flush(ws0, mem0, i)
      {
        var c := cl.caches[i];
        if c.isDirty {
          c.isDirty := false;
          if c.start.Some? && c.start.value + c.data.Length <= |mem| {
            mem := Patch(mem, c.start.value, c.data[..]);
          }
          cl.ws := cl.ws[i := cl.ws[i].(dirty := false)];
        }
      }
    }
  }

  ghost predicate NoneDirty(ws: seq<Window>)
  {
    forall k :: 0 <= k < |ws| ==> !ws[k].dirty
  }

  /** A list without valid or dirty windows is in step with any memory. */
  lemma {:induction false} CleanListOpens(ws: seq<Window>, chunk: nat, base: nat, mem: seq<byte>)
    requires Ascending(ws) && NoneDirty(ws) && forall k :: 0 <= k < |ws| ==> ws[k].start == None
    ensures Coherent(ws, chunk, base, mem) && Flush(ws, mem, |ws|) == mem
  {
    NothingFlushed(ws, mem, |ws|);
  }

  lemma {:induction false} NothingFlushed(ws: seq<Window>, mem: seq<byte>, n: nat)
    requires n <= |ws| && NoneDirty(ws)
    ensures Flush(ws, mem, n) == mem
  {
    if n > 0 { NothingFlushed(ws, mem, n - 1); }
  }
}
