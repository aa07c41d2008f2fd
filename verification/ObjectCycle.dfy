/** Processing whole objects and classes (process_dynmem_cfg_act(), src/ugtrain.cpp): values,
    and pointers whose targets are processed on the way. */
module ObjectCycle {
  import opened Common
  import opened WriteBack
  import opened CacheCycle
  import opened PointerTarget

  /** An active configured value: a plain one, or a pointer with its checks and the number of
      its target. */
  datatype Node = Plain(entry: Entry) | Pointer(slot: Slot, checks: seq<Check>, target: nat)
  {
    function At(): Slot { if Plain? then entry.slot else slot }
  }

  /** An entry is processed for an object unless it reaches over the object's end. */
  predicate InBounds(n: Node, size: nat) { n.At().addr + n.At().size <= size }

  // ---------------------------------------------------------------------------
  // Reference: every access goes directly to target memory
  // ---------------------------------------------------------------------------

  /** Address the pointer at `slot` leads to when its target is processed. */
  function Leads<S>(p: Policy<S>, base: nat, slot: Slot, checks: seq<Check>, mem: seq<byte>, st: S): Option<nat>
  {
    if !Readable(base, slot, |mem|) then None
    else
      var to := p.follow(st, slot, mem[base + slot.addr..base + slot.addr + slot.size]);
      if to.Some? && DirectChecks(p, base, checks, mem, st).Passed? then to else None
  }

  /** Following a pointer to `offs`, if its checks pass. */
  function DirectFollow<S>(p: Policy<S>, base: nat, slot: Slot, checks: seq<Check>, act: seq<Entry>, offs: nat,
        mem: seq<byte>, st: S): (r: Outcome<S>)
    ensures |r.mem| == |mem|
  {
    match DirectChecks(p, base, checks, mem, st)
    case Failed(kicked) => Outcome(mem, st, kicked)
    case Passed =>
      var t := DirectTarget(p, offs, act, mem, p.followed(st, slot, offs));
      Outcome(t.mem, t.st, false)
  }

  /** process_ptrmem(): the target is processed when the policy follows the pointer and its
      checks pass. */
  function DirectPointer<S>(p: Policy<S>, base: nat, slot: Slot, checks: seq<Check>, act: seq<Entry>, mem: seq<byte>,
        st: S): (r: Outcome<S>)
    ensures |r.mem| == |mem|
  {
    if !Readable(base, slot, |mem|) then Outcome(mem, st, false)
    else
      var buf := mem[base + slot.addr..base + slot.addr + slot.size];
      match p.follow(st, slot, buf)
      case None => Outcome(mem, p.noted(st, slot, buf), false)
      case Some(offs) => DirectFollow(p, base, slot, checks, act, offs, mem, st)
  }

  /** Values behind a pointer by the number of its target. */
  function ActOf(acts: seq<seq<Entry>>, k: nat): seq<Entry> { if k < |acts| then acts[k] else [] }

  function DirectNodeVisit<S>(p: Policy<S>, base: nat, n: Node, acts: seq<seq<Entry>>, mem: seq<byte>,
        st: S): (r: Outcome<S>)
    ensures |r.mem| == |mem|
  {
    match n
    case Plain(e) => DirectVisit(p, base, e, mem, st)
    case Pointer(slot, checks, k) => DirectPointer(p, base, slot, checks, ActOf(acts, k), mem, st)
  }

  datatype ObjectOutcome<S> = ObjectOutcome(mem: seq<byte>, st: S, addr: nat)

  /** One active value of object number idx at o.addr (0 when it is gone). */
  function DirectNode<S>(p: Policy<S>, idx: nat, size: nat, n: Node, acts: seq<seq<Entry>>,
        o: ObjectOutcome<S>): (r: ObjectOutcome<S>)
    ensures |r.mem| == |o.mem| && (r.addr == 0 || r.addr == o.addr)
  {
    if o.addr == 0 || !InBounds(n, size) then o
    else
      var v := DirectNodeVisit(p, o.addr, n, acts, o.mem, p.select(o.st, idx));
      ObjectOutcome(v.mem, v.st, if v.kicked then 0 else o.addr)
  }

  /** All active values of object number idx. */
  function DirectObject<S>(p: Policy<S>, idx: nat, size: nat, act: seq<Node>, acts: seq<seq<Entry>>,
        o: ObjectOutcome<S>): (r: ObjectOutcome<S>)
    ensures |r.mem| == |o.mem| && (r.addr == 0 || r.addr == o.addr)
  {
    if act == [] then o
    else DirectNode(p, idx, size, act[|act|-1], acts, DirectObject(p, idx, size, act[..|act|-1], acts, o))
  }

  datatype ClassOutcome<S> = ClassOutcome(mem: seq<byte>, st: S, addrs: seq<nat>)

  /** Object number k of a class, to be processed. */
  function ObjectOf<S>(c: ClassOutcome<S>, k: nat): ObjectOutcome<S>
    requires k < |c.addrs|
  {
    ObjectOutcome(c.mem, c.st, c.addrs[k])
  }

  /** The first n objects of a class, one after the other. */
  function DirectClass<S>(p: Policy<S>, n: nat, sizes: seq<nat>, act: seq<Node>, acts: seq<seq<Entry>>,
        c: ClassOutcome<S>): (r: ClassOutcome<S>)
    requires n <= |c.addrs| == |sizes|
    ensures |r.mem| == |c.mem| && |r.addrs| == |c.addrs|
    ensures forall k :: n <= k < |r.addrs| ==> r.addrs[k] == c.addrs[k]
  {
    if n == 0 then c
    else
      var d := DirectClass(p, n - 1, sizes, act, acts, c);
      var o := DirectObject(p, n - 1, sizes[n-1], act, acts, ObjectOf(d, n - 1));
      ClassOutcome(o.mem, o.st, d.addrs[n-1 := o.addr])
  }

  // ---------------------------------------------------------------------------
  // What happens to an object, in terms of the trainer's own verdicts
  // ---------------------------------------------------------------------------

  /** What reading a pointer did: it is noted, or its checks decide whether its target is
      processed, or the object removed. */
  ghost predicate PointerTaken<S>(p: Policy<S>, base: nat, slot: Slot, checks: seq<Check>, act: seq<Entry>,
        mem: seq<byte>, st: S, v: Outcome<S>)
  {
    if base + slot.addr + slot.size > |mem| then v == Outcome(mem, st, false)
    else
      var buf := mem[base + slot.addr..base + slot.addr + slot.size];
      match p.follow(st, slot, buf)
      case None => v == Outcome(mem, p.noted(st, slot, buf), false)
      case Some(offs) =>
        && (v.kicked <==> Removes(p, base, checks, mem, st))
        && Effect(v.mem, v.st) == (if Satisfy(p, base, checks, |checks|, mem, st)
          then DirectTarget(p, offs, act, mem, p.followed(st, slot, offs)) else Effect(mem, st))
  }

  lemma {:induction false} PointerMeans<S>(p: Policy<S>, base: nat, slot: Slot, checks: seq<Check>, act: seq<Entry>,
        mem: seq<byte>, st: S)
    ensures PointerTaken(p, base, slot, checks, act, mem, st, DirectPointer(p, base, slot, checks, act, mem, st))
  {
    ChecksMean(p, base, checks, mem, st);
  }

  /** What one round did to object number idx: nothing when the object is gone or the value does
      not end inside it, else the value is processed with this object selected. */
  ghost predicate RoundTaken<S>(p: Policy<S>, idx: nat, size: nat, n: Node, acts: seq<seq<Entry>>,
        o: ObjectOutcome<S>, r: ObjectOutcome<S>)
  {
    var s := if n.Plain? then n.entry.slot else n.slot;
    if o.addr == 0 || s.addr + s.size > size then r == o
    else
      var v := Outcome(r.mem, r.st, r.addr == 0);
      && (r.addr == 0 || r.addr == o.addr)
      && match n
         case Plain(e) => Visited(p, o.addr, e, o.mem, p.select(o.st, idx), v)
         case Pointer(slot, checks, k) =>
           PointerTaken(p, o.addr, slot, checks, if k < |acts| then acts[k] else [], o.mem, p.select(o.st, idx), v)
  }

  lemma {:induction false} RoundMeans<S>(p: Policy<S>, idx: nat, size: nat, n: Node, acts: seq<seq<Entry>>,
        o: ObjectOutcome<S>)
    ensures RoundTaken(p, idx, size, n, acts, o, DirectNode(p, idx, size, n, acts, o))
  {
    var st := p.select(o.st, idx);
    match n
    case Plain(e) => VisitMeans(p, o.addr, e, o.mem, st);
    case Pointer(slot, checks, k) => PointerMeans(p, o.addr, slot, checks, ActOf(acts, k), o.mem, st);
  }

  /** Round i of an object starts from what the rounds before it have left. */
  lemma {:induction false} ObjectRound<S>(p: Policy<S>, idx: nat, size: nat, act: seq<Node>, acts: seq<seq<Entry>>,
        o: ObjectOutcome<S>, i: nat)
    requires i < |act|
    ensures DirectObject(p, idx, size, act[..0], acts, o) == o
    ensures RoundTaken(p, idx, size, act[i], acts, DirectObject(p, idx, size, act[..i], acts, o),
      DirectObject(p, idx, size, act[..i+1], acts, o))
  {
    assert act[..i+1][..i] == act[..i];
    RoundMeans(p, idx, size, act[i], acts, DirectObject(p, idx, size, act[..i], acts, o));
  }

  /** The value of a round is inside the object, its bytes have been read, and an object check of
      it is the first check that is not satisfied, and is violated. */
  ghost predicate RoundRemoves<S>(p: Policy<S>, idx: nat, size: nat, n: Node, o: ObjectOutcome<S>)
  {
    var s := if n.Plain? then n.entry.slot else n.slot;
    && o.addr != 0 && s.addr + s.size <= size && o.addr + s.addr + s.size <= |o.mem|
    && (var st, buf := p.select(o.st, idx), o.mem[o.addr + s.addr..o.addr + s.addr + s.size];
        match n
        case Plain(e) => !e.watch && Removes(p, o.addr, e.checks, o.mem, p.observe(st, s, buf))
        case Pointer(_, checks, _) => p.follow(st, s, buf).Some? && Removes(p, o.addr, checks, o.mem, st))
  }

  /** The object is removed in round i. */
  ghost predicate RemovedIn<S>(p: Policy<S>, idx: nat, size: nat, act: seq<Node>, acts: seq<seq<Entry>>,
        o: ObjectOutcome<S>, i: nat)
  {
    i < |act| && RoundRemoves(p, idx, size, act[i], DirectObject(p, idx, size, act[..i], acts, o))
  }

  ghost predicate IsRemoved<S>(p: Policy<S>, idx: nat, size: nat, act: seq<Node>, acts: seq<seq<Entry>>,
        o: ObjectOutcome<S>)
  {
    exists i: nat :: RemovedIn(p, idx, size, act, acts, o, i)
  }

  lemma {:induction false} RoundRemovesIff<S>(p: Policy<S>, idx: nat, size: nat, n: Node, acts: seq<seq<Entry>>,
        o: ObjectOutcome<S>)
    requires o.addr != 0
    ensures DirectNode(p, idx, size, n, acts, o).addr == 0 <==> RoundRemoves(p, idx, size, n, o)
  {
    RoundMeans(p, idx, size, n, acts, o);
  }

  lemma {:induction false} LastRound<S>(p: Policy<S>, idx: nat, size: nat, act: seq<Node>, acts: seq<seq<Entry>>,
        o: ObjectOutcome<S>)
    requires act != []
    ensures
      var n := |act| - 1;
      IsRemoved(p, idx, size, act, acts, o) <==>
        IsRemoved(p, idx, size, act[..n], acts, o) || RemovedIn(p, idx, size, act, acts, o, n)
  {
    var n := |act| - 1;
    forall i: nat | i < n
      ensures RemovedIn(p, idx, size, act[..n], acts, o, i) == RemovedIn(p, idx, size, act, acts, o, i)
    {
      assert act[..n][..i] == act[..i];
    }
    if i: nat :| RemovedIn(p, idx, size, act, acts, o, i) {
      assert i < n ==> RemovedIn(p, idx, size, act[..n], acts, o, i);
    }
    if i: nat :| RemovedIn(p, idx, size, act[..n], acts, o, i) {
      assert RemovedIn(p, idx, size, act, acts, o, i);
    }
  }

  /** An object is removed if and only if in some round the first check that is not satisfied is
      an object check that is violated. */
  lemma {:induction false} RemovedIff<S>(p: Policy<S>, idx: nat, size: nat, act: seq<Node>, acts: seq<seq<Entry>>,
        o: ObjectOutcome<S>)
    requires o.addr != 0
    ensures DirectObject(p, idx, size, act, acts, o).addr == 0 <==> IsRemoved(p, idx, size, act, acts, o)
  {
    if act != [] {
      var n := |act| - 1;
      RemovedIff(p, idx, size, act[..n], acts, o);
      LastRound(p, idx, size, act, acts, o);
      var q := DirectObject(p, idx, size, act[..n], acts, o);
      if q.addr != 0 { RoundRemovesIff(p, idx, size, act[n], acts, q); }
    }
  }

  /** Object k of a class is processed once, in the memory and the state the objects before it
      have left. */
  lemma {:induction false} ObjectInClass<S>(p: Policy<S>, n: nat, sizes: seq<nat>, act: seq<Node>,
        acts: seq<seq<Entry>>, c: ClassOutcome<S>, k: nat)
    requires k < n <= |c.addrs| == |sizes|
    ensures DirectClass(p, 0, sizes, act, acts, c) == c
    ensures
      var d, e := DirectClass(p, k, sizes, act, acts, c), DirectClass(p, k + 1, sizes, act, acts, c);
      var r := DirectClass(p, n, sizes, act, acts, c);
      DirectObject(p, k, sizes[k], act, acts, ObjectOutcome(d.mem, d.st, c.addrs[k])) ==
        ObjectOutcome(e.mem, e.st, r.addrs[k])
  {
    if n > k + 1 { ObjectInClass(p, n - 1, sizes, act, acts, c, k); }
  }

  ghost predicate RemovedFromClass<S>(p: Policy<S>, sizes: seq<nat>, act: seq<Node>, acts: seq<seq<Entry>>,
        c: ClassOutcome<S>, k: nat)
    requires k < |c.addrs| == |sizes|
  {
    var d := DirectClass(p, k, sizes, act, acts, c);
    IsRemoved(p, k, sizes[k], act, acts, ObjectOutcome(d.mem, d.st, c.addrs[k]))
  }

  lemma {:induction false} GoneIff<S>(p: Policy<S>, sizes: seq<nat>, act: seq<Node>, acts: seq<seq<Entry>>,
        c: ClassOutcome<S>, k: nat)
    requires k < |c.addrs| == |sizes|
    ensures
      DirectClass(p, |sizes|, sizes, act, acts, c).addrs[k] == 0 <==>
        c.addrs[k] == 0 || RemovedFromClass(p, sizes, act, acts, c, k)
  {
    ObjectInClass(p, |sizes|, sizes, act, acts, c, k);
    var d := DirectClass(p, k, sizes, act, acts, c);
    if c.addrs[k] != 0 { RemovedIff(p, k, sizes[k], act, acts, ObjectOutcome(d.mem, d.st, c.addrs[k])); }
  }

  /** A value that reaches behind the end of the object is not even looked at, and a plain value
      changes bytes of the object only. */
  lemma {:induction false} StaysInside<S>(p: Policy<S>, idx: nat, size: nat, n: Node, acts: seq<seq<Entry>>,
        o: ObjectOutcome<S>)
    ensures
      var s, r := if n.Plain? then n.entry.slot else n.slot, DirectNode(p, idx, size, n, acts, o);
      && (s.addr + s.size > size ==> r == o)
      && (n.Plain? ==> forall a :: 0 <= a < |o.mem| && r.mem[a] != o.mem[a] ==> o.addr <= a < o.addr + size)
  {
    RoundMeans(p, idx, size, n, acts, o);
  }

  // ---------------------------------------------------------------------------
  // Where everything lies
  // ---------------------------------------------------------------------------

  /** A pointer target: its windows and its active values. */
  datatype Target = Target(list: CacheList, act: seq<Entry>)

  function Acts(ts: seq<Target>): (r: seq<seq<Entry>>)
    ensures |r| == |ts| && forall i :: 0 <= i < |ts| ==> r[i] == ts[i].act
  {
    seq(|ts|, i requires 0 <= i < |ts| => ts[i].act)
  }

  /** The windows of the object and of each target, with their sizes. */
  datatype Layout = Layout(ws: seq<Window>, chunk: nat, tws: seq<seq<Window>>, tchunks: seq<nat>)

  ghost predicate SameLayout(l: Layout, m: Layout)
  {
    && SameOffsets(l.ws, m.ws) && l.chunk == m.chunk && |l.tws| == |m.tws| && l.tchunks == m.tchunks
    && forall i :: 0 <= i < |l.tws| ==> SameOffsets(l.tws[i], m.tws[i])
  }

  /** The target can be processed at `offs`: it lies in its windows, and no byte it touches
      lies in a window of the object. */
  ghost predicate PlaceUsable(l: Layout, base: nat, k: nat, act: seq<Entry>, offs: nat, top: nat)
  {
    && k < |l.tws| && k < |l.tchunks|
    && TargetUsable(l.tws[k], l.tchunks[k], offs, act, top)
    && TargetApart(l.ws, l.chunk, base, offs, act, top)
  }

  /** The pointer can be processed in this memory and state: of its target only the place it
      leads to now matters, if it does. */
  ghost predicate NodeUsable<S>(p: Policy<S>, l: Layout, base: nat, n: Node, acts: seq<seq<Entry>>, mem: seq<byte>,
        st: S)
  {
    match n
    case Plain(e) => EntryUsable(l.ws, l.chunk, base, e, |mem|)
    case Pointer(slot, checks, k) =>
      && SlotUsable(l.ws, l.chunk, base, slot, |mem|) && ChecksUsable(l.ws, l.chunk, base, checks, |mem|) && k < |acts|
      && (var to := Leads(p, base, slot, checks, mem, st); to.Some? ==>
        PlaceUsable(l, base, k, acts[k], to.value, |mem|))
  }

  /** The same for one round of the loop over the values of object number idx. */
  ghost predicate RoundUsable<S>(p: Policy<S>, l: Layout, idx: nat, size: nat, n: Node, acts: seq<seq<Entry>>,
        o: ObjectOutcome<S>)
  {
    o.addr != 0 && InBounds(n, size) ==> NodeUsable(p, l, o.addr, n, acts, o.mem, p.select(o.st, idx))
  }

  /** Every round of the reference run over an object. */
  ghost predicate ActUsable<S>(p: Policy<S>, l: Layout, idx: nat, size: nat, act: seq<Node>, acts: seq<seq<Entry>>,
        o: ObjectOutcome<S>)
  {
    forall i :: 0 <= i < |act| ==>
      RoundUsable(p, l, idx, size, act[i], acts, DirectObject(p, idx, size, act[..i], acts, o))
  }

  /** Every object of the reference run over a class. */
  ghost predicate ClassUsable<S>(p: Policy<S>, l: Layout, sizes: seq<nat>, act: seq<Node>, acts: seq<seq<Entry>>,
        c: ClassOutcome<S>)
    requires |c.addrs| == |sizes|
  {
    forall k :: 0 <= k < |sizes| ==>
      ActUsable(p, l, k, sizes[k], act, acts, ObjectOf(DirectClass(p, k, sizes, act, acts, c), k))
  }

  lemma {:induction false} TargetStillUsable(ws: seq<Window>, ws': seq<Window>, chunk: nat, offs: nat, act: seq<Entry>,
        top: nat)
    requires SameOffsets(ws, ws') && TargetUsable(ws, chunk, offs, act, top)
    ensures TargetUsable(ws', chunk, offs, act, top)
  {
    forall i | 0 <= i < |act| ensures EntryUsable(ws', chunk, offs, act[i], top) {
      EntryStillUsable(ws, ws', chunk, offs, act[i], top);
    }
  }

  lemma {:induction false} PlaceStillUsable(l: Layout, m: Layout, base: nat, k: nat, act: seq<Entry>, offs: nat,
        top: nat)
    requires SameLayout(l, m) && PlaceUsable(l, base, k, act, offs, top)
    ensures PlaceUsable(m, base, k, act, offs, top)
  {
    TargetStillUsable(l.tws[k], m.tws[k], l.tchunks[k], offs, act, top);
    StillApart(l.ws, m.ws, l.chunk, base, offs, act, top);
  }

  lemma {:induction false} NodeStillUsable<S>(p: Policy<S>, l: Layout, m: Layout, base: nat, n: Node,
        acts: seq<seq<Entry>>, mem: seq<byte>, st: S)
    requires SameLayout(l, m) && NodeUsable(p, l, base, n, acts, mem, st)
    ensures NodeUsable(p, m, base, n, acts, mem, st)
  {
    match n
    case Plain(e) => EntryStillUsable(l.ws, m.ws, l.chunk, base, e, |mem|);
    case Pointer(slot, checks, k) =>
      SlotStillUsable(l.ws, m.ws, l.chunk, base, slot, |mem|);
      ChecksStillUsable(l.ws, m.ws, l.chunk, base, checks, |mem|);
      var to := Leads(p, base, slot, checks, mem, st);
      if to.Some? { PlaceStillUsable(l, m, base, k, acts[k], to.value, |mem|); }
  }

  lemma {:induction false} RoundStillUsable<S>(p: Policy<S>, l: Layout, m: Layout, idx: nat, size: nat, n: Node,
        acts: seq<seq<Entry>>, o: ObjectOutcome<S>)
    requires SameLayout(l, m) && RoundUsable(p, l, idx, size, n, acts, o)
    ensures RoundUsable(p, m, idx, size, n, acts, o)
  {
    if o.addr != 0 && InBounds(n, size) { NodeStillUsable(p, l, m, o.addr, n, acts, o.mem, p.select(o.st, idx)); }
  }

  lemma {:induction false} ActStillUsable<S>(p: Policy<S>, l: Layout, m: Layout, idx: nat, size: nat, act: seq<Node>,
        acts: seq<seq<Entry>>, o: ObjectOutcome<S>)
    requires SameLayout(l, m) && ActUsable(p, l, idx, size, act, acts, o)
    ensures ActUsable(p, m, idx, size, act, acts, o)
  {
    forall i | 0 <= i < |act|
      ensures RoundUsable(p, m, idx, size, act[i], acts, DirectObject(p, idx, size, act[..i], acts, o))
    {
      RoundStillUsable(p, l, m, idx, size, act[i], acts, DirectObject(p, idx, size, act[..i], acts, o));
    }
  }

  // ---------------------------------------------------------------------------
  // The code
  // ---------------------------------------------------------------------------

  /** The lists of windows of an object and of its pointer targets share nothing. */
  ghost predicate Separate<S>(t: Trainer<S>, cl: CacheList, ts: seq<Target>)
  {
    && t !in cl.Repr && (forall i :: 0 <= i < |ts| ==> t !in ts[i].list.Repr && ts[i].list.Repr !! cl.Repr)
    && (forall i, j :: 0 <= i < j < |ts| ==> ts[i].list.Repr !! ts[j].list.Repr)
  }

  ghost function AllRepr(ts: seq<Target>): set<object>
  {
    set i, o | 0 <= i < |ts| && o in ts[i].list.Repr :: o
  }

  /** No target is being processed. */
  ghost predicate Idle(cl: CacheList)
    reads cl, cl.Repr
  {
    cl.Valid() && Ascending(cl.ws) && NoneDirty(cl.ws)
  }

  ghost predicate AllIdle(ts: seq<Target>)
    reads (set i | 0 <= i < |ts| :: ts[i].list), AllRepr(ts)
  {
    forall i :: 0 <= i < |ts| ==> Idle(ts[i].list)
  }

  ghost function TargetWindows(ts: seq<Target>): (r: seq<seq<Window>>)
    reads set i | 0 <= i < |ts| :: ts[i].list
    ensures |r| == |ts| && forall i :: 0 <= i < |ts| ==> r[i] == ts[i].list.ws
  {
    if ts == [] then [] else [ts[0].list.ws] + TargetWindows(ts[1..])
  }

  function Chunks(ts: seq<Target>): (r: seq<nat>)
    ensures |r| == |ts| && forall i :: 0 <= i < |ts| ==> r[i] == ts[i].list.chunk
  {
    seq(|ts|, i requires 0 <= i < |ts| => ts[i].list.chunk)
  }

  ghost function LayoutOf(cl: CacheList, ts: seq<Target>): Layout
    reads cl, set i | 0 <= i < |ts| :: ts[i].list
  {
    Layout(cl.ws, cl.chunk, TargetWindows(ts), Chunks(ts))
  }

  /** Following a pointer while the object's windows are open. */
  method FollowTarget<S>(t: Trainer<S>, cl: CacheList, base: nat, inner: CacheList, offs: nat, act: seq<Entry>)
    requires t.Open(cl, base) && Idle(inner) && t !in inner.Repr && inner.Repr !! cl.Repr
    requires TargetUsable(inner.ws, inner.chunk, offs, act, |t.mem|)
    requires TargetApart(cl.ws, cl.chunk, base, offs, act, |t.mem|)
    modifies t`mem, t`st, inner.Repr
    ensures t.Open(cl, base) && cl.ws == old(cl.ws) && Idle(inner) && SameOffsets(old(inner.ws), inner.ws)
    ensures |t.mem| == |old(t.mem)|
    ensures DirectTarget(t.policy, offs, act, old(cl.Direct(t.mem)), old(t.st)) == Effect(cl.Direct(t.mem), t.st)
  {
    TargetCommutes(t.policy, cl.ws, cl.chunk, base, t.mem, t.st, offs, act);
    ProcessTarget(t, inner, offs, act);
  }

  /** process_ptrmem() for a pointer that is to be followed. */
  method CheckAndFollow<S>(t: Trainer<S>, cl: CacheList, base: nat, slot: Slot, checks: seq<Check>, offs: nat,
        inner: CacheList, act: seq<Entry>)
    returns (kicked: bool)
    requires t.Open(cl, base) && Idle(inner) && t !in inner.Repr && inner.Repr !! cl.Repr
    requires ChecksUsable(cl.ws, cl.chunk, base, checks, |t.mem|)
    requires DirectChecks(t.policy, base, checks, cl.Direct(t.mem), t.st).Passed? ==>
      TargetUsable(inner.ws, inner.chunk, offs, act, |t.mem|) && TargetApart(cl.ws, cl.chunk, base, offs, act, |t.mem|)
    modifies t`mem, t`st, cl.Repr, inner.Repr
    ensures t.Open(cl, base) && Idle(inner) && SameOffsets(old(cl.ws), cl.ws) && SameOffsets(old(inner.ws), inner.ws)
    ensures |t.mem| == |old(t.mem)|
    ensures DirectFollow(t.policy, base, slot, checks, act, offs, old(cl.Direct(t.mem)), old(t.st)) ==
      Outcome(cl.Direct(t.mem), t.st, kicked)
  {
    var r := t.ProcessChecks(cl, base, checks);
    if r.Failed? { return r.kicked; }
    t.st := t.policy.followed(t.st, slot, offs);
    StillApart(old(cl.ws), cl.ws, cl.chunk, base, offs, act, |t.mem|);
    FollowTarget(t, cl, base, inner, offs, act);
    return false;
  }

  /** process_ptrmem() */
  method ProcessPointer<S>(t: Trainer<S>, cl: CacheList, base: nat, slot: Slot, checks: seq<Check>, inner: CacheList,
        act: seq<Entry>)
    returns (kicked: bool)
    requires t.Open(cl, base) && Idle(inner) && t !in inner.Repr && inner.Repr !! cl.Repr
    requires SlotUsable(cl.ws, cl.chunk, base, slot, |t.mem|) && ChecksUsable(cl.ws, cl.chunk, base, checks, |t.mem|)
    requires
      var to := Leads(t.policy, base, slot, checks, cl.Direct(t.mem), t.st);
      to.Some? ==>
        TargetUsable(inner.ws, inner.chunk, to.value, act, |t.mem|) &&
          TargetApart(cl.ws, cl.chunk, base, to.value, act, |t.mem|)
    modifies t`mem, t`st, cl.Repr, inner.Repr
    ensures t.Open(cl, base) && Idle(inner) && SameOffsets(old(cl.ws), cl.ws) && SameOffsets(old(inner.ws), inner.ws)
    ensures |t.mem| == |old(t.mem)|
    ensures DirectPointer(t.policy, base, slot, checks, act, old(cl.Direct(t.mem)), old(t.st)) ==
      Outcome(cl.Direct(t.mem), t.st, kicked)
  {
    var buf := t.Fill(cl, base, slot);
    if buf.None? { return false; }
    var to := t.policy.follow(t.st, slot, buf.value);
    if to.None? {
      t.st := t.policy.noted(t.st, slot, buf.value);
      return false;
    }
    ChecksStillUsable(old(cl.ws), cl.ws, cl.chunk, base, checks, |t.mem|);
    if Leads(t.policy, base, slot, checks, cl.Direct(t.mem), t.st).Some? {
      StillApart(old(cl.ws), cl.ws, cl.chunk, base, to.value, act, |t.mem|);
    }
    kicked := CheckAndFollow(t, cl, base, slot, checks, to.value, inner, act);
  }

  /** The object's windows are open, its targets are not being processed. */
  ghost predicate Ongoing<S>(t: Trainer<S>, cl: CacheList, base: nat, ts: seq<Target>)
    reads t, cl, cl.Repr, (set i | 0 <= i < |ts| :: ts[i].list), AllRepr(ts)
  {
    t.Open(cl, base) && AllIdle(ts) && Separate(t, cl, ts)
  }

  lemma {:induction false} SameLayoutAt(cl: seq<Window>, cl': seq<Window>, chunk: nat, tws: seq<seq<Window>>,
        tws': seq<seq<Window>>, tchunks: seq<nat>, k: nat)
    requires SameOffsets(cl, cl') && |tws| == |tws'| && k < |tws| && SameOffsets(tws[k], tws'[k])
    requires forall i :: 0 <= i < |tws| && i != k ==> tws'[i] == tws[i]
    ensures SameLayout(Layout(cl, chunk, tws, tchunks), Layout(cl', chunk, tws', tchunks))
  {}

  /** FILL_CACHE_AND_BUF, then process_ptrmem(). */
  method VisitPointer<S>(t: Trainer<S>, cl: CacheList, base: nat, slot: Slot, checks: seq<Check>, k: nat,
        ts: seq<Target>) returns (kicked: bool)
    requires Ongoing(t, cl, base, ts) && k < |ts|
    requires NodeUsable(t.policy, LayoutOf(cl, ts), base, Pointer(slot, checks, k), Acts(ts), cl.Direct(t.mem), t.st)
    modifies t`mem, t`st, cl.Repr, AllRepr(ts)
    ensures Ongoing(t, cl, base, ts) && SameLayout(old(LayoutOf(cl, ts)), LayoutOf(cl, ts)) && |t.mem| == |old(t.mem)|
    ensures DirectPointer(t.policy, base, slot, checks, ts[k].act, old(cl.Direct(t.mem)), old(t.st)) ==
      Outcome(cl.Direct(t.mem), t.st, kicked)
  {
    ghost var l := LayoutOf(cl, ts);
    kicked := ProcessPointer(t, cl, base, slot, checks, ts[k].list, ts[k].act);
    forall i | 0 <= i < |ts| && i != k ensures Idle(ts[i].list) && TargetWindows(ts)[i] == l.tws[i] {
      assert ts[i].list.Repr !! ts[k].list.Repr && unchanged(ts[i].list.Repr);
    }
    SameLayoutAt(l.ws, cl.ws, cl.chunk, l.tws, TargetWindows(ts), Chunks(ts), k);
  }

  /** FILL_CACHE_AND_BUF, then process_ptrmem() or change_memory(). */
  method VisitNode<S>(t: Trainer<S>, cl: CacheList, base: nat, n: Node, ts: seq<Target>) returns (kicked: bool)
    requires Ongoing(t, cl, base, ts)
    requires NodeUsable(t.policy, LayoutOf(cl, ts), base, n, Acts(ts), cl.Direct(t.mem), t.st)
    modifies t`mem, t`st, cl.Repr, AllRepr(ts)
    ensures Ongoing(t, cl, base, ts) && SameLayout(old(LayoutOf(cl, ts)), LayoutOf(cl, ts)) && |t.mem| == |old(t.mem)|
    ensures DirectNodeVisit(t.policy, base, n, Acts(ts), old(cl.Direct(t.mem)), old(t.st)) ==
      Outcome(cl.Direct(t.mem), t.st, kicked)
  {
    match n
    case Plain(e) => kicked := t.Visit(cl, base, e);
    case Pointer(slot, checks, k) => kicked := VisitPointer(t, cl, base, slot, checks, k, ts);
  }

  /** One round of the loop over the values of an object at base, addr being 0 when it has been
      kicked meanwhile. */
  method ProcessNode<S>(t: Trainer<S>, cl: CacheList, idx: nat, base: nat, addr: nat, size: nat, n: Node,
        ts: seq<Target>)
    returns (addr': nat)
    requires Ongoing(t, cl, base, ts) && (addr == 0 || addr == base)
    requires RoundUsable(t.policy, LayoutOf(cl, ts), idx, size, n, Acts(ts),
      ObjectOutcome(cl.Direct(t.mem), t.st, addr))
    modifies t`mem, t`st, cl.Repr, AllRepr(ts)
    ensures Ongoing(t, cl, base, ts) && SameLayout(old(LayoutOf(cl, ts)), LayoutOf(cl, ts)) && |t.mem| == |old(t.mem)|
    ensures addr' == 0 || addr' == addr
    ensures DirectNode(t.policy, idx, size, n, Acts(ts), ObjectOutcome(old(cl.Direct(t.mem)), old(t.st), addr)) ==
      ObjectOutcome(cl.Direct(t.mem), t.st, addr')
  {
    addr' := addr;
    if addr != 0 && InBounds(n, size) {
      t.st := t.policy.select(t.st, idx);
      var kicked := VisitNode(t, cl, base, n, ts);
      if kicked { addr' := 0; }
    }
  }

  lemma {:induction false} SameLayoutTrans(l: Layout, m: Layout, n: Layout)
    requires SameLayout(l, m) && SameLayout(m, n)
    ensures SameLayout(l, n)
  {
    forall i | 0 <= i < |l.tws| ensures SameOffsets(l.tws[i], n.tws[i]) { assert SameOffsets(l.tws[i], m.tws[i]); }
  }

  /** The loop over the values of object number idx, between invalidating and writing back. */
  method ProcessNodes<S>(t: Trainer<S>, cl: CacheList, idx: nat, addr: nat, size: nat, act: seq<Node>, ts: seq<Target>)
    returns (addr': nat)
    requires Ongoing(t, cl, addr, ts)
    requires ActUsable(t.policy, LayoutOf(cl, ts), idx, size, act, Acts(ts),
      ObjectOutcome(cl.Direct(t.mem), t.st, addr))
    modifies t`mem, t`st, cl.Repr, AllRepr(ts)
    ensures Ongoing(t, cl, addr, ts) && SameLayout(old(LayoutOf(cl, ts)), LayoutOf(cl, ts)) && |t.mem| == |old(t.mem)|
    ensures DirectObject(t.policy, idx, size, act, Acts(ts), ObjectOutcome(old(cl.Direct(t.mem)), old(t.st), addr)) ==
      ObjectOutcome(cl.Direct(t.mem), t.st, addr')
  {
    ghost var l, o := LayoutOf(cl, ts), ObjectOutcome(cl.Direct(t.mem), t.st, addr);
    addr' := addr;
    var i := 0;
    while i < |act|
      invariant i <= |act| && Ongoing(t, cl, addr, ts) && SameLayout(l, LayoutOf(cl, ts)) && |t.mem| == |old(t.mem)|
      invariant addr' == 0 || addr' == addr
      invariant DirectObject(t.policy, idx, size, act[..i], Acts(ts), o) == ObjectOutcome(cl.Direct(t.mem), t.st, addr')
    {
      assert act[..i+1][..i] == act[..i];
      ghost var m := LayoutOf(cl, ts);
      RoundStillUsable(t.policy, l, m, idx, size, act[i], Acts(ts), ObjectOutcome(cl.Direct(t.mem), t.st, addr'));
      addr' := ProcessNode(t, cl, idx, addr, addr', size, act[i], ts);
      SameLayoutTrans(l, m, LayoutOf(cl, ts));
      i := i + 1;
    }
    assert act[..i] == act;
  }

  /** Nothing is being processed. */
  ghost predicate Resting<S>(t: Trainer<S>, cl: CacheList, ts: seq<Target>)
    reads cl, cl.Repr, (set i | 0 <= i < |ts| :: ts[i].list), AllRepr(ts)
  {
    Idle(cl) && AllIdle(ts) && Separate(t, cl, ts)
  }

  /** An object: invalidate, process, write back.  Target memory ends up exactly as if every
      value, here and behind the pointers, had been read and written in place. */
  method ProcessObject<S>(t: Trainer<S>, cl: CacheList, idx: nat, addr: nat, size: nat, act: seq<Node>, ts: seq<Target>)
    returns (addr': nat)
    requires Resting(t, cl, ts)
    requires ActUsable(t.policy, LayoutOf(cl, ts), idx, size, act, Acts(ts), ObjectOutcome(t.mem, t.st, addr))
    modifies t`mem, t`st, cl.Repr, AllRepr(ts)
    ensures Resting(t, cl, ts) && SameLayout(old(LayoutOf(cl, ts)), LayoutOf(cl, ts)) && |t.mem| == |old(t.mem)|
    ensures DirectObject(t.policy, idx, size, act, Acts(ts), ObjectOutcome(old(t.mem), old(t.st), addr)) ==
      ObjectOutcome(t.mem, t.st, addr')
    ensures addr != 0 ==>
      (addr' == 0 <==>
        IsRemoved(t.policy, idx, size, act, Acts(ts), ObjectOutcome(old(t.mem), old(t.st), addr)))
  {
    if addr != 0 { RemovedIff(t.policy, idx, size, act, Acts(ts), ObjectOutcome(t.mem, t.st, addr)); }
    ghost var l := LayoutOf(cl, ts);
    cl.Invalidate();
    ghost var m := LayoutOf(cl, ts);
    assert m.tws == l.tws;
    ActStillUsable(t.policy, l, m, idx, size, act, Acts(ts), ObjectOutcome(t.mem, t.st, addr));
    CleanListOpens(cl.ws, cl.chunk, addr, t.mem);
    addr' := ProcessNodes(t, cl, idx, addr, size, act, ts);
    ghost var n := LayoutOf(cl, ts);
    SameLayoutTrans(l, m, n);
    t.WriteCaches(cl);
    assert LayoutOf(cl, ts).tws == n.tws;
    SameLayoutTrans(l, n, LayoutOf(cl, ts));
  }

  /** The same in the layout of an earlier state. */
  method ProcessNext<S>(t: Trainer<S>, cl: CacheList, idx: nat, addr: nat, size: nat, act: seq<Node>, ts: seq<Target>,
        ghost l: Layout)
    returns (addr': nat)
    requires Resting(t, cl, ts) && SameLayout(l, LayoutOf(cl, ts))
    requires ActUsable(t.policy, l, idx, size, act, Acts(ts), ObjectOutcome(t.mem, t.st, addr))
    modifies t`mem, t`st, cl.Repr, AllRepr(ts)
    ensures Resting(t, cl, ts) && SameLayout(l, LayoutOf(cl, ts)) && |t.mem| == |old(t.mem)|
    ensures DirectObject(t.policy, idx, size, act, Acts(ts), ObjectOutcome(old(t.mem), old(t.st), addr)) ==
      ObjectOutcome(t.mem, t.st, addr')
  {
    ghost var m := LayoutOf(cl, ts);
    ActStillUsable(t.policy, l, m, idx, size, act, Acts(ts), ObjectOutcome(t.mem, t.st, addr));
    addr' := ProcessObject(t, cl, idx, addr, size, act, ts);
    SameLayoutTrans(l, m, LayoutOf(cl, ts));
  }

  lemma {:induction false} NextObject<S>(p: Policy<S>, n: nat, sizes: seq<nat>, act: seq<Node>, acts: seq<seq<Entry>>,
        c: ClassOutcome<S>, d: ClassOutcome<S>, o: ObjectOutcome<S>)
    requires n < |c.addrs| == |sizes| && DirectClass(p, n, sizes, act, acts, c) == d
    requires DirectObject(p, n, sizes[n], act, acts, ObjectOf(d, n)) == o
    ensures DirectClass(p, n + 1, sizes, act, acts, c) == ClassOutcome(o.mem, o.st, d.addrs[n := o.addr])
  {}

  lemma {:induction false} ObjectUsable<S>(p: Policy<S>, l: Layout, sizes: seq<nat>, act: seq<Node>,
        acts: seq<seq<Entry>>, c: ClassOutcome<S>, n: nat, d: ClassOutcome<S>)
    requires |c.addrs| == |sizes| && ClassUsable(p, l, sizes, act, acts, c)
    requires n < |sizes| && DirectClass(p, n, sizes, act, acts, c) == d
    ensures ActUsable(p, l, n, sizes[n], act, acts, ObjectOf(d, n))
  {}

  /** process_dynmem_cfg_act(): object by object through the same windows. */
  method ProcessDynmem<S>(t: Trainer<S>, cl: CacheList, addrs: seq<nat>, sizes: seq<nat>, act: seq<Node>,
        ts: seq<Target>)
    returns (addrs': seq<nat>)
    requires Resting(t, cl, ts) && |addrs| == |sizes|
    requires ClassUsable(t.policy, LayoutOf(cl, ts), sizes, act, Acts(ts), ClassOutcome(t.mem, t.st, addrs))
    modifies t`mem, t`st, cl.Repr, AllRepr(ts)
    ensures Resting(t, cl, ts) && SameLayout(old(LayoutOf(cl, ts)), LayoutOf(cl, ts)) && |t.mem| == |old(t.mem)|
    ensures DirectClass(t.policy, |addrs|, sizes, act, Acts(ts), ClassOutcome(old(t.mem), old(t.st), addrs)) ==
      ClassOutcome(t.mem, t.st, addrs')
    ensures |addrs'| == |addrs| && forall k :: 0 <= k < |addrs| ==>
      (addrs'[k] == 0 <==>
        addrs[k] == 0 ||
        RemovedFromClass(t.policy, sizes, act, Acts(ts), ClassOutcome(old(t.mem), old(t.st), addrs), k))
  {
    ghost var l, c := LayoutOf(cl, ts), ClassOutcome(t.mem, t.st, addrs);
    addrs' := addrs;
    var n := 0;
    while n < |addrs'|
      invariant n <= |addrs'| == |addrs| && |t.mem| == |c.mem|
      invariant Resting(t, cl, ts) && SameLayout(l, LayoutOf(cl, ts))
      invariant DirectClass(t.policy, n, sizes, act, Acts(ts), c) == ClassOutcome(t.mem, t.st, addrs')
    {
      ghost var d := ClassOutcome(t.mem, t.st, addrs');
      ObjectUsable(t.policy, l, sizes, act, Acts(ts), c, n, d);
      var a := ProcessNext(t, cl, n, addrs'[n], sizes[n], act, ts, l);
      NextObject(t.policy, n, sizes, act, Acts(ts), c, d, ObjectOutcome(t.mem, t.st, a));
      addrs' := addrs'[n := a];
      n := n + 1;
    }
    forall k | 0 <= k < |addrs|
      ensures addrs'[k] == 0 <==> addrs[k] == 0 || RemovedFromClass(t.policy, sizes, act, Acts(ts), c, k)
    {
      GoneIff(t.policy, sizes, act, Acts(ts), c, k);
    }
  }
}
