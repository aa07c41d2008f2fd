/** From a configuration to processing (build_caches() in src/cfgparser.cpp, then
    process_dynmem_cfg_act() in src/ugtrain.cpp): for any configured addresses that are pairwise
    disjoint or identical, a class is processed through the windows they are packed into as if
    every value were read and written in place. */
module ConfiguredCycle {
  import opened Common
  import opened WriteBack
  import opened CacheCycle
  import opened PointerTarget
  import opened ObjectCycle
  import P = CachePacking
  import B = CacheBuild
  import S = CacheSetup

  // ---------------------------------------------------------------------------
  // The configuration
  // ---------------------------------------------------------------------------

  /** A configured check, of a cached address or of something outside target memory. */
  datatype ConfCheck = Cached(entry: P.AddrEntry, isObjcheck: bool) | Uncached(element: nat, isObjcheck: bool)

  datatype ConfEntry = ConfEntry(entry: P.AddrEntry, watch: bool, checks: seq<ConfCheck>)

  /** An active value of a class: a plain one, or a pointer. */
  datatype ConfNode =
    | ConfPlain(value: ConfEntry)
    | ConfPointer(entry: P.AddrEntry, checks: seq<ConfCheck>, target: nat)

  /** What read_config() makes of the configured values: first windows start at `none` and are
      lowered by addresses; `owners` are all memory types. */
  datatype Conf = Conf(cfg: seq<P.Value>, owners: set<P.MemOwner>, none: nat, chunk: nat)
  {
    function Entries(): seq<P.AddrEntry> { P.Listed(cfg) }

    function Sorted(): (r: seq<P.AddrEntry>)
      ensures P.Sorted(r)
    {
      P.SortByAddr(Entries())
    }

    function First(o: P.MemOwner): nat { P.FirstWindow(P.Lowering(cfg), o, none) }

    function Firsts(): map<P.MemOwner, seq<nat>>
    {
      map o | o in owners :: [First(o)]
    }

    /** Window starts of an owner. */
    function Starts(o: P.MemOwner): seq<nat>
    {
      P.Pack([First(o)], chunk, P.OfOwner(Sorted(), o))
    }

    /** Where the entry is put when its turn comes. */
    function PlaceAt(i: nat): P.Placement
      requires i < |Sorted()|
    {
      NewestPlace(First(Sorted()[i].owner), chunk, Sorted(), i)
    }

    /** Slot of a listed entry. */
    function SlotFor(e: P.AddrEntry): (s: Slot)
      ensures s.addr == e.addr && s.size == e.size && s.element == e.element
    {
      var i := IndexIn(Sorted(), e);
      S.SlotOf(e, if i < |Sorted()| then PlaceAt(i) else P.Placement(0, 0))
    }

    function CheckFor(c: ConfCheck): Check
    {
      match c
      case Cached(e, obj) => OnMemory(SlotFor(e), obj)
      case Uncached(element, obj) => OffMemory(element, obj)
    }

    function ChecksFor(cs: seq<ConfCheck>): (r: seq<Check>)
      ensures |r| == |cs| && forall i :: 0 <= i < |cs| ==> r[i] == CheckFor(cs[i])
    {
      seq(|cs|, i requires 0 <= i < |cs| => CheckFor(cs[i]))
    }

    function EntryFor(v: ConfEntry): Entry { Entry(SlotFor(v.entry), v.watch, ChecksFor(v.checks)) }

    function EntriesFor(vs: seq<ConfEntry>): (r: seq<Entry>)
      ensures |r| == |vs| && forall i :: 0 <= i < |vs| ==> r[i] == EntryFor(vs[i])
    {
      seq(|vs|, i requires 0 <= i < |vs| => EntryFor(vs[i]))
    }

    function NodeFor(n: ConfNode): Node
    {
      match n
      case ConfPlain(v) => Plain(EntryFor(v))
      case ConfPointer(e, cs, k) => Pointer(SlotFor(e), ChecksFor(cs), k)
    }

    function NodesFor(ns: seq<ConfNode>): (r: seq<Node>)
      ensures |r| == |ns| && forall i :: 0 <= i < |ns| ==> r[i] == NodeFor(ns[i])
    {
      seq(|ns|, i requires 0 <= i < |ns| => NodeFor(ns[i]))
    }

    function TargetsFor(ts: seq<seq<ConfEntry>>): (r: seq<seq<Entry>>)
      ensures |r| == |ts| && forall k :: 0 <= k < |ts| ==> r[k] == EntriesFor(ts[k])
    {
      seq(|ts|, k requires 0 <= k < |ts| => EntriesFor(ts[k]))
    }

    /** Sizes are between 1 and the window size, entries of one owner are disjoint or cover the
        same bytes. */
    ghost predicate Fits()
    {
      && (forall e :: e in Entries() ==> e.owner in owners && 1 <= e.size <= chunk)
      && B.DisjointPerOwner(Entries())
    }

    /** The entry is configured for the owner. */
    ghost predicate Has(o: P.MemOwner, e: P.AddrEntry) { e in Entries() && e.owner == o }

    ghost predicate HasChecks(o: P.MemOwner, cs: seq<ConfCheck>)
    {
      forall i :: 0 <= i < |cs| && cs[i].Cached? ==> Has(o, cs[i].entry)
    }

    ghost predicate HasEntry(o: P.MemOwner, v: ConfEntry) { Has(o, v.entry) && HasChecks(o, v.checks) }

    ghost predicate HasNode(o: P.MemOwner, n: ConfNode, targets: nat)
    {
      match n
      case ConfPlain(v) => HasEntry(o, v)
      case ConfPointer(e, cs, k) => Has(o, e) && HasChecks(o, cs) && k < targets
    }

    /** The active values of a class and of its pointer targets are configured ones. */
    ghost predicate HasAll(class_: nat, ns: seq<ConfNode>, ts: seq<seq<ConfEntry>>)
    {
      && (forall i :: 0 <= i < |ns| ==> HasNode(P.Dynmem(class_), ns[i], |ts|))
      && (forall k, i :: 0 <= k < |ts| && 0 <= i < |ts[k]| ==> HasEntry(P.Ptrmem(k), ts[k][i]))
      && P.Dynmem(class_) in owners && forall k: nat :: k < |ts| ==> P.Ptrmem(k) in owners
    }
  }

  /** The newest window of the owner of entry i, when its turn comes. */
  function NewestPlace(first: nat, chunk: nat, s: seq<P.AddrEntry>, i: nat): P.Placement
    requires i < |s|
  {
    var r := P.Pack([first], chunk, P.OfOwner(s[..i+1], s[i].owner));
    P.Placement(|r| - 1, if r[|r|-1] <= s[i].addr then s[i].addr - r[|r|-1] else 0)
  }

  function IndexIn(es: seq<P.AddrEntry>, e: P.AddrEntry): (i: nat)
    ensures i <= |es| && (i < |es| <==> e in es) && (i < |es| ==> es[i] == e)
  {
    if es == [] || es[0] == e then 0 else 1 + IndexIn(es[1..], e)
  }

  /** Windows at these places, nothing in them. */
  function Empty(starts: seq<nat>): (ws: seq<Window>)
    ensures |ws| == |starts| && forall k :: 0 <= k < |ws| ==> ws[k].offs == starts[k]
  {
    seq(|starts|, k requires 0 <= k < |starts| => Window(starts[k], None, [], false))
  }

  // ---------------------------------------------------------------------------
  // What is processed is what was configured
  // ---------------------------------------------------------------------------

  ghost predicate SlotIs(s: Slot, e: P.AddrEntry) { s.addr == e.addr && s.size == e.size && s.element == e.element }

  ghost predicate CheckIs(k: Check, cc: ConfCheck)
  {
    match cc
    case Cached(e, obj) => k.OnMemory? && SlotIs(k.slot, e) && k.isObjcheck == obj
    case Uncached(element, obj) => k.OffMemory? && k.element == element && k.isObjcheck == obj
  }

  ghost predicate ChecksAre(ks: seq<Check>, cs: seq<ConfCheck>)
  {
    |ks| == |cs| && forall i :: 0 <= i < |cs| ==> CheckIs(ks[i], cs[i])
  }

  ghost predicate EntryIs(e: Entry, v: ConfEntry)
  {
    SlotIs(e.slot, v.entry) && e.watch == v.watch && ChecksAre(e.checks, v.checks)
  }

  ghost predicate NodeIs(n: Node, cn: ConfNode)
  {
    match cn
    case ConfPlain(v) => n.Plain? && EntryIs(n.entry, v)
    case ConfPointer(e, cs, k) => n.Pointer? && SlotIs(n.slot, e) && ChecksAre(n.checks, cs) && n.target == k
  }

  /** Every value and check is processed at its configured address and size, in the configured
      order. */
  lemma {:induction false} AsConfigured(c: Conf, ns: seq<ConfNode>, ts: seq<seq<ConfEntry>>)
    ensures |c.NodesFor(ns)| == |ns| && forall i :: 0 <= i < |ns| ==> NodeIs(c.NodesFor(ns)[i], ns[i])
    ensures |c.TargetsFor(ts)| == |ts| && forall k :: 0 <= k < |ts| ==> |c.TargetsFor(ts)[k]| == |ts[k]|
    ensures forall k, i :: 0 <= k < |ts| && 0 <= i < |ts[k]| ==> EntryIs(c.TargetsFor(ts)[k][i], ts[k][i])
  {
    forall i | 0 <= i < |ns| ensures NodeIs(c.NodesFor(ns)[i], ns[i]) {
      if ns[i].ConfPlain? { EntryAsConfigured(c, ns[i].value); } else { ChecksAsConfigured(c, ns[i].checks); }
    }
    forall k, i | 0 <= k < |ts| && 0 <= i < |ts[k]| ensures EntryIs(c.TargetsFor(ts)[k][i], ts[k][i]) {
      EntryAsConfigured(c, ts[k][i]);
    }
  }

  lemma {:induction false} ChecksAsConfigured(c: Conf, cs: seq<ConfCheck>)
    ensures ChecksAre(c.ChecksFor(cs), cs)
  {}

  lemma {:induction false} EntryAsConfigured(c: Conf, v: ConfEntry)
    ensures EntryIs(c.EntryFor(v), v)
  {
    ChecksAsConfigured(c, v.checks);
  }

  // ---------------------------------------------------------------------------
  // What packing gives
  // ---------------------------------------------------------------------------

  /** The windows of the owner are where packing puts them. */
  ghost predicate At(c: Conf, o: P.MemOwner, ws: seq<Window>)
  {
    |ws| == |c.Starts(o)| && forall k :: 0 <= k < |ws| ==> ws[k].offs == c.Starts(o)[k]
  }

  lemma {:induction false} FirstsReady(c: Conf)
    requires c.Fits()
    ensures B.Ready(c.Firsts(), c.chunk, c.Entries()) && B.Ready(c.Firsts(), c.chunk, c.Sorted())
    ensures B.DisjointPerOwner(c.Sorted())
  {
    forall e | e in c.Entries() ensures c.First(e.owner) <= e.addr { P.FirstWindowStart(c.cfg, e.owner, c.none); }
    B.SortKeepsReady(c.Firsts(), c.chunk, c.Entries());
  }

  lemma {:induction false} OwnReady(c: Conf, e: P.AddrEntry)
    requires c.Fits() && e in c.Entries()
    ensures
      var own := P.OfOwner(c.Sorted(), e.owner);
      && IndexIn(c.Sorted(), e) < |c.Sorted()| && e in own && e.owner in c.owners
      && P.Packable(c.First(e.owner), c.chunk, own) && P.DisjointOrSame(own)
  {
    FirstsReady(c);
    B.SortKeepsElements(c.Entries());
    B.OwnedReady(c.Firsts(), c.chunk, c.Sorted(), IndexIn(c.Sorted(), e));
    P.OfOwnerElements(c.Sorted(), e.owner);
  }

  lemma {:induction false} NewestAtMost(first: nat, firsts: map<P.MemOwner, seq<nat>>, chunk: nat, s: seq<P.AddrEntry>,
        i: nat)
    requires P.Sorted(s) && B.Ready(firsts, chunk, s) && i < |s|
    requires s[i].owner in firsts && firsts[s[i].owner] == [first]
    ensures var r := P.Pack([first], chunk, P.OfOwner(s[..i+1], s[i].owner)); r[|r|-1] <= s[i].addr
  {
    var own := P.OfOwner(s[..i+1], s[i].owner);
    B.OwnedPackable(firsts, chunk, s, i + 1, s[i].owner);
    B.OfOwnerSnoc(s, i, s[i].owner);
    assert own[|own|-1] == s[i];
    P.PackAscends(first, chunk, own);
  }

  lemma {:induction false} NewestPlaceHolds(first: nat, firsts: map<P.MemOwner, seq<nat>>, chunk: nat,
        s: seq<P.AddrEntry>, i: nat)
    requires P.Sorted(s) && B.Ready(firsts, chunk, s) && B.DisjointPerOwner(s) && i < |s|
    requires s[i].owner in firsts && firsts[s[i].owner] == [first]
    ensures B.PlacedByRank(firsts, chunk, s, i, NewestPlace(first, chunk, s, i))
    ensures B.Holds(P.Pack([first], chunk, P.OfOwner(s, s[i].owner)), chunk, s[i], NewestPlace(first, chunk, s, i))
  {
    NewestAtMost(first, firsts, chunk, s, i);
    B.RankHolds(firsts, chunk, s, i, NewestPlace(first, chunk, s, i));
  }

  /** The place of an entry is in the newest window of its owner at its turn. */
  lemma {:induction false} PlaceHolds(c: Conf, i: nat)
    requires c.Fits() && i < |c.Sorted()|
    ensures B.PlacedByRank(c.Firsts(), c.chunk, c.Sorted(), i, c.PlaceAt(i))
    ensures B.Holds(c.Starts(c.Sorted()[i].owner), c.chunk, c.Sorted()[i], c.PlaceAt(i))
  {
    FirstsReady(c);
    OwnerKnown(c, c.Sorted()[i]);
    NewestPlaceHolds(c.First(c.Sorted()[i].owner), c.Firsts(), c.chunk, c.Sorted(), i);
  }

  lemma {:induction false} OwnerKnown(c: Conf, e: P.AddrEntry)
    requires c.Fits() && e in c.Sorted()
    ensures e in c.Entries() && e.owner in c.Firsts() && c.Firsts()[e.owner] == [c.First(e.owner)]
  {
    B.SortKeepsElements(c.Entries());
  }

  /** Every slot of a configured entry is placed in the windows of its owner. */
  lemma {:induction false} SlotForPlaced(c: Conf, o: P.MemOwner, e: P.AddrEntry, ws: seq<Window>)
    requires c.Fits() && c.Has(o, e) && At(c, o, ws)
    ensures Ascending(ws) && SlotPlaced(ws, c.chunk, c.SlotFor(e))
  {
    OwnReady(c, e);
    var i := IndexIn(c.Sorted(), e);
    PlaceHolds(c, i);
    S.PackedSlotsArePlaced(c.First(o), c.chunk, P.OfOwner(c.Sorted(), o), e, c.PlaceAt(i), ws);
  }

  // ---------------------------------------------------------------------------
  // What processing asks for
  // ---------------------------------------------------------------------------

  /** No window of the object lies across the end of memory. */
  predicate NoneAcross(ws: seq<Window>, chunk: nat, base: nat, top: nat)
  {
    forall k :: 0 <= k < |ws| && base + ws[k].offs < top ==> base + ws[k].offs + chunk <= top
  }

  lemma {:induction false} ConfiguredSlot(c: Conf, o: P.MemOwner, e: P.AddrEntry, ws: seq<Window>, base: nat, top: nat)
    requires c.Fits() && c.Has(o, e) && At(c, o, ws) && NoneAcross(ws, c.chunk, base, top)
    ensures SlotUsable(ws, c.chunk, base, c.SlotFor(e), top)
  {
    SlotForPlaced(c, o, e, ws);
  }

  lemma {:induction false} ConfiguredChecks(c: Conf, o: P.MemOwner, cs: seq<ConfCheck>, ws: seq<Window>, base: nat,
        top: nat)
    requires c.Fits() && c.HasChecks(o, cs) && At(c, o, ws) && NoneAcross(ws, c.chunk, base, top)
    ensures ChecksUsable(ws, c.chunk, base, c.ChecksFor(cs), top)
  {
    forall i | 0 <= i < |cs| && cs[i].Cached? ensures SlotUsable(ws, c.chunk, base, c.SlotFor(cs[i].entry), top) {
      ConfiguredSlot(c, o, cs[i].entry, ws, base, top);
    }
  }

  lemma {:induction false} ConfiguredEntry(c: Conf, o: P.MemOwner, v: ConfEntry, ws: seq<Window>, base: nat, top: nat)
    requires c.Fits() && c.HasEntry(o, v) && At(c, o, ws) && NoneAcross(ws, c.chunk, base, top)
    ensures EntryUsable(ws, c.chunk, base, c.EntryFor(v), top)
  {
    ConfiguredSlot(c, o, v.entry, ws, base, top);
    ConfiguredChecks(c, o, v.checks, ws, base, top);
  }

  lemma {:induction false} ConfiguredTarget(c: Conf, k: nat, vs: seq<ConfEntry>, ws: seq<Window>, offs: nat, top: nat)
    requires c.Fits() && At(c, P.Ptrmem(k), ws) && NoneAcross(ws, c.chunk, offs, top)
    requires forall i :: 0 <= i < |vs| ==> c.HasEntry(P.Ptrmem(k), vs[i])
    ensures TargetUsable(ws, c.chunk, offs, c.EntriesFor(vs), top)
  {
    forall i | 0 <= i < |vs| ensures EntryUsable(ws, c.chunk, offs, c.EntriesFor(vs)[i], top) {
      ConfiguredEntry(c, P.Ptrmem(k), vs[i], ws, offs, top);
    }
  }

  /** The windows of a class and of its pointer targets, as packed. */
  ghost predicate Packed(c: Conf, class_: nat, l: Layout)
  {
    && At(c, P.Dynmem(class_), l.ws) && l.chunk == c.chunk && |l.tchunks| == |l.tws|
    && (forall k :: 0 <= k < |l.tws| ==> l.tchunks[k] == c.chunk && At(c, P.Ptrmem(k), l.tws[k]))
  }

  function PackedLayout(c: Conf, class_: nat, targets: nat): Layout
  {
    Layout(Empty(c.Starts(P.Dynmem(class_))), c.chunk,
      seq(targets, k => if k >= 0 then Empty(c.Starts(P.Ptrmem(k))) else []), seq(targets, _ => c.chunk))
  }

  /** In this round, if a pointer leads somewhere: no window of its target lies across the end of
      memory, and no byte the target touches lies in a window of the object. */
  ghost predicate RoundFits<S>(p: Policy<S>, l: Layout, idx: nat, size: nat, n: Node, acts: seq<seq<Entry>>,
        o: ObjectOutcome<S>)
  {
    o.addr != 0 && InBounds(n, size) && n.Pointer? ==>
      var to := Leads(p, o.addr, n.slot, n.checks, o.mem, p.select(o.st, idx));
      to.Some? && n.target < |l.tws| && n.target < |l.tchunks| && n.target < |acts| ==>
        && NoneAcross(l.tws[n.target], l.tchunks[n.target], to.value, |o.mem|)
        && TargetApart(l.ws, l.chunk, o.addr, to.value, acts[n.target], |o.mem|)
  }

  /** The same for every round of the reference run over a class. */
  ghost predicate PointersFit<S>(p: Policy<S>, l: Layout, sizes: seq<nat>, act: seq<Node>, acts: seq<seq<Entry>>,
        c: ClassOutcome<S>)
    requires |c.addrs| == |sizes|
  {
    forall k, i :: 0 <= k < |sizes| && 0 <= i < |act| ==>
      RoundFits(p, l, k, sizes[k], act[i], acts,
        DirectObject(p, k, sizes[k], act[..i], acts, ObjectOf(DirectClass(p, k, sizes, act, acts, c), k)))
  }

  /** One round: what packing gives, and what is asked of pointers, is all that processing asks. */
  lemma {:induction false} ConfiguredRound<S>(c: Conf, class_: nat, l: Layout, p: Policy<S>, idx: nat, size: nat,
        n: ConfNode, ts: seq<seq<ConfEntry>>, o: ObjectOutcome<S>)
    requires c.Fits() && Packed(c, class_, l) && |l.tws| == |ts| && c.HasNode(P.Dynmem(class_), n, |ts|)
    requires forall k, i :: 0 <= k < |ts| && 0 <= i < |ts[k]| ==> c.HasEntry(P.Ptrmem(k), ts[k][i])
    requires o.addr != 0 ==> NoneAcross(l.ws, l.chunk, o.addr, |o.mem|)
    requires RoundFits(p, l, idx, size, c.NodeFor(n), c.TargetsFor(ts), o)
    ensures RoundUsable(p, l, idx, size, c.NodeFor(n), c.TargetsFor(ts), o)
  {
    if o.addr != 0 && InBounds(c.NodeFor(n), size) {
      match n
      case ConfPlain(v) => ConfiguredEntry(c, P.Dynmem(class_), v, l.ws, o.addr, |o.mem|);
      case ConfPointer(e, cs, k) =>
        ConfiguredSlot(c, P.Dynmem(class_), e, l.ws, o.addr, |o.mem|);
        ConfiguredChecks(c, P.Dynmem(class_), cs, l.ws, o.addr, |o.mem|);
        var to := Leads(p, o.addr, c.SlotFor(e), c.ChecksFor(cs), o.mem, p.select(o.st, idx));
        if to.Some? { ConfiguredTarget(c, k, ts[k], l.tws[k], to.value, |o.mem|); }
    }
  }

  /** Of a configuration that fits, processing a class asks nothing but that no window lies
      across the end of memory, and what is asked of the places its pointers lead to. */
  lemma {:induction false} ConfiguredIsUsable<S>(c: Conf, class_: nat, l: Layout, p: Policy<S>, ns: seq<ConfNode>,
        ts: seq<seq<ConfEntry>>, sizes: seq<nat>, o: ClassOutcome<S>)
    requires c.Fits() && c.HasAll(class_, ns, ts) && Packed(c, class_, l) && |l.tws| == |ts| && |o.addrs| == |sizes|
    requires forall k :: 0 <= k < |o.addrs| && o.addrs[k] != 0 ==> NoneAcross(l.ws, l.chunk, o.addrs[k], |o.mem|)
    requires PointersFit(p, l, sizes, c.NodesFor(ns), c.TargetsFor(ts), o)
    ensures ClassUsable(p, l, sizes, c.NodesFor(ns), c.TargetsFor(ts), o)
  {
    var act, acts := c.NodesFor(ns), c.TargetsFor(ts);
    forall k | 0 <= k < |sizes|
      ensures ActUsable(p, l, k, sizes[k], act, acts, ObjectOf(DirectClass(p, k, sizes, act, acts, o), k))
    {
      var q := ObjectOf(DirectClass(p, k, sizes, act, acts, o), k);
      forall i | 0 <= i < |act|
        ensures RoundUsable(p, l, k, sizes[k], act[i], acts, DirectObject(p, k, sizes[k], act[..i], acts, q))
      {
        ConfiguredRound(c, class_, l, p, k, sizes[k], ns[i], ts, DirectObject(p, k, sizes[k], act[..i], acts, q));
      }
    }
  }

  // ---------------------------------------------------------------------------
  // From configuration to memory
  // ---------------------------------------------------------------------------

  /** build_caches() gives every owner the windows of the packing, and every listed entry its
      place there. */
  method BuildConfigured(c: Conf) returns (starts: map<P.MemOwner, seq<nat>>, ghost placed: seq<P.Placement>)
    requires c.Fits()
    ensures starts.Keys == c.owners && forall o :: o in starts ==> starts[o] == c.Starts(o)
    ensures |placed| == |c.Sorted()| && forall i :: 0 <= i < |placed| ==> placed[i] == c.PlaceAt(i)
  {
    FirstsReady(c);
    var caches := new B.Caches(c.chunk, c.Firsts());
    caches.BuildCaches(c.Entries());
    starts, placed := caches.starts, caches.placed;
    forall i | 0 <= i < |placed| ensures placed[i] == c.PlaceAt(i) {
      OwnerKnown(c, c.Sorted()[i]);
      PlaceHolds(c, i);
    }
  }

  /** Lists of windows, as packed, for the pointer targets; no two share an object. */
  method NewLists(c: Conf, starts: map<P.MemOwner, seq<nat>>, n: nat) returns (lists: seq<CacheList>)
    requires forall k: nat :: k < n ==> P.Ptrmem(k) in starts && starts[P.Ptrmem(k)] == c.Starts(P.Ptrmem(k))
    ensures |lists| == n && AllNew(c, lists) && Apart(lists) && forall k :: 0 <= k < n ==> fresh(lists[k].Repr)
  {
    lists := [];
    while |lists| < n
      invariant |lists| <= n && AllNew(c, lists) && Apart(lists)
      invariant forall k :: 0 <= k < |lists| ==> fresh(lists[k].Repr)
    {
      var list := S.NewCacheList(c.chunk, starts[P.Ptrmem(|lists|)]);
      OneMoreList(c, lists, list);
      lists := lists + [list];
    }
  }

  ghost predicate AllNew(c: Conf, lists: seq<CacheList>)
    reads set k | 0 <= k < |lists| :: lists[k], set k, o | 0 <= k < |lists| && o in lists[k].Repr :: o
  {
    forall k :: 0 <= k < |lists| ==> NewList(c, P.Ptrmem(k), lists[k])
  }

  ghost predicate Apart(lists: seq<CacheList>)
    reads set k | 0 <= k < |lists| :: lists[k]
  {
    forall j, k :: 0 <= j < k < |lists| ==> lists[j].Repr !! lists[k].Repr
  }

  lemma {:induction false} OneMoreList(c: Conf, lists: seq<CacheList>, list: CacheList)
    requires AllNew(c, lists) && Apart(lists) && NewList(c, P.Ptrmem(|lists|), list)
    requires forall k :: 0 <= k < |lists| ==> lists[k].Repr !! list.Repr
    ensures AllNew(c, lists + [list]) && Apart(lists + [list])
  {}

  /** A list of windows for each pointer target. */
  method NewTargets<S>(t: Trainer<S>, cl: CacheList, c: Conf, starts: map<P.MemOwner, seq<nat>>,
        vs: seq<seq<ConfEntry>>) returns (ts: seq<Target>)
    requires forall k: nat :: k < |vs| ==> P.Ptrmem(k) in starts && starts[P.Ptrmem(k)] == c.Starts(P.Ptrmem(k))
    requires cl.Valid() && t !in cl.Repr
    ensures |ts| == |vs| && Acts(ts) == c.TargetsFor(vs) && Separate(t, cl, ts)
    ensures forall k :: 0 <= k < |ts| ==> NewList(c, P.Ptrmem(k), ts[k].list) && fresh(ts[k].list.Repr)
  {
    var lists := NewLists(c, starts, |vs|);
    ts := seq(|vs|, k requires 0 <= k < |vs| => Target(lists[k], c.EntriesFor(vs[k])));
  }

  ghost predicate NewList(c: Conf, o: P.MemOwner, cl: CacheList)
    reads cl, cl.Repr
  {
    cl.Valid() && cl.chunk == c.chunk && At(c, o, cl.ws) && NoneDirty(cl.ws)
  }

  /** The configured class is processed for the first time: its windows are packed and created,
      then every object is processed through them.  Target memory, the state of the trainer and
      the objects end up exactly as if every value, here and behind the pointers, had been read
      and written in place. */
  method ProcessConfigured<S>(t: Trainer<S>, c: Conf, class_: nat, ns: seq<ConfNode>, vs: seq<seq<ConfEntry>>,
        addrs: seq<nat>, sizes: seq<nat>) returns (addrs': seq<nat>)
    requires c.Fits() && c.HasAll(class_, ns, vs) && |addrs| == |sizes|
    requires forall k :: 0 <= k < |addrs| && addrs[k] != 0 ==>
      NoneAcross(Empty(c.Starts(P.Dynmem(class_))), c.chunk, addrs[k], |t.mem|)
    requires PointersFit(t.policy, PackedLayout(c, class_, |vs|), sizes, c.NodesFor(ns), c.TargetsFor(vs),
      ClassOutcome(t.mem, t.st, addrs))
    modifies t`mem, t`st
    ensures |t.mem| == |old(t.mem)|
    ensures
      DirectClass(t.policy, |addrs|, sizes, c.NodesFor(ns), c.TargetsFor(vs),
        ClassOutcome(old(t.mem), old(t.st), addrs)) == ClassOutcome(t.mem, t.st, addrs')
  {
    ghost var placed;
    var starts;
    starts, placed := BuildConfigured(c);
    var cl := S.NewCacheList(c.chunk, starts[P.Dynmem(class_)]);
    var ts := NewTargets(t, cl, c, starts, vs);
    PackedIsUsable(t, c, class_, cl, ns, vs, ts, addrs, sizes);
    addrs' := ProcessDynmem(t, cl, addrs, sizes, c.NodesFor(ns), ts);
  }

  lemma {:induction false} PackedIsUsable<S>(t: Trainer<S>, c: Conf, class_: nat, cl: CacheList, ns: seq<ConfNode>,
        vs: seq<seq<ConfEntry>>, ts: seq<Target>, addrs: seq<nat>, sizes: seq<nat>)
    requires c.Fits() && c.HasAll(class_, ns, vs) && |addrs| == |sizes| && |ts| == |vs|
    requires NewList(c, P.Dynmem(class_), cl) && forall k :: 0 <= k < |ts| ==> NewList(c, P.Ptrmem(k), ts[k].list)
    requires Separate(t, cl, ts) && Acts(ts) == c.TargetsFor(vs)
    requires forall k :: 0 <= k < |addrs| && addrs[k] != 0 ==>
      NoneAcross(Empty(c.Starts(P.Dynmem(class_))), c.chunk, addrs[k], |t.mem|)
    requires PointersFit(t.policy, PackedLayout(c, class_, |vs|), sizes, c.NodesFor(ns), c.TargetsFor(vs),
      ClassOutcome(t.mem, t.st, addrs))
    ensures Resting(t, cl, ts)
    ensures ClassUsable(t.policy, LayoutOf(cl, ts), sizes, c.NodesFor(ns), Acts(ts), ClassOutcome(t.mem, t.st, addrs))
  {
    StartsAscend(c, P.Dynmem(class_), cl.ws);
    forall k | 0 <= k < |ts| ensures Idle(ts[k].list) { StartsAscend(c, P.Ptrmem(k), ts[k].list.ws); }
    var l, o := PackedLayout(c, class_, |vs|), ClassOutcome(t.mem, t.st, addrs);
    var m := LayoutOf(cl, ts);
    LayoutIsPacked(c, class_, cl, ts);
    StillFits(t.policy, l, m, sizes, c.NodesFor(ns), c.TargetsFor(vs), o);
    ConfiguredIsUsable(c, class_, m, t.policy, ns, vs, sizes, o);
  }

  lemma {:induction false} StartsAscend(c: Conf, o: P.MemOwner, ws: seq<Window>)
    requires c.Fits() && o in c.owners && At(c, o, ws)
    ensures Ascending(ws)
  {
    FirstsReady(c);
    B.OwnedPackable(c.Firsts(), c.chunk, c.Sorted(), |c.Sorted()|, o);
    assert c.Sorted()[..|c.Sorted()|] == c.Sorted();
    P.PackAscends(c.First(o), c.chunk, P.OfOwner(c.Sorted(), o));
  }

  lemma {:induction false} LayoutIsPacked(c: Conf, class_: nat, cl: CacheList, ts: seq<Target>)
    requires NewList(c, P.Dynmem(class_), cl) && forall k :: 0 <= k < |ts| ==> NewList(c, P.Ptrmem(k), ts[k].list)
    ensures Packed(c, class_, LayoutOf(cl, ts)) && SameLayout(PackedLayout(c, class_, |ts|), LayoutOf(cl, ts))
  {}

  lemma {:induction false} RoundStillFits<S>(p: Policy<S>, l: Layout, m: Layout, idx: nat, size: nat, n: Node,
        acts: seq<seq<Entry>>, o: ObjectOutcome<S>)
    requires SameLayout(l, m) && RoundFits(p, l, idx, size, n, acts, o)
    ensures RoundFits(p, m, idx, size, n, acts, o)
  {
    if o.addr != 0 && InBounds(n, size) && n.Pointer? {
      var to := Leads(p, o.addr, n.slot, n.checks, o.mem, p.select(o.st, idx));
      if to.Some? && n.target < |l.tws| && n.target < |l.tchunks| && n.target < |acts| {
        StillApart(l.ws, m.ws, l.chunk, o.addr, to.value, acts[n.target], |o.mem|);
        assert SameOffsets(l.tws[n.target], m.tws[n.target]);
      }
    }
  }

  lemma {:induction false} StillFits<S>(p: Policy<S>, l: Layout, m: Layout, sizes: seq<nat>, act: seq<Node>,
        acts: seq<seq<Entry>>, c: ClassOutcome<S>)
    requires SameLayout(l, m) && |c.addrs| == |sizes| && PointersFit(p, l, sizes, act, acts, c)
    ensures PointersFit(p, m, sizes, act, acts, c)
  {
    forall k, i | 0 <= k < |sizes| && 0 <= i < |act|
      ensures RoundFits(p, m, k, sizes[k], act[i], acts,
        DirectObject(p, k, sizes[k], act[..i], acts, ObjectOf(DirectClass(p, k, sizes, act, acts, c), k)))
    {
      RoundStillFits(p, l, m, k, sizes[k], act[i], acts,
        DirectObject(p, k, sizes[k], act[..i], acts, ObjectOf(DirectClass(p, k, sizes, act, acts, c), k)));
    }
  }
}
