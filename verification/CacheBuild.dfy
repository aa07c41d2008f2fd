/** build_caches() (src/cfgparser.cpp): windows are created and assigned while the sorted
    address list is walked once, for all owners together. */
module CacheBuild {
  import opened CachePacking

  lemma {:induction false} OfOwnerPrefix(es: seq<AddrEntry>, n: nat, o: MemOwner)
    requires n <= |es|
    ensures OfOwner(es[..n], o) <= OfOwner(es, o)
  {
    if n < |es| {
      OfOwnerPrefix(es[..|es|-1], n, o);
      assert es[..|es|-1][..n] == es[..n];
    } else {
      assert es[..n] == es;
    }
  }

  /** What read_config() hands over: one window per owner, not above any of its entries. */
  ghost predicate Ready(starts: map<MemOwner, seq<nat>>, chunk: nat, es: seq<AddrEntry>)
  {
    forall e :: e in es ==>
      e.owner in starts && |starts[e.owner]| == 1 && starts[e.owner][0] <= e.addr && 1 <= e.size <= chunk
  }

  ghost predicate DisjointPerOwner(es: seq<AddrEntry>)
  {
    forall d, e :: d in es && e in es && d.owner == e.owner ==>
      d.End() <= e.addr || e.End() <= d.addr || (d.addr == e.addr && d.size == e.size)
  }

  /** The entry lies in the window, where no later window of the list covers it. */
  predicate Holds(starts: seq<nat>, chunk: nat, e: AddrEntry, p: Placement)
  {
    && p.window < |starts| && starts[p.window] + p.pos == e.addr
    && e.End() <= starts[p.window] + chunk
    && (p.window + 1 < |starts| ==> e.End() <= starts[p.window + 1])
  }

  /** The placement p puts e into the newest window of the list r. */
  predicate InNewest(r: seq<nat>, e: AddrEntry, p: Placement)
  {
    r != [] && r[|r|-1] <= e.addr && p == Placement(|r| - 1, e.addr - r[|r|-1])
  }

  /** Entry i went to the newest window its owner had when its turn came. */
  ghost predicate PlacedByRank(starts: map<MemOwner, seq<nat>>, chunk: nat, es: seq<AddrEntry>, i: nat, p: Placement)
  {
    && i < |es| && es[i].owner in starts && starts[es[i].owner] != []
    && InNewest(Pack(starts[es[i].owner], chunk, OfOwner(es[..i+1], es[i].owner)), es[i], p)
  }

  lemma {:induction false} OfOwnerSnoc(es: seq<AddrEntry>, i: nat, o: MemOwner)
    requires i < |es|
    ensures OfOwner(es[..i+1], o) == OfOwner(es[..i], o) + (if es[i].owner == o then [es[i]] else [])
  {
    assert es[..i+1][..i] == es[..i];
  }

  lemma {:induction false} PackSnoc(ws: seq<nat>, chunk: nat, es: seq<AddrEntry>, e: AddrEntry)
    requires ws != []
    ensures Pack(ws, chunk, es + [e]) == Pack(Pack(ws, chunk, es), chunk, [e])
  {
    assert (es + [e])[..|es|] == es && [e][..0] == [];
    assert Pack(Pack(ws, chunk, es), chunk, []) == Pack(ws, chunk, es);
  }

  lemma {:induction false} OwnedPackable(starts: map<MemOwner, seq<nat>>, chunk: nat, es: seq<AddrEntry>, n: nat,
        o: MemOwner)
    requires Sorted(es) && Ready(starts, chunk, es) && n <= |es| && o in starts && |starts[o]| == 1
    ensures Packable(starts[o][0], chunk, OfOwner(es[..n], o))
  {
    OfOwnerSorted(es[..n], o);
    OfOwnerElements(es[..n], o);
    assert forall e :: e in es[..n] ==> e in es;
  }

  /** When entry i is reached, no window of its owner starts above it. */
  lemma {:induction false} LastNotAbove(starts: map<MemOwner, seq<nat>>, chunk: nat, es: seq<AddrEntry>, i: nat)
    requires Sorted(es) && Ready(starts, chunk, es) && i < |es|
    ensures es[i] in es && es[i].owner in starts && starts[es[i].owner] != []
    ensures var r := Pack(starts[es[i].owner], chunk, OfOwner(es[..i], es[i].owner)); r[|r|-1] <= es[i].addr
  {
    var e, o := es[i], es[i].owner;
    assert e in es;
    var own := OfOwner(es[..i], o);
    OwnedPackable(starts, chunk, es, i, o);
    assert starts[o] == [starts[o][0]];
    PackAscends(starts[o][0], chunk, own);
    if own != [] {
      OfOwnerElements(es[..i], o);
      assert own[|own|-1] in es[..i];
    }
  }

  /** Entry i is number |OfOwner(es[..i])| among the entries of its owner. */
  lemma {:induction false} OwnRank(es: seq<AddrEntry>, i: nat)
    requires i < |es|
    ensures var o := es[i].owner; var own, k := OfOwner(es, o), |OfOwner(es[..i], o)|;
      k < |own| && own[k] == es[i] && own[..k+1] == OfOwner(es[..i+1], o)
  {
    OfOwnerSnoc(es, i, es[i].owner);
    OfOwnerPrefix(es, i + 1, es[i].owner);
  }

  /** The placement p of the k-th entry of one owner: the newest window at its turn. */
  ghost predicate NewestAt(ws: seq<nat>, chunk: nat, own: seq<AddrEntry>, k: nat, p: Placement)
  {
    && k < |own| && ws != []
    && InNewest(Pack(ws, chunk, own[..k+1]), own[k], p)
  }

  lemma {:induction false} RankIsNth(starts: map<MemOwner, seq<nat>>, chunk: nat, es: seq<AddrEntry>, i: nat,
        p: Placement)
    requires PlacedByRank(starts, chunk, es, i, p)
    ensures var o := es[i].owner; var own, k := OfOwner(es, o), |OfOwner(es[..i], o)|;
      NewestAt(starts[o], chunk, own, k, p) && own[k] == es[i]
  {
    OwnRank(es, i);
  }

  lemma {:induction false} OwnedReady(starts: map<MemOwner, seq<nat>>, chunk: nat, es: seq<AddrEntry>, i: nat)
    requires Sorted(es) && Ready(starts, chunk, es) && DisjointPerOwner(es) && i < |es|
    ensures var o := es[i].owner;
      && o in starts && |starts[o]| == 1 && starts[o] == [starts[o][0]]
      && Packable(starts[o][0], chunk, OfOwner(es, o)) && DisjointOrSame(OfOwner(es, o))
  {
    assert es[i] in es;
    OwnedPackable(starts, chunk, es, |es|, es[i].owner);
    assert es[..|es|] == es;
    OwnedDisjoint(es, es[i].owner);
  }

  /** An entry that went to the newest window stays held by it while the list grows. */
  lemma {:induction false} RankHolds(starts: map<MemOwner, seq<nat>>, chunk: nat, es: seq<AddrEntry>, i: nat,
        p: Placement)
    requires Sorted(es) && Ready(starts, chunk, es) && DisjointPerOwner(es) && PlacedByRank(starts, chunk, es, i, p)
    ensures Holds(Pack(starts[es[i].owner], chunk, OfOwner(es, es[i].owner)), chunk, es[i], p)
  {
    var o := es[i].owner;
    var own, k := OfOwner(es, o), |OfOwner(es[..i], o)|;
    RankIsNth(starts, chunk, es, i, p);
    OwnedReady(starts, chunk, es, i);
    NthHolds(starts[o][0], chunk, own, k, p);
  }

  lemma {:induction false} OwnedDisjoint(es: seq<AddrEntry>, o: MemOwner)
    requires DisjointPerOwner(es)
    ensures DisjointOrSame(OfOwner(es, o))
  {
    OfOwnerElements(es, o);
  }

  lemma {:induction false} NthHolds(first: nat, chunk: nat, own: seq<AddrEntry>, k: nat, p: Placement)
    requires Packable(first, chunk, own) && DisjointOrSame(own) && NewestAt([first], chunk, own, k, p)
    ensures Holds(Pack([first], chunk, own), chunk, own[k], p)
  {
    PackPlaces(first, chunk, own, k);
    PackPrefix([first], chunk, own, k + 1);
  }

  /** State of the walk after i sorted entries. */
  ghost predicate BuiltUpTo(starts0: map<MemOwner, seq<nat>>, starts: map<MemOwner, seq<nat>>, chunk: nat,
        es: seq<AddrEntry>, placed: seq<Placement>, i: nat)
  {
    && i <= |es| && |placed| == i && starts.Keys == starts0.Keys
    && (forall o :: o in starts && starts0[o] != [] ==> starts[o] == Pack(starts0[o], chunk, OfOwner(es[..i], o)))
    && (forall j :: 0 <= j < i ==> PlacedByRank(starts0, chunk, es, j, placed[j]))
  }

  lemma {:induction false} BuildStep(starts0: map<MemOwner, seq<nat>>, starts: map<MemOwner, seq<nat>>, chunk: nat,
        es: seq<AddrEntry>, placed: seq<Placement>, i: nat, p: Placement)
    requires BuiltUpTo(starts0, starts, chunk, es, placed, i) && i < |es|
    requires es[i].owner in starts0 && starts0[es[i].owner] != []
    requires InNewest(Pack(starts[es[i].owner], chunk, [es[i]]), es[i], p)
    ensures BuiltUpTo(starts0, starts[es[i].owner := Pack(starts[es[i].owner], chunk, [es[i]])], chunk, es,
      placed + [p], i + 1)
  {
    var e, o, own := es[i], es[i].owner, OfOwner(es[..i], es[i].owner);
    OfOwnerSnoc(es, i, o);
    PackSnoc(starts0[o], chunk, own, e);
    assert Pack(starts0[o], chunk, OfOwner(es[..i+1], o)) == Pack(starts[o], chunk, [e]);
    assert PlacedByRank(starts0, chunk, es, i, p);
    forall q | q != o ensures OfOwner(es[..i+1], q) == OfOwner(es[..i], q) {
      OfOwnerSnoc(es, i, q);
    }
  }

  /** Entry i can be built: its owner has windows, none of them above the entry. */
  lemma {:induction false} BuildReady(starts0: map<MemOwner, seq<nat>>, starts: map<MemOwner, seq<nat>>, chunk: nat,
        es: seq<AddrEntry>, placed: seq<Placement>, i: nat)
    requires Sorted(es) && Ready(starts0, chunk, es) && BuiltUpTo(starts0, starts, chunk, es, placed, i) && i < |es|
    ensures es[i].owner in starts0 && starts0[es[i].owner] != []
    ensures NotAboveEntry(starts, es[i])
  {
    LastNotAbove(starts0, chunk, es, i);
  }

  predicate NotAboveEntry(starts: map<MemOwner, seq<nat>>, e: AddrEntry)
  {
    e.owner in starts && var r := starts[e.owner]; r != [] && r[|r|-1] <= e.addr
  }

  class Caches {
    const chunk: nat
    var starts: map<MemOwner, seq<nat>>  // window starts per owner
    var sorted: seq<AddrEntry>
    var placed: seq<Placement>           // of the sorted entries

    constructor (chunk: nat, starts: map<MemOwner, seq<nat>>)
      ensures this.chunk == chunk && this.starts == starts && sorted == [] && placed == []
    {
      this.chunk, this.starts, sorted, placed := chunk, starts, [], [];
    }

    /** BUILD_CACHE and ASSIGN_CACHE for one entry. */
    method Build(e: AddrEntry) returns (p: Placement)
      requires NotAboveEntry(starts, e)
      modifies this`starts
      ensures starts == old(starts)[e.owner := Pack(old(starts)[e.owner], chunk, [e])]
      ensures InNewest(starts[e.owner], e, p)
    {
      var list := starts[e.owner];
      var offsMin := list[|list|-1] + chunk;
      if e.addr + e.size > offsMin {
        offsMin := e.addr;
      }
      if e.addr >= offsMin {
        list := list + [e.addr];
      }
      starts := starts[e.owner := list];
      p := Placement(|list| - 1, e.addr - list[|list|-1]);
      assert Pack(old(starts)[e.owner], chunk, [e][..0]) == old(starts)[e.owner];
    }

    /** build_caches(): every owner's windows are the greedy packing of its own addresses,
        and every entry is held by its window. */
    method BuildCaches(es: seq<AddrEntry>)
      requires Ready(starts, chunk, es) && DisjointPerOwner(es)
      modifies this
      ensures sorted == SortByAddr(es) && |placed| == |sorted| && starts.Keys == old(starts).Keys
      ensures forall o :: o in starts && old(starts)[o] != [] ==>
        starts[o] == Pack(old(starts)[o], chunk, OfOwner(sorted, o))
      ensures forall i :: 0 <= i < |sorted| ==>
        sorted[i].owner in starts && Holds(starts[sorted[i].owner], chunk, sorted[i], placed[i])
      ensures forall i :: 0 <= i < |sorted| ==> PlacedByRank(old(starts), chunk, sorted, i, placed[i])
    {
      var s := SortByAddr(es);
      SortKeepsReady(starts, chunk, es);
      ghost var starts0 := starts;
      sorted, placed := s, [];
      var i := 0;
      while i < |s|
        invariant sorted == s && BuiltUpTo(starts0, starts, chunk, s, placed, i)
      {
        BuildReady(starts0, starts, chunk, s, placed, i);
        ghost var starts1 := starts;
        var p := Build(s[i]);
        BuildStep(starts0, starts1, chunk, s, placed, i, p);
        placed := placed + [p];
        i := i + 1;
      }
      assert s[..i] == s;
      forall j | 0 <= j < |s| ensures s[j].owner in starts && Holds(starts[s[j].owner], chunk, s[j], placed[j]) {
        RankHolds(starts0, chunk, s, j, placed[j]);
      }
    }
  }

  lemma {:induction false} SortKeepsElements(es: seq<AddrEntry>)
    ensures forall e :: e in SortByAddr(es) <==> e in es
  {
    SortPermutes(es);
    assert forall e :: e in SortByAddr(es) <==> e in multiset(SortByAddr(es));
  }

  lemma {:induction false} SortKeepsReady(starts: map<MemOwner, seq<nat>>, chunk: nat, es: seq<AddrEntry>)
    requires Ready(starts, chunk, es) && DisjointPerOwner(es)
    ensures Ready(starts, chunk, SortByAddr(es)) && DisjointPerOwner(SortByAddr(es))
  {
    SortKeepsElements(es);
  }
}
