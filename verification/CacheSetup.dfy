/** From packed window starts to a cache list the trainer can process. */
module CacheSetup {
  import opened Common
  import opened CachePacking
  import opened CacheBuild
  import opened CacheCycle
  import opened WriteBack

  /** The slot of a packed entry. */
  function SlotOf(e: AddrEntry, p: Placement): Slot
  {
    Slot(e.addr, e.size, p.window, p.pos, e.element)
  }

  /** Creates one clean, invalid window per start. */
  method NewCacheList(chunk: nat, starts: seq<nat>) returns (cl: CacheList)
    ensures fresh(cl) && cl.Valid() && cl.chunk == chunk && fresh(cl.Repr)
    ensures |cl.ws| == |starts| && NoneDirty(cl.ws)
    ensures forall k :: 0 <= k < |starts| ==> cl.ws[k].offs == starts[k] && cl.ws[k].start == None
  {
    var caches: seq<CacheEntry> := [];
    while |caches| < |starts|
      invariant |caches| <= |starts|
      invariant forall k :: 0 <= k < |caches| ==>
        fresh(caches[k]) && fresh(caches[k].data) && caches[k].data.Length == chunk
      invariant forall k :: 0 <= k < |caches| ==>
        caches[k].offs == starts[k] && caches[k].start == None && !caches[k].isDirty
      invariant forall j, k :: 0 <= j < k < |caches| ==> caches[j] != caches[k] && caches[j].data != caches[k].data
    {
      var c := new CacheEntry(chunk, starts[|caches|]);
      caches := caches + [c];
    }
    cl := new CacheList(chunk, caches);
  }

  /** The greedy packing of disjoint-or-identical entries gives every entry a slot in the
      zone of its window: what processing through the cache asks for. */
  lemma {:induction false} PackedSlotsArePlaced(first: nat, chunk: nat, own: seq<AddrEntry>, e: AddrEntry, p: Placement,
        ws: seq<Window>)
    requires Packable(first, chunk, own) && e in own
    requires var starts := Pack([first], chunk, own);
      && Holds(starts, chunk, e, p)
      && |ws| == |starts| && forall k :: 0 <= k < |ws| ==> ws[k].offs == starts[k]
    ensures Ascending(ws) && SlotPlaced(ws, chunk, SlotOf(e, p))
  {
    PackAscends(first, chunk, own);
  }
}
