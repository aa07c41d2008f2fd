/** Following a pointer inside an object (process_ptrmem(), src/ugtrain.cpp): when the values
    behind it are processed, over everything that happens to the object. */
module PtrFollow {
  import opened Common
  import opened Compaction
  import opened MemMgmt

  /** What the checks of the pointer say; a failed object check kicks the object. */
  datatype Answer = Pass | Fail | Kick

  /** One processing of the pointer of one object. */
  datatype Visit = Visit(ptr: nat, answer: Answer)

  /** Non-null value read last for this object, 0 when there was none. */
  function LastNonNull(h: seq<Visit>): nat
  {
    if h == [] then 0
    else if h[|h|-1].ptr != 0 then h[|h|-1].ptr
    else LastNonNull(h[..|h|-1])
  }

  /** The visit v after the visits h leads to the target being processed. */
  predicate Follows(once: bool, h: seq<Visit>, v: Visit)
    decreases |h|, 1
  {
    && v.ptr != 0 && v.ptr == LastNonNull(h) && v.answer.Pass?
    && (once ==> TimesFollowed(once, h) == 0)
  }

  function TimesFollowed(once: bool, h: seq<Visit>): nat
    decreases |h|, 0
  {
    if h == [] then 0
    else
      var before := h[..|h|-1];
      TimesFollowed(once, before) + (if Follows(once, before, h[|h|-1]) then 1 else 0)
  }

  /** Pointer that was followed last, or 0. */
  function LastFollowed(once: bool, h: seq<Visit>): nat
  {
    if h == [] then 0
    else
      var before := h[..|h|-1];
      if Follows(once, before, h[|h|-1]) then h[|h|-1].ptr else LastFollowed(once, before)
  }

  /** What the vectors hold for one object. */
  datatype Row = Row(state: PtrState, offs: nat, oldval: nat)

  /** The row of an object that has had the visits h. */
  predicate Fits(once: bool, r: Row, h: seq<Visit>)
  {
    && (r.state.Init? <==> TimesFollowed(once, h) == 0)
    && (r.state.Done? ==> once) && (r.state.Settled? ==> !once)
    && r.offs == LastFollowed(once, h)
    && (!r.state.Done? ==> r.oldval == LastNonNull(h))
  }

  /** process_ptrmem() on the row of an allocated object. */
  function RowAfter(once: bool, r: Row, v: Visit): Row
  {
    if v.ptr == 0 || r.state.Done? then r
    else if v.ptr != r.oldval then r.(oldval := v.ptr)
    else if !v.answer.Pass? then r
    else Row(if once then Done else Settled, v.ptr, r.oldval)
  }

  predicate RowFollows(r: Row, v: Visit)
  {
    v.ptr != 0 && !r.state.Done? && v.ptr == r.oldval && v.answer.Pass?
  }

  lemma {:induction false} VisitFits(once: bool, r: Row, h: seq<Visit>, v: Visit)
    requires Fits(once, r, h)
    ensures Fits(once, RowAfter(once, r, v), h + [v])
    ensures RowFollows(r, v) <==> Follows(once, h, v)
  {
    assert (h + [v])[..|h|] == h;
  }

  // ---------------------------------------------------------------------------
  // What the history means
  // ---------------------------------------------------------------------------

  /** The value p was read for this object, and only null pointers after it. */
  predicate ReadLast(h: seq<Visit>, k: nat, p: nat)
  {
    k < |h| && h[k].ptr == p && forall j :: k < j < |h| ==> h[j].ptr == 0
  }

  lemma {:induction false} LastNonNullIsReadLast(h: seq<Visit>, p: nat)
    requires p != 0
    ensures LastNonNull(h) == p <==> exists k :: ReadLast(h, k, p)
  {
    if h != [] {
      var n := |h| - 1;
      LastNonNullIsReadLast(h[..n], p);
      if h[n].ptr != 0 {
        if h[n].ptr == p { assert ReadLast(h, n, p); }
      } else if LastNonNull(h[..n]) == p {
        var k :| ReadLast(h[..n], k, p);
        assert ReadLast(h, k, p);
      } else if k :| ReadLast(h, k, p) {
        assert ReadLast(h[..n], k, p);
      }
    }
  }

  /** A pointer is followed only when it is not null and the same value was the last non-null
      one read for the same object before; and then always, unless a check fails or the
      pointer is to be followed once and has been. */
  lemma {:induction false} FollowedIffSeenTwice(once: bool, h: seq<Visit>, v: Visit)
    ensures Follows(once, h, v) <==>
      && v.ptr != 0 && (exists k :: ReadLast(h, k, v.ptr)) && v.answer.Pass?
      && (once ==> TimesFollowed(once, h) == 0)
  {
    if v.ptr != 0 { LastNonNullIsReadLast(h, v.ptr); }
  }

  /** However often an object is visited, a once pointer is followed at most once. */
  lemma {:induction false} OnceAtMostOnce(h: seq<Visit>)
    ensures TimesFollowed(true, h) <= 1
  {
    if h != [] { OnceAtMostOnce(h[..|h|-1]); }
  }

  /** And its target stays where it was found then. */
  lemma {:induction false} OnceKeepsTarget(h: seq<Visit>, more: seq<Visit>)
    requires TimesFollowed(true, h) == 1
    ensures TimesFollowed(true, h + more) == 1 && LastFollowed(true, h + more) == LastFollowed(true, h)
  {
    if more == [] {
      assert h + more == h;
    } else {
      var n := |more| - 1;
      OnceKeepsTarget(h, more[..n]);
      assert (h + more)[..|h| + n] == h + more[..n];
    }
  }

  ghost predicate RowsFit(once: bool, state: seq<PtrState>, offs: seq<nat>, oldval: seq<nat>, hist: seq<seq<Visit>>)
  {
    && |state| == |offs| == |oldval| == |hist|
    && forall i :: 0 <= i < |hist| ==> Fits(once, Row(state[i], offs[i], oldval[i]), hist[i])
  }

  /** Compaction moves rows and histories together. */
  lemma {:induction false} KeptRowsFit(once: bool, addrs: seq<nat>, state: seq<PtrState>, offs: seq<nat>,
        oldval: seq<nat>, hist: seq<seq<Visit>>)
    requires RowsFit(once, state, offs, oldval, hist) && |hist| <= |addrs|
    ensures RowsFit(once, Keep(addrs, state), Keep(addrs, offs), Keep(addrs, oldval), Keep(addrs, hist))
  {
    KeepLength(addrs, state);
    KeepLength(addrs, offs);
    KeepLength(addrs, oldval);
    KeepLength(addrs, hist);
    forall j | 0 <= j < |Keep(addrs, hist)|
      ensures Fits(once, Row(Keep(addrs, state)[j], Keep(addrs, offs)[j], Keep(addrs, oldval)[j]), Keep(addrs, hist)[j])
    {
      var i := KeepOnly(addrs, hist, j);
      KeepAt(addrs, state, i);
      KeepAt(addrs, offs, i);
      KeepAt(addrs, oldval, i);
    }
  }

  lemma {:induction false} KeptEven(addrs: seq<nat>, c: Columns, n: nat)
    requires c.Even(n) && n <= |addrs|
    ensures c.Kept(addrs).Even(Rank(addrs, n))
  {
    KeepLength(addrs, c.oldval);
    KeepLength(addrs, c.value);
    KeepLength(addrs, c.cstr);
  }

  lemma {:induction false} KeptAllEven(addrs: seq<nat>, b: Behind, n: nat)
    requires b.Even(n) && n <= |addrs|
    ensures b.Kept(addrs).Even(Rank(addrs, n))
  {
    KeepLength(addrs, b.state);
    KeepLength(addrs, b.offs);
    forall j | 0 <= j < |b.columns| ensures b.columns[j].Kept(addrs).Even(Rank(addrs, n)) {
      KeptEven(addrs, b.columns[j], n);
    }
  }

  ghost predicate ViewFits(once: bool, v: GroupView, hist: seq<seq<Visit>>)
  {
    && v.Even(|hist|) && v.behind.Some?
    && RowsFit(once, v.behind.value.state, v.behind.value.offs, v.own.oldval, hist)
  }

  lemma {:induction false} KeptViewFits(once: bool, addrs: seq<nat>, v: GroupView, hist: seq<seq<Visit>>)
    requires ViewFits(once, v, hist) && |hist| <= |addrs|
    ensures ViewFits(once, v.Kept(addrs), Keep(addrs, hist)) && |Keep(addrs, hist)| <= |Keep(addrs, addrs)|
  {
    KeepLength(addrs, hist);
    KeepLength(addrs, addrs);
    if |hist| < |addrs| { RankOrder(addrs, |hist|, |addrs|); }
    KeptEven(addrs, v.own, |hist|);
    KeptAllEven(addrs, v.behind.value, |hist|);
    KeptRowsFit(once, addrs, v.behind.value.state, v.behind.value.offs, v.own.oldval, hist);
  }

  // ---------------------------------------------------------------------------
  // One pointer of one class, with the history of every object
  // ---------------------------------------------------------------------------

  class Follower {
    const e: CfgEntry              // the pointer
    const d: DynMemEntry           // its class
    const p: PtrMemEntry           // its target
    const once: bool
    ghost var hist: seq<seq<Visit>>   // visits of each object with elements, since it got them

    ghost predicate Valid()
      reads this, Group(e), d
    {
      && e.dynmem == d && e.ptrtgt == p && d.Valid() && |hist| <= |d.vMaddr|
      && Aligned(e, |hist|) && RowsFit(once, p.vState, p.vOffs, e.vOldval, hist)
    }

    ghost function RowAt(i: nat): Row
      requires i < |p.vState| && i < |p.vOffs| && i < |e.vOldval|
      reads e, p
    {
      Row(p.vState[i], p.vOffs[i], e.vOldval[i])
    }

    constructor (e: CfgEntry, d: DynMemEntry, p: PtrMemEntry, once: bool)
      requires e.dynmem == d && e.ptrtgt == p && d.Valid() && Aligned(e, 0)
      ensures Valid() && hist == [] && this.e == e && this.d == d && this.p == p && this.once == once
    {
      this.e, this.d, this.p, this.once := e, d, p, once;
      hist := [];
    }

    /** process_ptrmem(): the target is processed exactly when Follows says so, at the pointer
        just read; a marked object is not looked at. */
    method Process(memIdx: nat, ptr: nat, answer: Answer) returns (followed: bool)
      requires Valid() && memIdx < |hist|
      modifies this, e`vOldval, p`vState, p`vOffs, d
      ensures Valid()
      ensures old(d.vMaddr[memIdx]) == 0 ==> !followed && hist == old(hist) && d.vMaddr == old(d.vMaddr)
      ensures old(d.vMaddr[memIdx]) != 0 ==> (followed <==> Follows(once, old(hist[memIdx]), Visit(ptr, answer)))
      ensures old(d.vMaddr[memIdx]) != 0 ==> hist == old(hist)[memIdx := old(hist[memIdx]) + [Visit(ptr, answer)]]
      ensures followed ==> p.vOffs[memIdx] == ptr && d.vMaddr == old(d.vMaddr)
      ensures d.vMaddr == old(d.vMaddr) || (answer.Kick? && d.vMaddr == old(d.vMaddr)[memIdx := 0])
    {
      followed := false;
      if d.vMaddr[memIdx] == 0 { return; }
      ghost var r, v := RowAt(memIdx), Visit(ptr, answer);
      VisitFits(once, r, hist[memIdx], v);
      followed := VisitRow(memIdx, ptr, answer);
      hist := hist[memIdx := hist[memIdx] + [v]];
      forall i | 0 <= i < |hist| ensures Fits(once, RowAt(i), hist[i]) {
        if i != memIdx { assert RowAt(i) == old(RowAt(i)) && hist[i] == old(hist[i]); }
      }
    }

    /** The body of process_ptrmem() for an allocated object. */
    method VisitRow(memIdx: nat, ptr: nat, answer: Answer) returns (followed: bool)
      requires d.Valid() && memIdx < |d.vMaddr| && d.vMaddr[memIdx] != 0
      requires memIdx < |p.vState| && memIdx < |p.vOffs| && memIdx < |e.vOldval|
      modifies e`vOldval, p`vState, p`vOffs, d
      ensures |p.vState| == |old(p.vState)| && |p.vOffs| == |old(p.vOffs)| && |e.vOldval| == |old(e.vOldval)|
      ensures RowAt(memIdx) == RowAfter(once, old(RowAt(memIdx)), Visit(ptr, answer))
      ensures forall i :: 0 <= i < |p.vState| && i < |p.vOffs| && i < |e.vOldval| && i != memIdx ==>
        RowAt(i) == old(RowAt(i))
      ensures followed <==> RowFollows(old(RowAt(memIdx)), Visit(ptr, answer))
      ensures d.Valid() && (d.vMaddr == old(d.vMaddr) || (answer.Kick? && d.vMaddr == old(d.vMaddr)[memIdx := 0]))
      ensures answer.Pass? ==> d.vMaddr == old(d.vMaddr)
    {
      followed := false;
      if ptr == 0 || p.vState[memIdx] == Done { return; }
      if ptr == e.vOldval[memIdx] {
        if answer != Pass {
          if answer == Kick { d.MarkKicked(memIdx); }
          return;
        }
        p.vState := p.vState[memIdx := if once then Done else Settled];
        p.vOffs := p.vOffs[memIdx := ptr];
        followed := true;
      } else {
        e.vOldval := e.vOldval[memIdx := ptr];
      }
    }

    /** alloc_dynmem() for this pointer: objects without elements start without a history. */
    method Alloc()
      requires Valid()
      modifies this, Group(e)
      ensures Valid() && |hist| == |d.vMaddr| && old(hist) <= hist
      ensures forall i :: |old(hist)| <= i < |hist| ==> hist[i] == []
    {
      ghost var n := |d.vMaddr|;
      label Before:
      AllocValues(e, d.vMaddr);
      DynNotInGroup(d, e);
      hist := hist + seq(n - |hist|, _ => []);
      forall i | 0 <= i < |hist| ensures Fits(once, RowAt(i), hist[i]) {
        if i < |old(hist)| { assert RowAt(i) == old@Before(RowAt(i)); }
      }
    }

    /** free_dynmem() on a configuration with this pointer: every object that stays keeps its
        history, at its new index. */
    method Free(cfg: seq<CfgEntry>, i: nat)
      requires Valid() && i < |cfg| && cfg[i] == e
      requires Separate(cfg) && forall k :: 0 <= k < |cfg| ==> ReadyToFree(cfg[k])
      modifies this, Groups(cfg), Classes(cfg)
      ensures Valid() && hist == Keep(old(d.vMaddr), old(hist)) && d.vMaddr == Keep(old(d.vMaddr), old(d.vMaddr))
    {
      ghost var addrs, v, n := d.vMaddr, ViewOf(e), |hist|;
      FromRows();
      FreeRows(cfg, i);
      hist := Keep(addrs, hist);
      KeptViewFits(once, addrs, v, old(hist));
      ToRows();
    }

    /** free_dynmem() as far as this pointer is concerned. */
    method FreeRows(cfg: seq<CfgEntry>, i: nat)
      requires e.dynmem == d && i < |cfg| && cfg[i] == e
      requires Separate(cfg) && forall k :: 0 <= k < |cfg| ==> ReadyToFree(cfg[k])
      modifies Groups(cfg), Classes(cfg)
      ensures ViewOf(e) == old(ViewOf(e)).Kept(old(d.vMaddr))
      ensures d.Valid() && d.vMaddr == Keep(old(d.vMaddr), old(d.vMaddr))
      ensures hist == old(hist)
    {
      NotInGroups(cfg);
      FreeDynmem(cfg);
      assert d in Classes(cfg);
    }

    ghost predicate ViewValid()
      reads this, Group(e), d
    {
      && e.dynmem == d && e.ptrtgt == p && d.Valid() && |hist| <= |d.vMaddr| && p.Distinct() && e !in p.cfg
      && ViewFits(once, ViewOf(e), hist)
    }

    lemma {:induction false} FromRows()
      requires Valid()
      ensures ViewValid()
    {}

    lemma {:induction false} ToRows()
      requires ViewValid()
      ensures Valid()
    {
      forall j | 0 <= j < |p.cfg| ensures p.cfg[j].Vals().Even(|hist|) {
        assert p.View().columns[j] == p.cfg[j].Vals();
      }
    }

    lemma {:induction false} NotInGroups(cfg: seq<CfgEntry>)
      ensures this !in Groups(cfg)
    {
      if cfg != [] { NotInGroups(cfg[1..]); }
    }
  }
}
