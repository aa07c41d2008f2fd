/** Allocation and freeing of objects and values (src/memmgmt.cpp): per class a vector of
    addresses and sizes, per configured value the vectors of old values, wish values and
    strings, per pointer target the following state. */
module MemMgmt {
  import opened Common
  import opened Compaction

  datatype PtrState = Init | Settled | Done

  class DynMemEntry {
    var vMaddr: seq<nat>     // 0 marks an object to be removed
    var vMsize: seq<nat>
    var numAlloc: nat
    var numFreed: nat
    ghost var kicked: nat    // objects zeroed by object checks since the last compaction

    /** Every marked object was either freed by the game or kicked. */
    ghost predicate Valid()
      reads this
    {
      |vMaddr| == |vMsize| <= U32_MAX && Zeros(vMaddr) == numFreed + kicked
    }

    constructor ()
      ensures Valid() && vMaddr == [] && kicked == 0 && numFreed == 0
    {
      vMaddr, vMsize, numAlloc, numFreed, kicked := [], [], 0, 0, 0;
    }

    /** find_addr_idx() */
    method FindAddrIdx(addr: nat) returns (idx: int)
      ensures -1 <= idx < |vMaddr|
      ensures idx >= 0 ==> vMaddr[idx] == addr && addr !in vMaddr[..idx]
      ensures idx < 0 ==> addr !in vMaddr
    {
      for i := 0 to |vMaddr|
        invariant addr !in vMaddr[..i]
      {
        if vMaddr[i] == addr { return i; }
      }
      return -1;
    }

    /** The marking in clear_dynmem_addr(). */
    method MarkFreed(idx: nat)
      requires Valid() && idx < |vMaddr| && vMaddr[idx] != 0
      modifies this
      ensures Valid() && vMaddr == old(vMaddr)[idx := 0] && vMsize == old(vMsize)[idx := 0]
      ensures numFreed == old(numFreed) + 1 && kicked == old(kicked) && numAlloc == old(numAlloc)
    {
      ZerosAfterMark(vMaddr, idx);
      vMaddr, vMsize := vMaddr[idx := 0], vMsize[idx := 0];
      numFreed := numFreed + 1;
    }

    /** The marking of an object whose object check failed, in process_checks(). */
    method MarkKicked(idx: nat)
      requires Valid() && idx < |vMaddr| && vMaddr[idx] != 0
      modifies this
      ensures Valid() && vMaddr == old(vMaddr)[idx := 0] && vMsize == old(vMsize)
      ensures kicked == old(kicked) + 1 && numFreed == old(numFreed) && numAlloc == old(numAlloc)
    {
      ZerosAfterMark(vMaddr, idx);
      vMaddr, kicked := vMaddr[idx := 0], kicked + 1;
    }

    /** The appending in alloc_dynmem_addr(). */
    method Append(addr: nat, size: nat)
      requires Valid() && addr != 0 && |vMaddr| < U32_MAX
      modifies this
      ensures Valid() && vMaddr == old(vMaddr) + [addr] && vMsize == old(vMsize) + [size]
      ensures numAlloc == old(numAlloc) + 1 && kicked == old(kicked) && numFreed == old(numFreed)
    {
      ZerosAfterAppend(vMaddr, addr);
      vMaddr, vMsize := vMaddr + [addr], vMsize + [size];
      numAlloc := numAlloc + 1;
    }

    /** Its body: a marked object is erased, and the index steps back and forward again. */
    method CompactOne(memIdx: nat, numKicked: nat, ghost addrs: seq<nat>, ghost sizes: seq<nat>, ghost i: nat)
      returns (next: nat, count: nat)
      requires Compacting(addrs, sizes, i, vMaddr, vMsize, memIdx, numKicked) && memIdx < |vMaddr| && |addrs| <= U32_MAX
      modifies `vMaddr, `vMsize
      ensures i < |addrs| && Compacting(addrs, sizes, i + 1, vMaddr, vMsize, next, count)
    {
      CompactStep(addrs, sizes, i, vMaddr, vMsize, memIdx, numKicked);
      next, count := memIdx, numKicked;
      if vMaddr[memIdx] == 0 {
        vMaddr := Erase(vMaddr, memIdx);
        vMsize := Erase(vMsize, memIdx);
        count := count + 1;
        next := Dec32(next);
      }
      next := Inc32(next);
    }

    /** The second loop of free_dynmem(): erases the marked objects.  What it counts, less
        num_freed, is exactly the number of kicked objects. */
    method Compact() returns (numKicked: nat)
      requires Valid()
      modifies this
      ensures Valid() && vMaddr == Keep(old(vMaddr), old(vMaddr)) && vMsize == Keep(old(vMaddr), old(vMsize))
      ensures 0 !in vMaddr && numFreed == 0 && kicked == 0 && numAlloc == old(numAlloc)
      ensures numKicked == old(kicked) && |vMaddr| + numKicked + old(numFreed) == |old(vMaddr)|
    {
      ghost var addrs, sizes := vMaddr, vMsize;
      ghost var i := 0;
      var memIdx: nat := 0;
      numKicked := 0;
      CompactStarts(addrs, sizes);
      while memIdx < |vMaddr|
        invariant Compacting(addrs, sizes, i, vMaddr, vMsize, memIdx, numKicked)
        modifies `vMaddr, `vMsize
        decreases |addrs| - i
      {
        memIdx, numKicked := CompactOne(memIdx, numKicked, addrs, sizes, i);
        i := i + 1;
      }
      CompactEnds(addrs, sizes, i, vMaddr, vMsize, memIdx, numKicked);
      numKicked := numKicked - numFreed;
      numFreed, kicked := 0, 0;
    }
  }

  /** Addresses and sizes while object i is about to be looked at; it stands at idx. */
  ghost predicate Compacting(addrs: seq<nat>, sizes: seq<nat>, i: nat, m: seq<nat>, s: seq<nat>, idx: nat, count: nat)
  {
    && i <= |addrs| && |sizes| == |addrs| && idx <= i && |m| == |s| == idx + |addrs| - i
    && m[idx..] == addrs[i..]
    && Apply(m, Erasures(addrs, i, idx, |addrs|)) == Keep(addrs, addrs)
    && Apply(s, Erasures(addrs, i, idx, |addrs|)) == Keep(addrs, sizes)
    && count + |Erasures(addrs, i, idx, |addrs|)| == Zeros(addrs)
  }

  lemma {:induction false} CompactStarts(addrs: seq<nat>, sizes: seq<nat>)
    requires |addrs| == |sizes|
    ensures Compacting(addrs, sizes, 0, addrs, sizes, 0, 0)
  {
    ErasuresKeep(addrs, addrs);
    ErasuresKeep(addrs, sizes);
    ErasuresCount(addrs, 0, 0, |addrs|);
  }

  lemma {:induction false} CompactStep(addrs: seq<nat>, sizes: seq<nat>, i: nat, m: seq<nat>, s: seq<nat>, idx: nat,
        count: nat)
    requires Compacting(addrs, sizes, i, m, s, idx, count) && idx < |m|
    ensures i < |addrs| && idx < |s|
    ensures m[idx] == 0 ==> Compacting(addrs, sizes, i + 1, Erase(m, idx), Erase(s, idx), idx, count + 1)
    ensures m[idx] != 0 ==> Compacting(addrs, sizes, i + 1, m, s, idx + 1, count)
  {
    assert m[idx] == m[idx..][0] == addrs[i];
    EraseFirst(m, addrs, i, idx, |addrs|);
    EraseFirst(s, addrs, i, idx, |addrs|);
    assert addrs[i+1..] == addrs[i..][1..];
    if m[idx] == 0 {
      assert Erase(m, idx)[idx..] == m[idx..][1..];
    } else {
      assert m[idx+1..] == m[idx..][1..];
    }
  }

  lemma {:induction false} CompactEnds(addrs: seq<nat>, sizes: seq<nat>, i: nat, m: seq<nat>, s: seq<nat>, idx: nat,
        count: nat)
    requires Compacting(addrs, sizes, i, m, s, idx, count) && idx >= |m|
    ensures m == Keep(addrs, addrs) && s == Keep(addrs, sizes) && count == Zeros(addrs)
    ensures |m| == |s| == |addrs| - count && 0 !in m && Zeros(m) == 0
  {
    KeepLength(addrs, addrs);
    KeepLength(addrs, sizes);
    KeepNonzero(addrs);
  }

  lemma {:induction false} RankAfterMark(addrs: seq<nat>, idx: nat, i: nat)
    requires idx < |addrs| && addrs[idx] != 0 && i <= |addrs|
    ensures Rank(addrs[idx := 0], i) == Rank(addrs, i) - (if idx < i then 1 else 0)
  {
    if i > 0 { RankAfterMark(addrs, idx, i - 1); }
  }

  lemma {:induction false} ZerosAfterMark(addrs: seq<nat>, idx: nat)
    requires idx < |addrs| && addrs[idx] != 0
    ensures Zeros(addrs[idx := 0]) == Zeros(addrs) + 1
  {
    RankAfterMark(addrs, idx, |addrs|);
  }

  lemma {:induction false} RankOfPrefix(addrs: seq<nat>, more: seq<nat>, i: nat)
    requires i <= |addrs|
    ensures Rank(addrs + more, i) == Rank(addrs, i)
  {
    if i > 0 { RankOfPrefix(addrs, more, i - 1); }
  }

  lemma {:induction false} ZerosAfterAppend(addrs: seq<nat>, addr: nat)
    requires addr != 0
    ensures Zeros(addrs + [addr]) == Zeros(addrs)
  {
    RankOfPrefix(addrs, [addr], |addrs|);
  }

  lemma {:induction false} KeepNonzero(addrs: seq<nat>)
    ensures 0 !in Keep(addrs, addrs) && Zeros(Keep(addrs, addrs)) == 0
  {
    var k := Keep(addrs, addrs);
    forall j | 0 <= j < |k| ensures k[j] != 0 {
      var i := KeepOnly(addrs, addrs, j);
    }
    RankAll(k, |k|);
  }

  lemma {:induction false} RankAll(addrs: seq<nat>, i: nat)
    requires 0 !in addrs && i <= |addrs|
    ensures Rank(addrs, i) == i
  {
    if i > 0 { RankAll(addrs, i - 1); }
  }

  // ---------------------------------------------------------------------------
  // Values per object
  // ---------------------------------------------------------------------------

  /** Old values, wish values and strings, one of each per object. */
  datatype Columns = Columns(oldval: seq<nat>, value: seq<nat>, cstr: seq<Option<nat>>)
  {
    predicate Even(n: nat) { |oldval| == n && |value| == n && |cstr| == n }

    function Erased(k: nat): Columns { Columns(Erase(oldval, k), Erase(value, k), Erase(cstr, k)) }

    function Applied(ks: seq<nat>): Columns { Columns(Apply(oldval, ks), Apply(value, ks), Apply(cstr, ks)) }

    function Kept(addrs: seq<nat>): Columns { Columns(Keep(addrs, oldval), Keep(addrs, value), Keep(addrs, cstr)) }

    /** With the default element of one more object. */
    function Pushed(wish: nat, isString: bool): Columns
    {
      Columns(oldval + [0], value + [wish], cstr + [if isString then Some(0) else None])
    }

    /** With the default elements of k more objects. */
    function Padded(k: nat, wish: nat, isString: bool): Columns
    {
      Columns(Pad(oldval, k, 0), Pad(value, k, wish), Pad(cstr, k, if isString then Some(0) else None))
    }
  }

  function Pad<T>(s: seq<T>, k: nat, x: T): (r: seq<T>)
    ensures |r| == |s| + k && s <= r && forall i :: |s| <= i < |r| ==> r[i] == x
  {
    s + seq(k, _ => x)
  }

  lemma {:induction false} PadOneMore<T>(s: seq<T>, k: nat, x: T)
    ensures Pad(s, k, x) + [x] == Pad(s, k + 1, x) && Pad(s, 0, x) == s
  {}

  lemma {:induction false} PaddedOneMore(c: Columns, k: nat, wish: nat, isString: bool)
    ensures c.Padded(k, wish, isString).Pushed(wish, isString) == c.Padded(k + 1, wish, isString)
    ensures c.Padded(0, wish, isString) == c
  {
    PadOneMore(c.oldval, k, 0);
    PadOneMore(c.value, k, wish);
    PadOneMore(c.cstr, k, if isString then Some(0) else None);
  }

  /** New objects have no old value, the configured wish, and an empty string buffer where one is
      needed; those before them keep theirs. */
  lemma {:induction false} PaddedMeans(c: Columns, k: nat, wish: nat, isString: bool)
    ensures
      var p := c.Padded(k, wish, isString);
      && c.oldval <= p.oldval && c.value <= p.value && c.cstr <= p.cstr
      && |p.oldval| == |c.oldval| + k && |p.value| == |c.value| + k && |p.cstr| == |c.cstr| + k
      && (forall i :: |c.oldval| <= i < |p.oldval| ==> p.oldval[i] == 0)
      && (forall i :: |c.value| <= i < |p.value| ==> p.value[i] == wish)
      && (forall i :: |c.cstr| <= i < |p.cstr| ==> p.cstr[i] == if isString then Some(0) else None)
  {}

  lemma {:induction false} ColumnsKeep(addrs: seq<nat>, c: Columns, n: nat)
    requires c.Even(n) && n <= |addrs|
    ensures c.Applied(Erasures(addrs, 0, 0, n)) == c.Kept(addrs)
  {
    ErasuresKeep(addrs, c.oldval);
    ErasuresKeep(addrs, c.value);
    ErasuresKeep(addrs, c.cstr);
  }

  lemma {:induction false} ColumnsStep(c: Columns, addrs: seq<nat>, i: nat, o: nat, n: nat)
    requires i < n <= |addrs|
    ensures c.Applied(Erasures(addrs, i, o, n)) ==
      if addrs[i] == 0 then c.Erased(o).Applied(Erasures(addrs, i + 1, o, n))
        else c.Applied(Erasures(addrs, i + 1, o + 1, n))
  {
    EraseFirst(c.oldval, addrs, i, o, n);
    EraseFirst(c.value, addrs, i, o, n);
    EraseFirst(c.cstr, addrs, i, o, n);
  }

  class CfgEntry {
    const dynmem: DynMemEntry?
    const ptrtgt: PtrMemEntry?
    const wish: nat          // configured value
    const isString: bool
    var vOldval: seq<nat>
    var vValue: seq<nat>
    var vCstr: seq<Option<nat>>

    constructor (dynmem: DynMemEntry?, ptrtgt: PtrMemEntry?, wish: nat, isString: bool)
      ensures this.dynmem == dynmem && this.ptrtgt == ptrtgt && this.wish == wish && this.isString == isString
      ensures Vals() == Columns([], [], [])
    {
      this.dynmem, this.ptrtgt, this.wish, this.isString := dynmem, ptrtgt, wish, isString;
      vOldval, vValue, vCstr := [], [], [];
    }

    function Vals(): Columns
      reads this
    {
      Columns(vOldval, vValue, vCstr)
    }

    method EraseAt(k: nat)
      requires k < |vOldval| && k < |vValue| && k < |vCstr|
      modifies this
      ensures Vals() == old(Vals()).Erased(k)
    {
      vOldval, vValue, vCstr := Erase(vOldval, k), Erase(vValue, k), Erase(vCstr, k);
    }

    /** The default element of a new object: no old value, the configured wish, an empty
        string buffer where one is needed. */
    method PushDefault()
      modifies this
      ensures Vals() == old(Vals()).Pushed(wish, isString)
      ensures vOldval == old(vOldval) + [0] && vValue == old(vValue) + [wish]
      ensures vCstr == old(vCstr) + [if isString then Some(0) else None]
    {
      vOldval, vValue, vCstr := vOldval + [0], vValue + [wish], vCstr + [if isString then Some(0) else None];
    }
  }

  ghost function ColumnsOf(cfg: seq<CfgEntry>): (r: seq<Columns>)
    reads cfg
    ensures |r| == |cfg| && forall j :: 0 <= j < |cfg| ==> r[j] == cfg[j].Vals()
  {
    if cfg == [] then [] else [cfg[0].Vals()] + ColumnsOf(cfg[1..])
  }

  /** Everything a pointer target keeps per object. */
  datatype Behind = Behind(state: seq<PtrState>, offs: seq<nat>, columns: seq<Columns>)
  {
    ghost predicate Even(n: nat)
    {
      |state| == n && |offs| == n && forall j :: 0 <= j < |columns| ==> columns[j].Even(n)
    }

    function Erased(k: nat): Behind
    {
      Behind(Erase(state, k), Erase(offs, k), seq(|columns|, j requires 0 <= j < |columns| => columns[j].Erased(k)))
    }

    function Applied(ks: seq<nat>): Behind
    {
      Behind(Apply(state, ks), Apply(offs, ks), seq(|columns|, j requires 0 <= j < |columns| => columns[j].Applied(ks)))
    }

    function Kept(addrs: seq<nat>): Behind
    {
      Behind(Keep(addrs, state), Keep(addrs, offs),
        seq(|columns|, j requires 0 <= j < |columns| => columns[j].Kept(addrs)))
    }
  }

  lemma {:induction false} SameColumns(b: Behind, columns: seq<Columns>, k: nat)
    requires |columns| == |b.columns| && forall j :: 0 <= j < |columns| ==> columns[j] == b.columns[j].Erased(k)
    ensures columns == b.Erased(k).columns
  {}

  class PtrMemEntry {
    const cfg: seq<CfgEntry>   // the values behind the pointer
    var vState: seq<PtrState>
    var vOffs: seq<nat>

    ghost function View(): Behind
      reads this, cfg
    {
      Behind(vState, vOffs, ColumnsOf(cfg))
    }

    ghost predicate Distinct()
    {
      forall j, k :: 0 <= j < k < |cfg| ==> cfg[j] != cfg[k]
    }

    /** One state, offset and element of every value per object. */
    ghost predicate Even(n: nat)
      reads this, cfg
    {
      |vState| == n && |vOffs| == n && forall j :: 0 <= j < |cfg| ==> cfg[j].Vals().Even(n)
    }

    /** free_ptrmem() */
    method FreePtrmem(k: nat, ghost n: nat)
      requires Even(n) && k < n && Distinct()
      modifies this, cfg
      ensures View() == old(View()).Erased(k) && Even(n - 1)
    {
      ghost var was := View();
      vState, vOffs := Erase(vState, k), Erase(vOffs, k);
      EraseColumns(k, n);
      SameColumns(was, ColumnsOf(cfg), k);
    }

    method EraseColumns(k: nat, ghost n: nat)
      requires k < n && Distinct() && forall j :: 0 <= j < |cfg| ==> cfg[j].Vals().Even(n)
      modifies cfg
      ensures forall j :: 0 <= j < |cfg| ==> cfg[j].Vals() == old(cfg[j].Vals()).Erased(k) && cfg[j].Vals().Even(n - 1)
    {
      for i := 0 to |cfg|
        invariant forall j :: 0 <= j < i ==> cfg[j].Vals() == old(cfg[j].Vals()).Erased(k)
        invariant forall j :: i <= j < |cfg| ==> cfg[j].Vals() == old(cfg[j].Vals())
      {
        cfg[i].EraseAt(k);
      }
    }

    /** alloc_ptrmem() */
    method AllocPtrmem(ghost n: nat)
      requires Even(n) && Distinct()
      modifies this, cfg
      ensures Even(n + 1)
      ensures vState == old(vState) + [Init] && vOffs == old(vOffs) + [0]
      ensures forall j :: 0 <= j < |cfg| ==> cfg[j].Vals() == old(cfg[j].Vals()).Pushed(cfg[j].wish, cfg[j].isString)
    {
      vState, vOffs := vState + [Init], vOffs + [0];
      for i := 0 to |cfg|
        invariant forall j :: 0 <= j < i ==> cfg[j].Vals() == old(cfg[j].Vals()).Pushed(cfg[j].wish, cfg[j].isString)
        invariant forall j :: i <= j < |cfg| ==> cfg[j].Vals() == old(cfg[j].Vals())
        modifies cfg
      {
        cfg[i].PushDefault();
      }
    }
  }

  // ---------------------------------------------------------------------------
  // The whole configuration
  // ---------------------------------------------------------------------------

  /** The objects a configured value brings along: itself and what its pointer leads to. */
  ghost function Group(e: CfgEntry): set<object>
  {
    var p := e.ptrtgt;
    {e} + (if p == null then {} else {p as object} + set j | 0 <= j < |p.cfg| :: p.cfg[j] as object)
  }

  /** Everything the group keeps per object. */
  datatype GroupView = GroupView(own: Columns, behind: Option<Behind>)
  {
    ghost predicate Even(n: nat) { own.Even(n) && (behind.Some? ==> behind.value.Even(n)) }

    function Erased(k: nat): GroupView
    {
      GroupView(own.Erased(k), if behind.None? then None else Some(behind.value.Erased(k)))
    }

    function Applied(ks: seq<nat>): GroupView
    {
      GroupView(own.Applied(ks), if behind.None? then None else Some(behind.value.Applied(ks)))
    }

    function Kept(addrs: seq<nat>): GroupView
    {
      GroupView(own.Kept(addrs), if behind.None? then None else Some(behind.value.Kept(addrs)))
    }
  }

  ghost function ViewOf(e: CfgEntry): GroupView
    reads Group(e)
  {
    GroupView(e.Vals(), if e.ptrtgt == null then None else Some(e.ptrtgt.View()))
  }

  /** The value and everything behind its pointer have elements for n objects. */
  ghost predicate Aligned(e: CfgEntry, n: nat)
    reads Group(e)
  {
    e.Vals().Even(n) && (e.ptrtgt != null ==> e.ptrtgt.Even(n) && e.ptrtgt.Distinct() && e !in e.ptrtgt.cfg)
  }

  /** One marked object: its element is erased from every vector of the group. */
  method EraseObject(e: CfgEntry, k: nat, ghost n: nat)
    requires Aligned(e, n) && k < n
    modifies Group(e)
    ensures Aligned(e, n - 1) && ViewOf(e) == old(ViewOf(e)).Erased(k)
  {
    var p := e.ptrtgt;
    e.EraseAt(k);
    if p != null {
      assert p.View() == old(p.View()) && p.Even(n);
      label Erased:
      p.FreePtrmem(k, n);
      assert e.Vals() == old@Erased(e.Vals());
    }
  }

  /** The inner loop of free_dynmem()'s first loop: the two indices move over addresses and
      values, the second one steps back (below zero at the front) after each erasing. */
  method FreeValues(e: CfgEntry, addrs: seq<nat>)
    requires Aligned(e, |e.vOldval|) && |e.vOldval| <= |addrs| <= U32_MAX
    modifies Group(e)
    ensures ViewOf(e) == old(ViewOf(e)).Kept(addrs)
    ensures Aligned(e, |e.vOldval|)
  {
    ghost var n, kept := |e.vOldval|, ViewOf(e).Kept(addrs);
    FreeingStarts(e, addrs, n, kept);
    FreeMarked(e, addrs, n, kept);
  }

  method FreeMarked(e: CfgEntry, addrs: seq<nat>, ghost n: nat, ghost kept: GroupView)
    requires Freeing(e, addrs, 0, 0, n, kept) && n <= U32_MAX
    modifies Group(e)
    ensures ViewOf(e) == kept && Aligned(e, |e.vOldval|)
  {
    var memIdx: nat, ovIdx: nat := 0, 0;
    while memIdx < |addrs| && ovIdx < |e.vOldval|
      invariant Freeing(e, addrs, memIdx, ovIdx, n, kept)
      decreases n - memIdx
    {
      ovIdx := FreeOne(e, addrs, memIdx, ovIdx, n, kept);
      memIdx := memIdx + 1;
    }
    FreeingDone(e, addrs, memIdx, ovIdx, n, kept);
  }

  lemma {:induction false} FreeingStarts(e: CfgEntry, addrs: seq<nat>, n: nat, kept: GroupView)
    requires Aligned(e, n) && n == |e.vOldval| <= |addrs| && kept == ViewOf(e).Kept(addrs)
    ensures Freeing(e, addrs, 0, 0, n, kept)
  {
    ViewKeep(addrs, ViewOf(e), n);
  }

  lemma {:induction false} FreeingDone(e: CfgEntry, addrs: seq<nat>, memIdx: nat, ovIdx: nat, n: nat, kept: GroupView)
    requires Freeing(e, addrs, memIdx, ovIdx, n, kept) && (memIdx >= |addrs| || ovIdx >= |e.vOldval|)
    ensures ViewOf(e) == kept && Aligned(e, |e.vOldval|)
  {
    assert Erasures(addrs, memIdx, ovIdx, n) == [];
    ViewDone(ViewOf(e));
  }

  /** Object memIdx is about to be looked at, its elements stand at ovIdx. */
  ghost predicate Freeing(e: CfgEntry, addrs: seq<nat>, memIdx: nat, ovIdx: nat, n: nat, kept: GroupView)
    reads Group(e)
  {
    && memIdx <= n <= |addrs| && ovIdx <= memIdx && |e.vOldval| == n - memIdx + ovIdx && Aligned(e, |e.vOldval|)
    && ViewOf(e).Applied(Erasures(addrs, memIdx, ovIdx, n)) == kept
  }

  method FreeOne(e: CfgEntry, addrs: seq<nat>, memIdx: nat, ovIdx: nat, ghost n: nat,
        ghost kept: GroupView) returns (next: nat)
    requires Freeing(e, addrs, memIdx, ovIdx, n, kept) && ovIdx < |e.vOldval| && n <= U32_MAX
    modifies Group(e)
    ensures Freeing(e, addrs, memIdx + 1, next, n, kept)
  {
    next := ovIdx;
    if addrs[memIdx] == 0 {
      EraseNext(e, addrs, memIdx, ovIdx, n, kept);
      next := Dec32(next);
      assert Inc32(next) == ovIdx;
    } else {
      KeepNext(e, addrs, memIdx, ovIdx, n, kept);
      SmallIndex(e, addrs, memIdx, ovIdx, n, kept);
      assert Inc32(next) == ovIdx + 1;
    }
    next := Inc32(next);
  }

  lemma {:induction false} SmallIndex(e: CfgEntry, addrs: seq<nat>, memIdx: nat, ovIdx: nat, n: nat, kept: GroupView)
    requires Freeing(e, addrs, memIdx, ovIdx, n, kept) && ovIdx < |e.vOldval| && n <= U32_MAX
    ensures ovIdx < U32_MAX
  {}

  method EraseNext(e: CfgEntry, addrs: seq<nat>, memIdx: nat, ovIdx: nat, ghost n: nat, ghost kept: GroupView)
    requires Freeing(e, addrs, memIdx, ovIdx, n, kept) && ovIdx < |e.vOldval| && addrs[memIdx] == 0
    modifies Group(e)
    ensures Freeing(e, addrs, memIdx + 1, ovIdx, n, kept)
  {
    ViewStep(ViewOf(e), addrs, memIdx, ovIdx, n);
    EraseObject(e, ovIdx, |e.vOldval|);
  }

  lemma {:induction false} KeepNext(e: CfgEntry, addrs: seq<nat>, memIdx: nat, ovIdx: nat, n: nat, kept: GroupView)
    requires Freeing(e, addrs, memIdx, ovIdx, n, kept) && ovIdx < |e.vOldval| && addrs[memIdx] != 0
    ensures Freeing(e, addrs, memIdx + 1, ovIdx + 1, n, kept)
  {
    ViewStep(ViewOf(e), addrs, memIdx, ovIdx, n);
  }

  lemma {:induction false} ViewStep(v: GroupView, addrs: seq<nat>, i: nat, o: nat, n: nat)
    requires i < n <= |addrs|
    ensures v.Applied(Erasures(addrs, i, o, n)) ==
      if addrs[i] == 0 then v.Erased(o).Applied(Erasures(addrs, i + 1, o, n))
        else v.Applied(Erasures(addrs, i + 1, o + 1, n))
  {
    var ks := Erasures(addrs, i, o, n);
    ColumnsStep(v.own, addrs, i, o, n);
    if v.behind.Some? { BehindStep(v.behind.value, addrs, i, o, n); }
  }

  lemma {:induction false} BehindStep(b: Behind, addrs: seq<nat>, i: nat, o: nat, n: nat)
    requires i < n <= |addrs|
    ensures b.Applied(Erasures(addrs, i, o, n)) ==
      if addrs[i] == 0 then b.Erased(o).Applied(Erasures(addrs, i + 1, o, n))
        else b.Applied(Erasures(addrs, i + 1, o + 1, n))
  {
    EraseFirst(b.state, addrs, i, o, n);
    EraseFirst(b.offs, addrs, i, o, n);
    var l := b.Applied(Erasures(addrs, i, o, n)).columns;
    var r := if addrs[i] == 0 then b.Erased(o).Applied(Erasures(addrs, i + 1, o, n)).columns
      else b.Applied(Erasures(addrs, i + 1, o + 1, n)).columns;
    forall j | 0 <= j < |b.columns| ensures l[j] == r[j] {
      ColumnsStep(b.columns[j], addrs, i, o, n);
    }
  }

  lemma {:induction false} ViewKeep(addrs: seq<nat>, v: GroupView, n: nat)
    requires v.Even(n) && n <= |addrs|
    ensures v.Applied(Erasures(addrs, 0, 0, n)) == v.Kept(addrs)
  {
    ColumnsKeep(addrs, v.own, n);
    if v.behind.Some? {
      var b := v.behind.value;
      ErasuresKeep(addrs, b.state);
      ErasuresKeep(addrs, b.offs);
      var l, r := b.Applied(Erasures(addrs, 0, 0, n)).columns, b.Kept(addrs).columns;
      forall j | 0 <= j < |b.columns| ensures l[j] == r[j] {
        ColumnsKeep(addrs, b.columns[j], n);
      }
      assert l == r;
    }
  }

  /** Erasing at no index changes nothing. */
  lemma {:induction false} ViewDone(v: GroupView)
    ensures v.Applied([]) == v
  {
    if v.behind.Some? {
      var b := v.behind.value;
      assert b.Applied([]).columns == b.columns;
    }
  }

  /** No two values share a pointer target, or a value behind one. */
  ghost predicate Separate(cfg: seq<CfgEntry>)
  {
    forall i, j :: 0 <= i < j < |cfg| && cfg[i].dynmem != null && cfg[j].dynmem != null ==>
      Group(cfg[i]) !! Group(cfg[j])
  }

  /** Every value of a class has elements for its first objects, in all its vectors. */
  ghost predicate ReadyToFree(e: CfgEntry)
    reads Group(e), e.dynmem
  {
    e.dynmem != null ==> e.dynmem.Valid() && Aligned(e, |e.vOldval|) && |e.vOldval| <= |e.dynmem.vMaddr|
  }

  ghost function Groups(cfg: seq<CfgEntry>): set<object>
  {
    if cfg == [] then {} else Group(cfg[0]) + Groups(cfg[1..])
  }

  lemma {:induction false} GroupInGroups(cfg: seq<CfgEntry>, i: nat)
    requires i < |cfg|
    ensures Group(cfg[i]) <= Groups(cfg)
  {
    if i > 0 { GroupInGroups(cfg[1..], i - 1); }
  }

  lemma {:induction false} DynNotInGroup(d: DynMemEntry, e: CfgEntry)
    ensures d !in Group(e)
  {}

  /** First loop of free_dynmem(). */
  method FreeAllValues(cfg: seq<CfgEntry>)
    requires Separate(cfg) && forall i :: 0 <= i < |cfg| ==> ReadyToFree(cfg[i])
    modifies Groups(cfg)
    ensures forall i :: 0 <= i < |cfg| && cfg[i].dynmem != null ==>
      ViewOf(cfg[i]) == old(ViewOf(cfg[i])).Kept(cfg[i].dynmem.vMaddr)
  {
    for i := 0 to |cfg|
      invariant forall k :: 0 <= k < i && cfg[k].dynmem != null ==>
        ViewOf(cfg[k]) == old(ViewOf(cfg[k])).Kept(cfg[k].dynmem.vMaddr)
      invariant forall k :: i <= k < |cfg| && cfg[k].dynmem != null ==>
        ViewOf(cfg[k]) == old(ViewOf(cfg[k])) && ReadyToFree(cfg[k])
    {
      if cfg[i].dynmem != null {
        GroupInGroups(cfg, i);
        FreeNth(cfg, i);
      }
    }
  }

  /** The vectors of one value; those of all others stay. */
  method FreeNth(cfg: seq<CfgEntry>, i: nat)
    requires Separate(cfg) && i < |cfg| && cfg[i].dynmem != null && ReadyToFree(cfg[i])
    modifies Group(cfg[i])
    ensures ViewOf(cfg[i]) == old(ViewOf(cfg[i])).Kept(cfg[i].dynmem.vMaddr)
    ensures forall k :: 0 <= k < |cfg| && k != i && cfg[k].dynmem != null ==>
      ViewOf(cfg[k]) == old(ViewOf(cfg[k])) && (old(ReadyToFree(cfg[k])) ==> ReadyToFree(cfg[k]))
    ensures forall k :: 0 <= k < |cfg| && cfg[k].dynmem != null ==> cfg[k].dynmem.vMaddr == old(cfg[k].dynmem.vMaddr)
  {
    FreeValues(cfg[i], cfg[i].dynmem.vMaddr);
    forall k | 0 <= k < |cfg| && cfg[k].dynmem != null ensures unchanged(cfg[k].dynmem) {
      DynNotInGroup(cfg[k].dynmem, cfg[i]);
    }
    forall k | 0 <= k < |cfg| && k != i && cfg[k].dynmem != null
      ensures ViewOf(cfg[k]) == old(ViewOf(cfg[k])) && (old(ReadyToFree(cfg[k])) ==> ReadyToFree(cfg[k]))
    {
      assert Group(cfg[k]) !! Group(cfg[i]);
    }
  }

  /** A class after compaction: only the unmarked objects are left, nothing is counted. */
  twostate predicate Compacted(d: DynMemEntry)
    reads d
  {
    && d.Valid() && d.numFreed == 0 && d.kicked == 0 && 0 !in d.vMaddr
    && d.vMaddr == Keep(old(d.vMaddr), old(d.vMaddr)) && d.vMsize == Keep(old(d.vMaddr), old(d.vMsize))
  }

  lemma {:induction false} KeepAll<T>(addrs: seq<nat>, v: seq<T>)
    requires 0 !in addrs
    ensures Keep(addrs, v) == v
  {
    if v != [] {
      var n := |v| - 1;
      KeepAll(addrs, v[..n]);
      KeepLast(addrs, v);
      assert v == v[..n] + [v[n]];
    }
  }

  lemma {:induction false} KeepLast<T>(addrs: seq<nat>, v: seq<T>)
    requires 0 !in addrs && v != []
    ensures Keep(addrs, v) == Keep(addrs, v[..|v|-1]) + [v[|v|-1]]
  {
    if |v| <= |addrs| { assert addrs[|v|-1] in addrs; }
  }

  /** Compacting a class; one that is already compact stays as it is. */
  method CompactClass(d: DynMemEntry)
    requires d.Valid()
    modifies d
    ensures Compacted(d)
    ensures 0 !in old(d.vMaddr) ==> d.vMaddr == old(d.vMaddr) && d.vMsize == old(d.vMsize)
  {
    if 0 !in d.vMaddr {
      KeepAll(d.vMaddr, d.vMaddr);
      KeepAll(d.vMaddr, d.vMsize);
    }
    var numKicked := d.Compact();
  }

  ghost function Classes(cfg: seq<CfgEntry>): set<DynMemEntry>
  {
    set i | 0 <= i < |cfg| && cfg[i].dynmem != null :: cfg[i].dynmem
  }

  /** Second loop of free_dynmem(): the entries of one class follow each other, so a class is
      compacted when its first entry is reached.  (Compacting it again would change nothing.) */
  method CompactAll(cfg: seq<CfgEntry>)
    requires forall d :: d in Classes(cfg) ==> d.Valid()
    modifies Classes(cfg)
    ensures forall d :: d in Classes(cfg) ==> Compacted(d)
  {
    var oldDynmem: DynMemEntry? := null;
    ghost var done: set<DynMemEntry> := {};
    for i := 0 to |cfg|
      invariant done <= Classes(cfg) && forall k :: 0 <= k < i && cfg[k].dynmem != null ==> cfg[k].dynmem in done
      invariant oldDynmem != null ==> oldDynmem in done
      invariant forall d :: d in done ==> Compacted(d)
      invariant forall d :: d in Classes(cfg) && d !in done ==> unchanged(d)
    {
      var d := cfg[i].dynmem;
      if d != null && d != oldDynmem {
        label Before:
        CompactClass(d);
        forall x | x in done + {d} ensures Compacted(x) {
          if x != d { assert unchanged@Before(x); }
        }
        oldDynmem := d;
        done := done + {d};
      }
    }
  }

  lemma {:induction false} NoClassInGroups(cfg: seq<CfgEntry>, d: DynMemEntry)
    ensures d !in Groups(cfg)
  {
    if cfg != [] {
      DynNotInGroup(d, cfg[0]);
      NoClassInGroups(cfg[1..], d);
    }
  }

  /** free_dynmem(): in every vector of every value, and in the address and size vectors of
      every class, exactly the elements of the unmarked objects are left, in order. */
  method FreeDynmem(cfg: seq<CfgEntry>)
    requires Separate(cfg) && forall i :: 0 <= i < |cfg| ==> ReadyToFree(cfg[i])
    modifies Groups(cfg), Classes(cfg)
    ensures forall i :: 0 <= i < |cfg| && cfg[i].dynmem != null ==>
      ViewOf(cfg[i]) == old(ViewOf(cfg[i])).Kept(old(cfg[i].dynmem.vMaddr))
    ensures forall d :: d in Classes(cfg) ==> Compacted(d)
  {
    FreeAllValues(cfg);
    forall d | d in Classes(cfg) ensures unchanged(d) { NoClassInGroups(cfg, d); }
    forall i | 0 <= i < |cfg| && cfg[i].dynmem != null
      ensures ViewOf(cfg[i]) == old(ViewOf(cfg[i])).Kept(old(cfg[i].dynmem.vMaddr))
    {
      assert cfg[i].dynmem in Classes(cfg);
    }
    label Values:
    CompactAll(cfg);
    forall i | 0 <= i < |cfg| && cfg[i].dynmem != null ensures ViewOf(cfg[i]) == old@Values(ViewOf(cfg[i])) {
      forall d | d in Classes(cfg) ensures d !in Group(cfg[i]) { DynNotInGroup(d, cfg[i]); }
    }
  }

  /** After compaction, everything that belonged to an object that stays is found at one new
      index, the number of staying objects before it: in the own columns, and in the state,
      the offset and all columns behind the pointer. */
  lemma {:induction false} SurvivorKeepsItsRow(addrs: seq<nat>, v: GroupView, n: nat, i: nat)
    requires v.Even(n) && i < n <= |addrs| && addrs[i] != 0
    ensures var r, k := Rank(addrs, i), v.Kept(addrs);
      && r < |Keep(addrs, addrs)| && Keep(addrs, addrs)[r] == addrs[i]
      && SameRow(v.own, i, k.own, r)
      && (v.behind.Some? ==>
           && r < |k.behind.value.state| && k.behind.value.state[r] == v.behind.value.state[i]
           && r < |k.behind.value.offs| && k.behind.value.offs[r] == v.behind.value.offs[i]
           && forall j :: 0 <= j < |v.behind.value.columns| ==>
             SameRow(v.behind.value.columns[j], i, k.behind.value.columns[j], r))
  {
    KeepAt(addrs, addrs, i);
    ColumnsKeepRow(addrs, v.own, n, i);
    if v.behind.Some? {
      var b := v.behind.value;
      KeepAt(addrs, b.state, i);
      KeepAt(addrs, b.offs, i);
      forall j | 0 <= j < |b.columns| ensures SameRow(b.columns[j], i, b.columns[j].Kept(addrs), Rank(addrs, i)) {
        ColumnsKeepRow(addrs, b.columns[j], n, i);
      }
    }
  }

  predicate SameRow(a: Columns, i: nat, b: Columns, r: nat)
  {
    && i < |a.oldval| && i < |a.value| && i < |a.cstr| && r < |b.oldval| && r < |b.value| && r < |b.cstr|
    && a.oldval[i] == b.oldval[r] && a.value[i] == b.value[r] && a.cstr[i] == b.cstr[r]
  }

  lemma {:induction false} ColumnsKeepRow(addrs: seq<nat>, c: Columns, n: nat, i: nat)
    requires c.Even(n) && i < n <= |addrs| && addrs[i] != 0
    ensures SameRow(c, i, c.Kept(addrs), Rank(addrs, i))
  {
    KeepAt(addrs, c.oldval, i);
    KeepAt(addrs, c.value, i);
    KeepAt(addrs, c.cstr, i);
  }

  /** Number of objects without elements. */
  function Missing(e: CfgEntry, addrs: seq<nat>): nat
    reads e
  {
    if |e.vOldval| < |addrs| then |addrs| - |e.vOldval| else 0
  }

  /** The value and everything behind its pointer have default elements of k more objects. */
  ghost predicate PaddedBy(e: CfgEntry, was: GroupView, k: nat)
    reads Group(e)
  {
    && e.Vals() == was.own.Padded(k, e.wish, e.isString)
    && (e.ptrtgt != null ==> was.behind.Some? && PaddedBehind(e.ptrtgt, was.behind.value, k))
  }

  ghost predicate PaddedBehind(p: PtrMemEntry, was: Behind, k: nat)
    reads p, p.cfg
  {
    && p.vState == Pad(was.state, k, Init) && p.vOffs == Pad(was.offs, k, 0) && |was.columns| == |p.cfg|
    && forall j :: 0 <= j < |p.cfg| ==> p.cfg[j].Vals() == was.columns[j].Padded(k, p.cfg[j].wish, p.cfg[j].isString)
  }

  /** The loop of alloc_dynmem() for one value: objects without elements get default ones, in
      every vector here and behind the pointer; what is there stays. */
  method AllocValues(e: CfgEntry, addrs: seq<nat>)
    requires Aligned(e, |e.vOldval|)
    modifies Group(e)
    ensures Aligned(e, |e.vOldval|) && PaddedBy(e, old(ViewOf(e)), old(Missing(e, addrs)))
  {
    ghost var was, n, k := ViewOf(e), |e.vOldval|, 0;
    NothingPadded(e);
    for memIdx := 0 to |addrs|
      invariant Aligned(e, |e.vOldval|) && PaddedBy(e, was, k)
      invariant |e.vOldval| == n + k && k == if n < memIdx then memIdx - n else 0
    {
      if memIdx >= |e.vOldval| {
        AllocNext(e, was, k);
        k := k + 1;
      }
    }
  }

  lemma {:induction false} NothingPadded(e: CfgEntry)
    ensures PaddedBy(e, ViewOf(e), 0)
  {
    PaddedOneMore(e.Vals(), 0, e.wish, e.isString);
    if e.ptrtgt != null {
      var p := e.ptrtgt;
      PadOneMore(p.vState, 0, Init);
      PadOneMore(p.vOffs, 0, 0);
      forall j | 0 <= j < |p.cfg|
        ensures p.cfg[j].Vals().Padded(0, p.cfg[j].wish, p.cfg[j].isString) == p.cfg[j].Vals()
      {
        PaddedOneMore(p.cfg[j].Vals(), 0, p.cfg[j].wish, p.cfg[j].isString);
      }
    }
  }

  /** One object more. */
  method AllocNext(e: CfgEntry, ghost was: GroupView, ghost k: nat)
    requires Aligned(e, |e.vOldval|) && PaddedBy(e, was, k)
    modifies Group(e)
    ensures Aligned(e, |e.vOldval|) && PaddedBy(e, was, k + 1) && |e.vOldval| == |old(e.vOldval)| + 1
  {
    PaddedOneMore(was.own, k, e.wish, e.isString);
    AllocObject(e, |e.vOldval|);
    var p := e.ptrtgt;
    if p != null {
      PadOneMore(was.behind.value.state, k, Init);
      PadOneMore(was.behind.value.offs, k, 0);
      forall j | 0 <= j < |p.cfg|
        ensures p.cfg[j].Vals() == was.behind.value.columns[j].Padded(k + 1, p.cfg[j].wish, p.cfg[j].isString)
      {
        assert p.cfg[j] in p.cfg;
        PaddedOneMore(was.behind.value.columns[j], k, p.cfg[j].wish, p.cfg[j].isString);
      }
    }
  }

  method AllocObject(e: CfgEntry, ghost n: nat)
    requires Aligned(e, n)
    modifies Group(e)
    ensures Aligned(e, n + 1) && e.Vals() == old(e.Vals()).Pushed(e.wish, e.isString)
    ensures e.ptrtgt != null ==>
      e.ptrtgt.vState == old(e.ptrtgt.vState) + [Init] && e.ptrtgt.vOffs == old(e.ptrtgt.vOffs) + [0]
    ensures e.ptrtgt != null ==> forall c :: c in e.ptrtgt.cfg ==> c.Vals() == old(c.Vals()).Pushed(c.wish, c.isString)
  {
    var p := e.ptrtgt;
    e.PushDefault();
    if p != null {
      label Pushed:
      p.AllocPtrmem(n);
      assert e.Vals() == old@Pushed(e.Vals());
    }
  }
}
