/** Packing of configured addresses into cache windows (src/cfgparser.cpp).

    Every memory type (an object class, a pointer class, the stack, a library, the
    executable) owns a list of windows of `chunk` bytes.  The addresses are sorted and
    packed greedily: an address that does not fit into the newest window of its owner
    opens a new window at itself.  Windows may overlap. */
module CachePacking {

  /** Who owns a cache list: what the chain of branches in build_caches() selects by. */
  datatype MemOwner = Dynmem(class_: nat) | Ptrmem(target: nat) | OnStack | InLib(lib: nat) | Static

  /** One line of the temporary address list; `element` names the value or check. */
  datatype AddrEntry = AddrEntry(owner: MemOwner, addr: nat, size: nat, element: nat)
  {
    function End(): nat { addr + size }
  }

  /** Where an element ended up: index of its window in the owner's list, and the index
      of its first byte within the window (cache_data - cache->data). */
  datatype Placement = Placement(window: nat, pos: nat)

  // ---------------------------------------------------------------------------
  // Collecting and sorting the addresses
  // ---------------------------------------------------------------------------

  /** A check below a configured value; `isRef` when it compares another value. */
  datatype Check = Check(entry: AddrEntry, isRef: bool)

  datatype Value = Value(entry: AddrEntry, isCstr: bool, checks: seq<Check>)

  /** The checks that go into the address list. */
  function ListedChecks(checks: seq<Check>): seq<AddrEntry>
  {
    if checks == [] then []
    else (if checks[0].isRef then [] else [checks[0].entry]) + ListedChecks(checks[1..])
  }

  /** The address list before sorting: strings are not cached, nor are their checks. */
  function Listed(cfg: seq<Value>): seq<AddrEntry>
  {
    if cfg == [] then []
    else (if cfg[0].isCstr then [] else [cfg[0].entry] + ListedChecks(cfg[0].checks)) + Listed(cfg[1..])
  }

  /** The addresses that lower the first window while the config is read. */
  function Lowering(cfg: seq<Value>): seq<AddrEntry>
  {
    if cfg == [] then []
    else (if cfg[0].isCstr then [] else [cfg[0].entry]) + ListedChecks(cfg[0].checks) + Lowering(cfg[1..])
  }

  /** Start of the first window of `owner`: the lowest address seen, or `none` (PTR_MAX). */
  function FirstWindow(es: seq<AddrEntry>, owner: MemOwner, none: nat): (f: nat)
    ensures f <= none
    ensures forall e :: e in es && e.owner == owner ==> f <= e.addr
    ensures f == none || exists e :: e in es && e.owner == owner && f == e.addr
  {
    if es == [] then none
    else
      var f := FirstWindow(es[..|es|-1], owner, none);
      var e := es[|es|-1];
      assert es == es[..|es|-1] + [e];
      if e.owner == owner && e.addr < f then e.addr else f
  }

  lemma {:induction false} ListedIsLowering(cfg: seq<Value>)
    ensures forall e :: e in Listed(cfg) ==> e in Lowering(cfg)
    ensures forall e :: e in Lowering(cfg) ==>
      e in Listed(cfg) || exists v :: v in cfg && v.isCstr && e in ListedChecks(v.checks)
  {
    if cfg != [] { ListedIsLowering(cfg[1..]); }
  }

  /** The first window starts exactly at the lowest cached address, unless a check of a
      string value lies below all of them. */
  lemma {:induction false} FirstWindowStart(cfg: seq<Value>, owner: MemOwner, none: nat)
    ensures forall e :: e in Listed(cfg) && e.owner == owner ==> FirstWindow(Lowering(cfg), owner, none) <= e.addr
    ensures FirstWindow(Lowering(cfg), owner, none) == FirstWindow(Listed(cfg), owner, none) <==>
      forall v, e :: v in cfg && v.isCstr && e in ListedChecks(v.checks) && e.owner == owner ==>
        FirstWindow(Listed(cfg), owner, none) <= e.addr
  {
    ListedIsLowering(cfg);
    forall v, e | v in cfg && v.isCstr && e in ListedChecks(v.checks)
      ensures e in Lowering(cfg)
    {
      LoweringHasChecks(cfg, v, e);
    }
  }

  lemma {:induction false} LoweringHasChecks(cfg: seq<Value>, v: Value, e: AddrEntry)
    requires v in cfg && e in ListedChecks(v.checks)
    ensures e in Lowering(cfg)
  {
    if v != cfg[0] { LoweringHasChecks(cfg[1..], v, e); }
  }

  ghost predicate Sorted(es: seq<AddrEntry>)
  {
    forall i, j :: 0 <= i < j < |es| ==> es[i].addr <= es[j].addr
  }

  /** How many leading entries of a sorted list are not above `addr`. */
  function NotAbove(es: seq<AddrEntry>, addr: nat): (p: nat)
    requires Sorted(es)
    ensures p <= |es|
    ensures forall i :: 0 <= i < p ==> es[i].addr <= addr
    ensures forall i :: p <= i < |es| ==> addr < es[i].addr
  {
    if es == [] then 0
    else if addr < es[|es|-1].addr then NotAbove(es[..|es|-1], addr)
    else |es|
  }

  /** list::sort() with compare_addr_in_list(): stable, ascending by address. */
  function SortByAddr(es: seq<AddrEntry>): (r: seq<AddrEntry>)
    ensures Sorted(r)
  {
    if es == [] then []
    else
      var e, r := es[|es|-1], SortByAddr(es[..|es|-1]);
      var p := NotAbove(r, e.addr);
      r[..p] + [e] + r[p..]
  }

  lemma {:induction false} SortPermutes(es: seq<AddrEntry>)
    ensures multiset(SortByAddr(es)) == multiset(es)
  {
    if es != [] {
      var e, r := es[|es|-1], SortByAddr(es[..|es|-1]);
      var p := NotAbove(r, e.addr);
      SortPermutes(es[..|es|-1]);
      assert r == r[..p] + r[p..];
      assert es == es[..|es|-1] + [e];
    }
  }

  /** Entries of one address, in list order. */
  function AtAddr(es: seq<AddrEntry>, addr: nat): seq<AddrEntry>
  {
    if es == [] then []
    else AtAddr(es[..|es|-1], addr) + (if es[|es|-1].addr == addr then [es[|es|-1]] else [])
  }

  lemma {:induction false} AtAddrConcat(a: seq<AddrEntry>, b: seq<AddrEntry>, addr: nat)
    ensures AtAddr(a + b, addr) == AtAddr(a, addr) + AtAddr(b, addr)
  {
    if b == [] {
      assert a + b == a;
    } else {
      var n := |b| - 1;
      assert (a + b)[..|a| + n] == a + b[..n];
      AtAddrConcat(a, b[..n], addr);
    }
  }

  lemma {:induction false} NoneAtAddr(es: seq<AddrEntry>, addr: nat)
    requires forall e :: e in es ==> e.addr != addr
    ensures AtAddr(es, addr) == []
  {
    if es != [] { NoneAtAddr(es[..|es|-1], addr); }
  }

  lemma {:induction false} InsertedAtAddr(a: seq<AddrEntry>, e: AddrEntry, b: seq<AddrEntry>, addr: nat)
    ensures AtAddr(a + [e] + b, addr) == AtAddr(a, addr) + (if e.addr == addr then [e] else []) + AtAddr(b, addr)
    ensures AtAddr(a + b, addr) == AtAddr(a, addr) + AtAddr(b, addr)
  {
    AtAddrConcat(a, b, addr);
    AtAddrConcat(a + [e], b, addr);
    AtAddrConcat(a, [e], addr);
    assert [e][..0] == [];
  }

  lemma {:induction false} InsertedLast(r: seq<AddrEntry>, p: nat, e: AddrEntry, addr: nat)
    requires p <= |r| && forall i :: p <= i < |r| ==> e.addr < r[i].addr
    ensures AtAddr(r[..p] + [e] + r[p..], addr) == AtAddr(r, addr) + if e.addr == addr then [e] else []
  {
    InsertedAtAddr(r[..p], e, r[p..], addr);
    assert r == r[..p] + r[p..];
    if e.addr == addr { NoneAtAddr(r[p..], addr); }
  }

  /** Entries of the same address keep their order: a check stays behind its value. */
  lemma {:induction false} SortIsStable(es: seq<AddrEntry>, addr: nat)
    ensures AtAddr(SortByAddr(es), addr) == AtAddr(es, addr)
  {
    if es != [] {
      var e, r := es[|es|-1], SortByAddr(es[..|es|-1]);
      SortIsStable(es[..|es|-1], addr);
      InsertedLast(r, NotAbove(r, e.addr), e, addr);
    }
  }

  /** The entry is that of value i, which is no string, or of a check of it that is not about
      another value. */
  ghost predicate IsListedAt(cfg: seq<Value>, i: nat, e: AddrEntry)
  {
    i < |cfg| && !cfg[i].isCstr && (e == cfg[i].entry || IsListedCheck(cfg[i].checks, e))
  }

  /** What is cached: every value that is no string, and every check of such a value that is not
      about another value. */
  lemma {:induction false} ListedExactly(cfg: seq<Value>, e: AddrEntry)
    ensures e in Listed(cfg) <==> exists i: nat :: IsListedAt(cfg, i, e)
  {
    if cfg != [] {
      ListedExactly(cfg[1..], e);
      ListedCheckIff(cfg[0].checks, e);
      if i: nat :| IsListedAt(cfg[1..], i, e) { assert IsListedAt(cfg, i + 1, e); }
      if i: nat :| IsListedAt(cfg, i, e) { assert i == 0 || IsListedAt(cfg[1..], i - 1, e); }
      if e in Listed(cfg) && e !in Listed(cfg[1..]) { assert IsListedAt(cfg, 0, e); }
    }
  }

  ghost predicate IsListedCheck(checks: seq<Check>, e: AddrEntry)
  {
    exists j :: 0 <= j < |checks| && !checks[j].isRef && checks[j].entry == e
  }

  lemma {:induction false} ListedCheckIff(checks: seq<Check>, e: AddrEntry)
    ensures e in ListedChecks(checks) <==> IsListedCheck(checks, e)
  {
    if checks != [] {
      ListedCheckIff(checks[1..], e);
      if j :| 0 <= j < |checks[1..]| && !checks[1..][j].isRef && checks[1..][j].entry == e {
        assert checks[1..][j] == checks[j + 1];
      }
      if j :| 0 <= j < |checks| && !checks[j].isRef && checks[j].entry == e {
        assert j > 0 ==> checks[1..][j - 1] == checks[j];
      }
    }
  }

  /** The entries of one owner, in list order. */
  function OfOwner(es: seq<AddrEntry>, owner: MemOwner): seq<AddrEntry>
  {
    if es == [] then []
    else OfOwner(es[..|es|-1], owner) + (if es[|es|-1].owner == owner then [es[|es|-1]] else [])
  }

  lemma {:induction false} OfOwnerElements(es: seq<AddrEntry>, owner: MemOwner)
    ensures forall e :: e in OfOwner(es, owner) <==> e in es && e.owner == owner
  {
    if es != [] {
      OfOwnerElements(es[..|es|-1], owner);
      assert es == es[..|es|-1] + [es[|es|-1]];
    }
  }

  lemma {:induction false} OfOwnerSorted(es: seq<AddrEntry>, owner: MemOwner)
    requires Sorted(es)
    ensures Sorted(OfOwner(es, owner))
  {
    if es != [] {
      OfOwnerSorted(es[..|es|-1], owner);
      OfOwnerElements(es[..|es|-1], owner);
      var r := OfOwner(es[..|es|-1], owner);
      assert forall i :: 0 <= i < |r| ==> r[i] in es[..|es|-1];
    }
  }

  // ---------------------------------------------------------------------------
  // Greedy packing, one owner
  // ---------------------------------------------------------------------------

  /** The newest window is too short for `e`. */
  predicate Opens(last: nat, chunk: nat, e: AddrEntry)
  {
    last + chunk < e.End() || last + chunk <= e.addr
  }

  /** Window starts once entry e has been given its window. */
  function NextStarts(r: seq<nat>, chunk: nat, e: AddrEntry): (r': seq<nat>)
    requires r != []
    ensures r <= r' && |r'| <= |r| + 1
  {
    if Opens(r[|r|-1], chunk, e) then r + [e.addr] else r
  }

  /** Window starts after packing `es` into a list that starts with `ws`. */
  function Pack(ws: seq<nat>, chunk: nat, es: seq<AddrEntry>): (r: seq<nat>)
    requires ws != []
    ensures ws <= r
  {
    if es == [] then ws else NextStarts(Pack(ws, chunk, es[..|es|-1]), chunk, es[|es|-1])
  }

  /** The window entry k is assigned to: the newest one when its turn comes. */
  function WindowOf(ws: seq<nat>, chunk: nat, es: seq<AddrEntry>, k: nat): (w: nat)
    requires ws != [] && k < |es|
    ensures w < |Pack(ws, chunk, es[..k+1])|
  {
    |Pack(ws, chunk, es[..k+1])| - 1
  }

  lemma {:induction false} PackPrefix(ws: seq<nat>, chunk: nat, es: seq<AddrEntry>, k: nat)
    requires ws != [] && k <= |es|
    ensures Pack(ws, chunk, es[..k]) <= Pack(ws, chunk, es)
    decreases |es|
  {
    if k < |es| {
      PackPrefix(ws, chunk, es[..|es|-1], k);
      assert es[..|es|-1][..k] == es[..k];
    } else {
      assert es[..k] == es;
    }
  }

  ghost predicate Packable(first: nat, chunk: nat, es: seq<AddrEntry>)
  {
    && Sorted(es)
    && (forall e :: e in es ==> 1 <= e.size <= chunk && first <= e.addr)
  }

  /** Any two entries are disjoint or cover the same bytes. */
  ghost predicate DisjointOrSame(es: seq<AddrEntry>)
  {
    forall d, e :: d in es && e in es ==>
      d.End() <= e.addr || e.End() <= d.addr || (d.addr == e.addr && d.size == e.size)
  }

  /** Window starts ascend, and every window but the first starts at an entry. */
  lemma {:induction false} PackAscends(first: nat, chunk: nat, es: seq<AddrEntry>)
    requires Packable(first, chunk, es)
    ensures var r := Pack([first], chunk, es);
      && (forall i, j :: 0 <= i < j < |r| ==> r[i] < r[j])
      && (es != [] ==> r[|r|-1] <= es[|es|-1].addr)
      && (es == [] ==> r == [first])
    decreases |es|
  {
    if es != [] {
      InitPackable(first, chunk, es);
      PackAscends(first, chunk, es[..|es|-1]);
      NextAscends(Pack([first], chunk, es[..|es|-1]), chunk, es[|es|-1]);
      PackLast([first], chunk, es);
    }
  }

  lemma {:induction false} NextAscends(r: seq<nat>, chunk: nat, e: AddrEntry)
    requires r != [] && (forall i, j :: 0 <= i < j < |r| ==> r[i] < r[j]) && r[|r|-1] <= e.addr && 1 <= e.size <= chunk
    ensures
      var r' := NextStarts(r, chunk, e);
      (forall i, j :: 0 <= i < j < |r'| ==> r'[i] < r'[j]) && r'[|r'|-1] <= e.addr
  {}

  /** The entry lies wholly inside window w, and inside the part that no later window covers. */
  predicate Placed(r: seq<nat>, w: nat, chunk: nat, e: AddrEntry)
  {
    w < |r| && r[w] <= e.addr && e.End() <= r[w] + chunk && (w + 1 < |r| ==> e.End() <= r[w + 1])
  }

  /** Every entry lies wholly inside its window, at index addr - offs, and inside the
      part of the window that no later window covers. */
  lemma {:induction false} PackPlaces(first: nat, chunk: nat, es: seq<AddrEntry>, k: nat)
    requires Packable(first, chunk, es) && DisjointOrSame(es) && k < |es|
    ensures Placed(Pack([first], chunk, es), WindowOf([first], chunk, es, k), chunk, es[k])
    decreases |es|
  {
    if k < |es| - 1 {
      InitPackable(first, chunk, es);
      PackPlaces(first, chunk, es[..|es|-1], k);
      SameWindow([first], chunk, es, k);
      PlacedStill(first, chunk, es, k, WindowOf([first], chunk, es, k));
    } else {
      LastWindow([first], chunk, es);
      PlacedNewest(first, chunk, es);
    }
  }

  lemma {:induction false} PackLast(ws: seq<nat>, chunk: nat, es: seq<AddrEntry>)
    requires ws != [] && es != []
    ensures Pack(ws, chunk, es) == NextStarts(Pack(ws, chunk, es[..|es|-1]), chunk, es[|es|-1])
  {}

  lemma {:induction false} PlacedStill(first: nat, chunk: nat, es: seq<AddrEntry>, k: nat, w: nat)
    requires Packable(first, chunk, es) && DisjointOrSame(es) && k < |es| - 1
    requires Placed(Pack([first], chunk, es[..|es|-1]), w, chunk, es[k])
    ensures Placed(Pack([first], chunk, es), w, chunk, es[k])
  {
    InitPackable(first, chunk, es);
    PackAscends(first, chunk, es[..|es|-1]);
    NextKeepsPlaced(Pack([first], chunk, es[..|es|-1]), w, chunk, es, k);
    PackLast([first], chunk, es);
  }

  lemma {:induction false} PlacedNewest(first: nat, chunk: nat, es: seq<AddrEntry>)
    requires Packable(first, chunk, es) && es != []
    ensures Placed(Pack([first], chunk, es), |Pack([first], chunk, es)| - 1, chunk, es[|es|-1])
  {
    InitPackable(first, chunk, es);
    PackAscends(first, chunk, es[..|es|-1]);
    NewestPlaced(Pack([first], chunk, es[..|es|-1]), chunk, es[|es|-1]);
    PackLast([first], chunk, es);
  }

  lemma {:induction false} SameWindow(ws: seq<nat>, chunk: nat, es: seq<AddrEntry>, k: nat)
    requires ws != [] && k < |es| - 1
    ensures WindowOf(ws, chunk, es, k) == WindowOf(ws, chunk, es[..|es|-1], k)
  {
    assert es[..|es|-1][..k+1] == es[..k+1];
  }

  lemma {:induction false} LastWindow(ws: seq<nat>, chunk: nat, es: seq<AddrEntry>)
    requires ws != [] && es != []
    ensures WindowOf(ws, chunk, es, |es| - 1) == |Pack(ws, chunk, es)| - 1
  {
    assert es[..|es|] == es;
  }

  lemma {:induction false} InitPackable(first: nat, chunk: nat, es: seq<AddrEntry>)
    requires Packable(first, chunk, es) && es != []
    ensures Packable(first, chunk, es[..|es|-1]) && (DisjointOrSame(es) ==> DisjointOrSame(es[..|es|-1]))
    ensures 1 <= es[|es|-1].size <= chunk && first <= es[|es|-1].addr
    ensures |es| > 1 ==> es[|es|-2].addr <= es[|es|-1].addr
  {
    assert es[|es|-1] in es;
    forall d | d in es[..|es|-1] ensures d in es {}
  }

  lemma {:induction false} StillPlaced(r: seq<nat>, w: nat, chunk: nat, d: AddrEntry, addr: nat)
    requires Placed(r, w, chunk, d) && d.End() <= addr
    ensures Placed(r + [addr], w, chunk, d)
  {}

  lemma {:induction false} NextKeepsPlaced(r: seq<nat>, w: nat, chunk: nat, es: seq<AddrEntry>, k: nat)
    requires Sorted(es) && DisjointOrSame(es) && k < |es| - 1 && Placed(r, w, chunk, es[k])
    requires forall i, j :: 0 <= i < j < |r| ==> r[i] < r[j]
    ensures Placed(NextStarts(r, chunk, es[|es|-1]), w, chunk, es[k])
  {
    if Opens(r[|r|-1], chunk, es[|es|-1]) {
      OpenerIsBehind(r, w, chunk, es, k);
      StillPlaced(r, w, chunk, es[k], es[|es|-1].addr);
    }
  }

  lemma {:induction false} NewestPlaced(r: seq<nat>, chunk: nat, e: AddrEntry)
    requires r != [] && r[|r|-1] <= e.addr && 1 <= e.size <= chunk
    ensures var r' := NextStarts(r, chunk, e); Placed(r', |r'| - 1, chunk, e)
  {}

  /** The newest entry opens a window only at or behind the end of every earlier entry. */
  lemma {:induction false} OpenerIsBehind(r: seq<nat>, w: nat, chunk: nat, es: seq<AddrEntry>, k: nat)
    requires Sorted(es) && DisjointOrSame(es) && k < |es| - 1
    requires w < |r| && r[w] <= r[|r|-1] && r[w] <= es[k].addr && es[k].End() <= r[w] + chunk
    requires Opens(r[|r|-1], chunk, es[|es|-1])
    ensures es[k].End() <= es[|es|-1].addr
  {
    var d, e := es[k], es[|es|-1];
    assert d in es && e in es && d.addr <= e.addr;
  }

  // ---------------------------------------------------------------------------
  // When entries overlap
  // ---------------------------------------------------------------------------

  /** Entry j opens a window when its turn comes. */
  predicate OpensAt(first: nat, chunk: nat, es: seq<AddrEntry>, j: nat)
    requires j < |es|
  {
    var r := Pack([first], chunk, es[..j]);
    Opens(r[|r|-1], chunk, es[j])
  }

  predicate StartsInside(e: AddrEntry, d: AddrEntry) { d.addr <= e.addr < d.End() }

  /** If entry j opens a window, it starts inside no earlier one. */
  ghost predicate ClearOf(first: nat, chunk: nat, es: seq<AddrEntry>, j: nat)
    requires j < |es|
  {
    OpensAt(first, chunk, es, j) ==> forall k :: 0 <= k < j ==> !StartsInside(es[j], es[k])
  }

  /** No entry that opens a window starts inside an earlier one. */
  ghost predicate OpenersClear(first: nat, chunk: nat, es: seq<AddrEntry>)
  {
    forall j :: 0 <= j < |es| ==> ClearOf(first, chunk, es, j)
  }

  /** Entry k has its bytes to itself in its window. */
  predicate PlacedAt(first: nat, chunk: nat, es: seq<AddrEntry>, k: nat)
    requires k < |es|
  {
    Placed(Pack([first], chunk, es), WindowOf([first], chunk, es, k), chunk, es[k])
  }

  ghost predicate AllPlaced(first: nat, chunk: nat, es: seq<AddrEntry>)
  {
    forall k :: 0 <= k < |es| ==> PlacedAt(first, chunk, es, k)
  }

  lemma {:induction false} PlacedIff(r: seq<nat>, w: nat, chunk: nat, d: AddrEntry, addr: nat)
    requires w < |r| && r[|r|-1] <= addr && forall i, j :: 0 <= i < j < |r| ==> r[i] < r[j]
    ensures Placed(r + [addr], w, chunk, d) <==> Placed(r, w, chunk, d) && d.End() <= addr
  {}

  lemma {:induction false} EarlierAscends(first: nat, chunk: nat, es: seq<AddrEntry>, k: nat)
    requires Packable(first, chunk, es) && k < |es| - 1
    ensures
      var r := Pack([first], chunk, es[..|es|-1]);
      r[|r|-1] <= es[|es|-1].addr && forall i, j :: 0 <= i < j < |r| ==> r[i] < r[j]
  {
    InitPackable(first, chunk, es);
    PackAscends(first, chunk, es[..|es|-1]);
  }

  lemma {:induction false} EarlierWindow(first: nat, chunk: nat, es: seq<AddrEntry>, k: nat)
    requires k < |es| - 1
    ensures
      var init := es[..|es|-1];
      var w := WindowOf([first], chunk, init, k);
      w < |Pack([first], chunk, init)| && WindowOf([first], chunk, es, k) == w
  {
    SameWindow([first], chunk, es, k);
    PackPrefix([first], chunk, es[..|es|-1], k + 1);
  }

  lemma {:induction false} EarlierPlacedIff(first: nat, chunk: nat, es: seq<AddrEntry>, k: nat)
    requires Packable(first, chunk, es) && k < |es| - 1
    ensures
      var n := |es| - 1;
      PlacedAt(first, chunk, es, k) <==>
        PlacedAt(first, chunk, es[..n], k) && (OpensAt(first, chunk, es, n) ==> !StartsInside(es[n], es[k]))
  {
    var n := |es| - 1;
    EarlierAscends(first, chunk, es, k);
    EarlierWindow(first, chunk, es, k);
    PackLast([first], chunk, es);
    if OpensAt(first, chunk, es, n) {
      PlacedIff(Pack([first], chunk, es[..n]), WindowOf([first], chunk, es[..n], k), chunk, es[k], es[n].addr);
    }
  }

  lemma {:induction false} NewestPlacedAt(first: nat, chunk: nat, es: seq<AddrEntry>)
    requires Packable(first, chunk, es) && es != []
    ensures PlacedAt(first, chunk, es, |es| - 1)
  {
    LastWindow([first], chunk, es);
    PlacedNewest(first, chunk, es);
  }

  lemma {:induction false} ClearOfEarlier(first: nat, chunk: nat, es: seq<AddrEntry>, j: nat)
    requires j < |es| - 1
    ensures ClearOf(first, chunk, es[..|es|-1], j) == ClearOf(first, chunk, es, j)
  {
    assert es[..|es|-1][..j] == es[..j];
  }

  lemma {:induction false} OpenersClearIff(first: nat, chunk: nat, es: seq<AddrEntry>)
    requires es != []
    ensures
      OpenersClear(first, chunk, es) <==>
        OpenersClear(first, chunk, es[..|es|-1]) && ClearOf(first, chunk, es, |es| - 1)
  {
    var n := |es| - 1;
    forall j | 0 <= j < n ensures ClearOf(first, chunk, es[..n], j) == ClearOf(first, chunk, es, j) {
      ClearOfEarlier(first, chunk, es, j);
    }
    if OpenersClear(first, chunk, es[..n]) && ClearOf(first, chunk, es, n) {
      forall j | 0 <= j < |es| ensures ClearOf(first, chunk, es, j) {
        assert j < n ==> ClearOf(first, chunk, es[..n], j);
      }
    }
  }

  lemma {:induction false} AllPlacedStep(first: nat, chunk: nat, es: seq<AddrEntry>)
    requires Packable(first, chunk, es) && es != []
    ensures
      AllPlaced(first, chunk, es) <==> AllPlaced(first, chunk, es[..|es|-1]) && ClearOf(first, chunk, es, |es| - 1)
  {
    var n := |es| - 1;
    NewestPlacedAt(first, chunk, es);
    if AllPlaced(first, chunk, es) {
      forall k | 0 <= k < n
        ensures PlacedAt(first, chunk, es[..n], k)
        ensures OpensAt(first, chunk, es, n) ==> !StartsInside(es[n], es[k])
      {
        assert PlacedAt(first, chunk, es, k);
        EarlierPlacedIff(first, chunk, es, k);
      }
    }
    if AllPlaced(first, chunk, es[..n]) && ClearOf(first, chunk, es, n) {
      forall k | 0 <= k < |es| ensures PlacedAt(first, chunk, es, k) {
        if k < n {
          assert PlacedAt(first, chunk, es[..n], k);
          EarlierPlacedIff(first, chunk, es, k);
        }
      }
    }
  }

  /** Every entry has its bytes to itself in its window if and only if no entry that opens a
      window starts inside an earlier one. */
  lemma {:induction false} AllPlacedIff(first: nat, chunk: nat, es: seq<AddrEntry>)
    requires Packable(first, chunk, es)
    ensures AllPlaced(first, chunk, es) <==> OpenersClear(first, chunk, es)
  {
    if es != [] {
      InitPackable(first, chunk, es);
      AllPlacedIff(first, chunk, es[..|es|-1]);
      AllPlacedStep(first, chunk, es);
      OpenersClearIff(first, chunk, es);
    }
  }

  lemma {:induction false} PackTwo(es: seq<AddrEntry>)
    requires |es| == 2 && es[0].addr == 0 && es[0].size == 4 && es[1].addr == 2044 && es[1].size == 4
    ensures Pack([0], 2048, es) == [0]
  {
    assert es[..1][..0] == [];
    assert Pack([0], 2048, es[..1]) == [0];
  }

  /** A value, a check of four bytes, and an object-number check of a long: it has kept the
      address of the check before it. */
  function Overlapping(): seq<AddrEntry>
  {
    [AddrEntry(Dynmem(0), 0, 4, 0), AddrEntry(Dynmem(0), 2044, 4, 1), AddrEntry(Dynmem(0), 2044, 8, 2)]
  }

  lemma {:induction false} OverlappingPacked()
    ensures Pack([0], 2048, Overlapping()) == [0, 2044] && WindowOf([0], 2048, Overlapping(), 1) == 0
  {
    var es := Overlapping();
    assert es[..2] == [es[0], es[1]] && es[..3-1] == es[..2];
    PackTwo(es[..2]);
  }

  lemma {:induction false} OverlappingEntries()
    ensures Packable(0, 2048, Overlapping()) && !DisjointOrSame(Overlapping())
  {
    var es := Overlapping();
    assert es[1] in es && es[2] in es;
    assert !(es[1].End() <= es[2].addr || es[2].End() <= es[1].addr);
  }

  /** Without the disjointness hypothesis an entry may reach into the next window. */
  lemma {:induction false} OverlappingEntriesReachOver()
    ensures Packable(0, 2048, Overlapping()) && !DisjointOrSame(Overlapping())
    ensures Pack([0], 2048, Overlapping()) == [0, 2044] && WindowOf([0], 2048, Overlapping(), 1) == 0
    ensures Overlapping()[1].End() > 2044
  {
    OverlappingPacked();
    OverlappingEntries();
  }

  // ---------------------------------------------------------------------------
  // Minimality
  // ---------------------------------------------------------------------------

  /** Every entry fits into a window that starts at some member of `cover`. */
  ghost predicate Covers(cover: set<nat>, chunk: nat, es: seq<AddrEntry>)
  {
    forall e :: e in es ==> exists c :: c in cover && c <= e.addr && e.End() <= c + chunk
  }

  /** Greedy packing never needs more than one window above any cover, and not even that
      one when the first window starts at the lowest entry. */
  lemma {:induction false} GreedyIsMinimal(first: nat, chunk: nat, es: seq<AddrEntry>, cover: set<nat>)
    requires Packable(first, chunk, es) && Covers(cover, chunk, es) && es != []
    ensures |Pack([first], chunk, es)| <= |cover| + 1
    ensures first == es[0].addr ==> |Pack([first], chunk, es)| <= |cover|
  {
    var cs := Witnesses(first, chunk, es, cover);
    AscendingInSet(cs[1..], cover);
    if first == es[0].addr { AscendingInSet(cs, cover); }
  }

  /** One member of the cover per window, strictly ascending; the first window may do without
      one when it starts below all entries. */
  ghost predicate Witness(cs: seq<nat>, r: seq<nat>, cover: set<nat>, lowest: bool)
  {
    && |cs| == |r| > 0 && (lowest ==> cs[0] in cover)
    && (forall i :: 0 < i < |cs| ==> cs[i] in cover)
    && (forall i, j :: 0 <= i < j < |cs| ==> cs[i] < cs[j])
    && (forall i :: 0 <= i < |cs| ==> cs[i] <= r[i])
  }

  lemma {:induction false} WitnessStep(cs: seq<nat>, r: seq<nat>, cover: set<nat>, lowest: bool, c: nat, addr: nat)
    requires Witness(cs, r, cover, lowest) && c in cover && r[|r|-1] < c <= addr
    ensures Witness(cs + [c], r + [addr], cover, lowest)
  {}

  /** No window of `chunk` bytes holds the openers of two windows. */
  lemma {:induction false} Witnesses(first: nat, chunk: nat, es: seq<AddrEntry>, cover: set<nat>) returns (cs: seq<nat>)
    requires Packable(first, chunk, es) && Covers(cover, chunk, es) && es != []
    ensures Witness(cs, Pack([first], chunk, es), cover, first == es[0].addr)
    decreases |es|
  {
    var init, e := es[..|es|-1], es[|es|-1];
    var r := Pack([first], chunk, init);
    assert e in es;
    var c :| c in cover && c <= e.addr && e.End() <= c + chunk;
    if init == [] {
      assert r == [first];
      cs := if first == e.addr then [c] else [first];
    } else {
      cs := Witnesses(first, chunk, init, cover);
    }
    if Opens(r[|r|-1], chunk, e) {
      WitnessStep(cs, r, cover, first == es[0].addr, c, e.addr);
      cs := cs + [c];
    }
  }

  lemma {:induction false} AscendingInSet(cs: seq<nat>, s: set<nat>)
    requires forall i :: 0 <= i < |cs| ==> cs[i] in s
    requires forall i, j :: 0 <= i < j < |cs| ==> cs[i] < cs[j]
    ensures |cs| <= |s|
  {
    if cs != [] {
      AscendingInSet(cs[..|cs|-1], s - {cs[|cs|-1]});
    }
  }

  /** Two entries that fit into one window together. */
  function TwoNeighbours(): seq<AddrEntry>
  {
    [AddrEntry(Static, 4, 4, 0), AddrEntry(Static, 8, 4, 1)]
  }

  /** A first window below the lowest entry can cost the extra window. */
  lemma {:induction false} LowFirstWindowCostsOne()
    ensures Packable(0, 8, TwoNeighbours()) && Covers({4}, 8, TwoNeighbours())
    ensures |Pack([0], 8, TwoNeighbours())| == 2 && |Pack([4], 8, TwoNeighbours())| == 1
  {
    var es := TwoNeighbours();
    assert es[..1] == [es[0]] && es[..1][..0] == [];
    assert Pack([0], 8, es[..1]) == [0] && Pack([4], 8, es[..1]) == [4];
    assert 4 in {4};
  }
}
