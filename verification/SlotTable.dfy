/** The table of live addresses of one configured class (src/linuxhooking/libmemhack.c).

    Slots hold an address, 0 for a hole, or the sentinel 1.  The table doubles when its last
    usable slot is taken, and one more slot behind it always keeps the sentinel. */
module SlotTable {

  const INVAL := 1  // ADDR_INVAL

  /** Value of the table: max_obj + 1 slots and the lowest index to insert at. */
  datatype Table = Table(slots: seq<nat>, insertIdx: nat)
  {
    function MaxObj(): int { |slots| - 1 }
  }

  /** memhack_init(): space for one object, filled with sentinels. */
  const EMPTY := Table([INVAL, INVAL], 0)

  function Sentinels(n: nat): (r: seq<nat>)
    ensures |r| == n && forall j :: 0 <= j < n ==> r[j] == INVAL
  {
    seq(n, _ => INVAL)
  }

  /** Index of the first sentinel: how many slots have ever been used. */
  function Used(slots: seq<nat>): (p: nat)
    ensures p <= |slots| && (p < |slots| ==> slots[p] == INVAL)
    ensures forall j :: 0 <= j < p ==> slots[j] != INVAL
  {
    if slots == [] || slots[0] == INVAL then 0 else 1 + Used(slots[1..])
  }

  /** First index from i on whose slot is free, or the length. */
  function FirstFree(slots: seq<nat>, i: nat): (j: nat)
    requires i <= |slots|
    ensures i <= j <= |slots| && (j < |slots| ==> slots[j] <= INVAL)
    ensures forall k :: i <= k < j ==> slots[k] > INVAL
    decreases |slots| - i
  {
    if i == |slots| || slots[i] <= INVAL then i else FirstFree(slots, i + 1)
  }

  /** Index of `addr` among the slots before the first sentinel, or Used(slots). */
  function Find(slots: seq<nat>, addr: nat): (j: nat)
    ensures j <= Used(slots) && (j < Used(slots) ==> slots[j] == addr)
    ensures forall k :: 0 <= k < j ==> slots[k] != addr
  {
    if slots == [] || slots[0] == INVAL || slots[0] == addr then 0 else 1 + Find(slots[1..], addr)
  }

  /** Doubling: max_obj more slots, all sentinels. */
  function Grown(t: Table): Table
    requires t.MaxObj() >= 1
  {
    if t.slots[t.MaxObj()-1] != INVAL then t.(slots := t.slots + Sentinels(t.MaxObj())) else t
  }

  function StoreIn(t: Table, addr: nat): Table
    requires t.MaxObj() >= 1 && t.insertIdx <= t.MaxObj()
  {
    var g := Grown(t);
    var j := FirstFree(g.slots, g.insertIdx);
    if j < g.MaxObj() then Table(g.slots[j := addr], j) else g
  }

  function FreeIn(t: Table, addr: nat): Table
  {
    var j := Find(t.slots, addr);
    if j < Used(t.slots) then Table(t.slots[j := 0], if j < t.insertIdx then j else t.insertIdx) else t
  }

  // ---------------------------------------------------------------------------
  // What the slots mean
  // ---------------------------------------------------------------------------

  /** The addresses the table keeps track of. */
  function Live(slots: seq<nat>): set<nat>
  {
    if slots == [] then {}
    else Live(slots[..|slots|-1]) + (if slots[|slots|-1] > INVAL then {slots[|slots|-1]} else {})
  }

  lemma {:induction false} LiveElements(slots: seq<nat>)
    ensures forall a :: a in Live(slots) <==> a > INVAL && a in slots
  {
    if slots != [] { LiveElements(slots[..|slots|-1]); }
  }

  ghost predicate Distinct(slots: seq<nat>)
  {
    forall i, j :: 0 <= i < j < |slots| && slots[i] > INVAL ==> slots[i] != slots[j]
  }

  /** Non-sentinels form a prefix, and the last slot is the sentinel. */
  ghost predicate PrefixUsed(slots: seq<nat>)
  {
    && |slots| >= 2 && slots[|slots|-1] == INVAL
    && forall j :: Used(slots) <= j < |slots| ==> slots[j] == INVAL
  }

  /** Holds at all times, also while frees interleave. */
  ghost predicate Sound(t: Table)
  {
    PrefixUsed(t.slots) && Distinct(t.slots) && t.insertIdx <= Used(t.slots)
  }

  /** Holds as long as frees are serialised: no hole lies below insert_idx. */
  ghost predicate Exact(t: Table)
  {
    Sound(t) && forall j :: 0 <= j < t.insertIdx && j < |t.slots| ==> t.slots[j] > INVAL
  }

  lemma {:induction false} LastIsNew(slots: seq<nat>)
    requires Distinct(slots) && slots != [] && slots[|slots|-1] > INVAL
    ensures slots[|slots|-1] !in Live(slots[..|slots|-1])
  {
    LiveElements(slots[..|slots|-1]);
  }

  /** There are as many live addresses as slots above the sentinel value. */
  lemma {:induction false} LiveCount(slots: seq<nat>)
    requires Distinct(slots)
    ensures |Live(slots)| <= |slots|
    ensures |Live(slots)| == |slots| <==> forall j :: 0 <= j < |slots| ==> slots[j] > INVAL
  {
    if slots != [] {
      var init, a := slots[..|slots|-1], slots[|slots|-1];
      LiveCount(init);
      if a > INVAL { LastIsNew(slots); }
      assert (forall j :: 0 <= j < |slots| ==> slots[j] > INVAL) <==>
        a > INVAL && forall j :: 0 <= j < |init| ==> init[j] > INVAL;
    }
  }

  lemma {:induction false} LiveOfPrefix(slots: seq<nat>, n: nat)
    requires n <= |slots| && forall j :: n <= j < |slots| ==> slots[j] <= INVAL
    ensures Live(slots) == Live(slots[..n])
  {
    if n < |slots| {
      LiveOfPrefix(slots[..|slots|-1], n);
      assert slots[..|slots|-1][..n] == slots[..n];
    } else {
      assert slots[..n] == slots;
    }
  }

  ghost predicate NoHole(slots: seq<nat>)
  {
    forall j :: 0 <= j < Used(slots) ==> slots[j] > INVAL
  }

  /** Live addresses never outnumber the used slots, and fill them exactly when there is
      no hole. */
  lemma {:induction false} LiveAgainstUsed(slots: seq<nat>)
    requires PrefixUsed(slots) && Distinct(slots)
    ensures |Live(slots)| <= Used(slots)
    ensures |Live(slots)| == Used(slots) <==> NoHole(slots)
  {
    var p := Used(slots);
    var s := slots[..p];
    LiveOfPrefix(slots, p);
    LiveCount(s);
    if NoHole(slots) {
      assert forall j :: 0 <= j < |s| ==> s[j] > INVAL;
    } else {
      var j :| 0 <= j < p && slots[j] <= INVAL;
      assert s[j] <= INVAL;
    }
  }

  /** Used is determined by where the first sentinel is. */
  lemma {:induction false} UsedIs(slots: seq<nat>, p: nat)
    requires p < |slots| && slots[p] == INVAL && forall j :: 0 <= j < p ==> slots[j] != INVAL
    ensures Used(slots) == p
  {
  }

  // ---------------------------------------------------------------------------
  // Growing, storing, freeing
  // ---------------------------------------------------------------------------

  /** Growing adds room and nothing else. */
  lemma {:induction false} GrownKeeps(t: Table)
    requires Sound(t)
    ensures Sound(Grown(t)) && Used(Grown(t).slots) == Used(t.slots) && Live(Grown(t).slots) == Live(t.slots)
    ensures Used(t.slots) < Grown(t).MaxObj() && t.slots <= Grown(t).slots
    ensures Exact(t) ==> Exact(Grown(t))
    ensures Grown(t) != t ==> Grown(t).MaxObj() == 2 * t.MaxObj() && Used(t.slots) == t.MaxObj()
  {
    if t.slots[t.MaxObj()-1] != INVAL {
      assert Used(t.slots) == t.MaxObj();
      MoreSentinels(t.slots, t.MaxObj());
    } else {
      assert t.slots[t.MaxObj()-1] == INVAL;
    }
  }

  /** Sentinels behind the table change nothing of what it holds. */
  lemma {:induction false} MoreSentinels(slots: seq<nat>, n: nat)
    requires PrefixUsed(slots) && Distinct(slots)
    ensures PrefixUsed(slots + Sentinels(n)) && Distinct(slots + Sentinels(n))
    ensures Used(slots + Sentinels(n)) == Used(slots) && Live(slots + Sentinels(n)) == Live(slots)
  {
    var more := slots + Sentinels(n);
    assert slots[Used(slots)] == INVAL;
    UsedIs(more, Used(slots));
    LiveElements(slots);
    LiveElements(more);
  }

  /** The slot a store writes: the first free one from insert_idx on. */
  function StoreIndex(t: Table): (j: nat)
    requires t.MaxObj() >= 1 && t.insertIdx <= t.MaxObj()
    ensures t.insertIdx <= j
  {
    FirstFree(Grown(t).slots, t.insertIdx)
  }

  /** Putting a new address into a free slot adds it to the live ones. */
  lemma {:induction false} PutAdds(slots: seq<nat>, j: nat, addr: nat)
    requires j < |slots| && slots[j] <= INVAL && Distinct(slots)
    requires addr > INVAL && addr !in Live(slots)
    ensures Live(slots[j := addr]) == Live(slots) + {addr} && Distinct(slots[j := addr])
  {
    var s := slots[j := addr];
    LiveElements(slots);
    LiveElements(s);
    assert s[j] == addr;
    forall a | a in slots && a > INVAL ensures a in s {
      var i :| 0 <= i < |slots| && slots[i] == a;
      assert s[i] == a;
    }
  }

  /** Storing into the first free slot, when there is room. */
  lemma {:induction false} PutKeeps(g: Table, addr: nat)
    requires Sound(g) && Used(g.slots) < g.MaxObj() && addr > INVAL && addr !in Live(g.slots)
    ensures
      var j := FirstFree(g.slots, g.insertIdx);
      && j <= Used(g.slots) && g.slots[j] <= INVAL
      && Sound(Table(g.slots[j := addr], j)) && Live(g.slots[j := addr]) == Live(g.slots) + {addr}
      && Used(g.slots[j := addr]) == if j == Used(g.slots) then j + 1 else Used(g.slots)
  {
    var p, j := Used(g.slots), FirstFree(g.slots, g.insertIdx);
    assert g.slots[p] == INVAL;
    PutAdds(g.slots, j, addr);
    UsedIs(g.slots[j := addr], if j == p then p + 1 else p);
  }

  /** A store always finds room and never overwrites a live address. */
  lemma {:induction false} StoreKeeps(t: Table, addr: nat)
    requires Sound(t) && addr > INVAL && addr !in Live(t.slots)
    ensures var t' := StoreIn(t, addr); var j := StoreIndex(t);
      && Sound(t') && Live(t'.slots) == Live(t.slots) + {addr}
      && j <= Used(t.slots) && t' == Table(Grown(t).slots[j := addr], j) && Grown(t).slots[j] <= INVAL
      && Used(t'.slots) == (if j == Used(t.slots) then j + 1 else Used(t.slots))
  {
    GrownKeeps(t);
    PutKeeps(Grown(t), addr);
  }

  /** The scan of a free finds a live address before the first sentinel. */
  lemma {:induction false} FindsLive(slots: seq<nat>, addr: nat)
    requires PrefixUsed(slots) && addr in Live(slots)
    ensures Find(slots, addr) < Used(slots)
  {
    LiveElements(slots);
    var i :| 0 <= i < |slots| && slots[i] == addr;
    if Used(slots) <= i {
      assert false;
    }
    FindBefore(slots, addr, i);
  }

  lemma {:induction false} FindBefore(slots: seq<nat>, addr: nat, i: nat)
    requires i < Used(slots) && slots[i] == addr
    ensures Find(slots, addr) <= i
  {
    if slots[0] != addr && i > 0 {
      FindBefore(slots[1..], addr, i - 1);
    }
  }

  /** Clearing the slot of a live address removes exactly that address. */
  lemma {:induction false} ClearRemoves(slots: seq<nat>, j: nat)
    requires j < |slots| && slots[j] > INVAL && Distinct(slots)
    ensures Live(slots[j := 0]) == Live(slots) - {slots[j]} && Distinct(slots[j := 0])
  {
    var s := slots[j := 0];
    LiveElements(slots);
    LiveElements(s);
    forall a | a in slots && a > INVAL && a != slots[j] ensures a in s {
      var i :| 0 <= i < |slots| && slots[i] == a;
      assert s[i] == a;
    }
    forall a | a in s && a > INVAL ensures a in slots && a != slots[j] {
      var i :| 0 <= i < |s| && s[i] == a;
      assert slots[i] == a;
    }
  }

  lemma {:induction false} FreeKeeps(t: Table, addr: nat)
    requires Sound(t) && addr > INVAL
    ensures var t' := FreeIn(t, addr);
      && Sound(t') && Live(t'.slots) == Live(t.slots) - {addr}
      && Used(t'.slots) == Used(t.slots) && |t'.slots| == |t.slots|
      && (addr !in Live(t.slots) ==> t' == t)
      && (Exact(t) ==> Exact(t'))
  {
    LiveElements(t.slots);
    if addr in Live(t.slots) {
      FindsLive(t.slots, addr);
      var j := Find(t.slots, addr);
      ClearRemoves(t.slots, j);
      UsedIs(t.slots[j := 0], Used(t.slots));
    }
  }

  /** With no hole below insert_idx, everything before the slot a store takes is live. */
  lemma {:induction false} StoreIndexIsLowest(t: Table)
    requires Exact(t)
    ensures forall k :: 0 <= k < StoreIndex(t) && k < |t.slots| ==> t.slots[k] > INVAL
    ensures StoreIndex(t) <= Used(t.slots)
  {
    GrownKeeps(t);
    var g := Grown(t);
    assert g.slots[Used(g.slots)] == INVAL;
    assert forall k :: 0 <= k < |t.slots| ==> g.slots[k] == t.slots[k];
  }

  lemma {:induction false} StoreExact(t: Table, addr: nat)
    requires Exact(t) && addr > INVAL && addr !in Live(t.slots)
    ensures Exact(StoreIn(t, addr))
  {
    StoreIndexIsLowest(t);
    StoreKeeps(t, addr);
    GrownKeeps(t);
  }

  /** A store takes the lowest free slot: a new slot is used only when every used one holds
      a live address. */
  lemma {:induction false} StoreUsesNewSlot(t: Table)
    requires Exact(t)
    ensures StoreIndex(t) == Used(t.slots) <==> NoHole(t.slots)
  {
    StoreIndexIsLowest(t);
    GrownKeeps(t);
    if StoreIndex(t) < Used(t.slots) {
      assert t.slots[StoreIndex(t)] <= INVAL;
    }
  }

  // ---------------------------------------------------------------------------
  // Whole runs with serialised frees
  // ---------------------------------------------------------------------------

  datatype Op = Store(addr: nat) | Free(addr: nat)

  /** Addresses live after a history of operations. */
  function LiveAfter(ops: seq<Op>): set<nat>
  {
    if ops == [] then {}
    else match ops[|ops|-1]
      case Store(a) => LiveAfter(ops[..|ops|-1]) + {a}
      case Free(a) => LiveAfter(ops[..|ops|-1]) - {a}
  }

  /** malloc() never returns an address that is still live, nor one of the markers. */
  ghost predicate Possible(ops: seq<Op>)
  {
    forall i :: 0 <= i < |ops| ==> ops[i].addr > INVAL && (ops[i].Store? ==> ops[i].addr !in LiveAfter(ops[..i]))
  }

  function Max(a: nat, b: nat): nat { if a < b then b else a }

  /** Most addresses live at the same time, over the whole history. */
  function Peak(ops: seq<Op>): nat
  {
    if ops == [] then 0 else Max(Peak(ops[..|ops|-1]), |LiveAfter(ops)|)
  }

  /** The table after a history; it holds exactly the live addresses. */
  function TableAfter(ops: seq<Op>): (t: Table)
    requires Possible(ops)
    ensures Sound(t) && Live(t.slots) == LiveAfter(ops)
  {
    if ops == [] then EmptySound(); EMPTY
    else PossibleInit(ops); Apply(TableAfter(ops[..|ops|-1]), ops[|ops|-1])
  }

  /** One operation on the table. */
  function Apply(t: Table, op: Op): (t': Table)
    requires Sound(t) && op.addr > INVAL && (op.Store? ==> op.addr !in Live(t.slots))
    ensures Sound(t') &&
      Live(t'.slots) == match op case Store(a) => Live(t.slots) + {a} case Free(a) => Live(t.slots) - {a}
  {
    match op
    case Store(a) => StoreKeeps(t, a); StoreIn(t, a)
    case Free(a) => FreeKeeps(t, a); FreeIn(t, a)
  }

  lemma {:induction false} EmptySound()
    ensures Exact(EMPTY) && Used(EMPTY.slots) == 0 && Live(EMPTY.slots) == {}
  {
    LiveElements(EMPTY.slots);
  }

  lemma {:induction false} PossibleInit(ops: seq<Op>)
    requires Possible(ops) && ops != []
    ensures Possible(ops[..|ops|-1])
    ensures var op := ops[|ops|-1]; op.addr > INVAL && (op.Store? ==> op.addr !in LiveAfter(ops[..|ops|-1]))
  {
    var init := ops[..|ops|-1];
    forall i | 0 <= i < |init| ensures init[i].addr > INVAL && (init[i].Store? ==>
      init[i].addr !in LiveAfter(init[..i])) {
      assert init[..i] == ops[..i] && ops[i] == init[i];
    }
  }

  /** The used slots are as many as the peak, and the capacity is in proportion. */
  ghost predicate AtPeak(t: Table, peak: nat)
  {
    Exact(t) && Used(t.slots) == peak && |t.slots| <= 1 + Max(1, 2 * peak)
  }

  lemma {:induction false} StoreAtPeak(t: Table, addr: nat, peak: nat)
    requires AtPeak(t, peak) && addr > INVAL && addr !in Live(t.slots)
    ensures AtPeak(StoreIn(t, addr), Max(peak, |Live(t.slots) + {addr}|))
  {
    LiveAgainstUsed(t.slots);
    GrownKeeps(t);
    StoreKeeps(t, addr);
    StoreExact(t, addr);
    StoreUsesNewSlot(t);
  }

  lemma {:induction false} FreeAtPeak(t: Table, addr: nat, peak: nat)
    requires AtPeak(t, peak) && addr > INVAL
    ensures AtPeak(FreeIn(t, addr), Max(peak, |Live(t.slots) - {addr}|))
  {
    FreeKeeps(t, addr);
    LiveAgainstUsed(FreeIn(t, addr).slots);
  }

  /** The first sentinel stands at the peak number of live objects, and the table never
      has more than twice that many usable slots. */
  lemma {:induction false} FirstSentinelIsPeak(ops: seq<Op>)
    requires Possible(ops)
    ensures AtPeak(TableAfter(ops), Peak(ops))
  {
    EmptySound();
    if ops != [] {
      PossibleInit(ops);
      var init, op := ops[..|ops|-1], ops[|ops|-1];
      FirstSentinelIsPeak(init);
      if op.Store? {
        StoreAtPeak(TableAfter(init), op.addr, Peak(init));
      } else {
        FreeAtPeak(TableAfter(init), op.addr, Peak(init));
      }
    }
  }

  lemma {:induction false} IndexInside(t: Table)
    requires Sound(t)
    ensures t.insertIdx < |t.slots|
  {
    assert t.slots[|t.slots|-1] == INVAL && Used(t.slots) < |t.slots|;
  }

  // ---------------------------------------------------------------------------
  // The code
  // ---------------------------------------------------------------------------

  /** struct cfg: mem_addrs, max_obj and insert_idx. */
  class SlotArray {
    var memAddrs: array<nat>
    var maxObj: nat
    var insertIdx: nat

    ghost function Value(): Table
      reads this, memAddrs
    {
      Table(memAddrs[..], insertIdx)
    }

    ghost predicate Valid()
      reads this, memAddrs
    {
      memAddrs.Length == maxObj + 1 && Sound(Value())
    }

    constructor ()
      ensures Valid() && Value() == EMPTY && fresh(memAddrs)
    {
      memAddrs := new nat[2](_ => INVAL);
      maxObj, insertIdx := 1, 0;
      new;
      assert memAddrs[..] == EMPTY.slots;
      EmptySound();
    }

    /** store_mem_addr() */
    method StoreMemAddr(addr: nat)
      requires Valid() && addr > INVAL && addr !in Live(Value().slots)
      modifies this, memAddrs
      ensures Valid() && Value() == StoreIn(old(Value()), addr)
      ensures memAddrs == old(memAddrs) || fresh(memAddrs)
    {
      ghost var t := Value();
      IndexInside(t);
      if memAddrs[maxObj-1] != INVAL {
        Grow();
      }
      Insert(addr);
      StoreKeeps(t, addr);
    }

    /** The actual storing: the first free slot from insert_idx on. */
    method Insert(addr: nat)
      requires memAddrs.Length == maxObj + 1 && insertIdx <= maxObj
      modifies this`insertIdx, memAddrs
      ensures var s := old(memAddrs[..]); var j := FirstFree(s, old(insertIdx));
        Value() == if j < maxObj then Table(s[j := addr], j) else old(Value())
    {
      ghost var s := memAddrs[..];
      var j := insertIdx;
      while j < maxObj
        invariant insertIdx <= j <= maxObj && memAddrs[..] == s && insertIdx == old(insertIdx)
        invariant FirstFree(s, insertIdx) == FirstFree(s, j)
      {
        if memAddrs[j] <= INVAL {
          memAddrs[j] := addr;
          insertIdx := j;
          return;
        }
        j := j + 1;
      }
    }

    /** The size doubling: realloc() keeps the old slots, and the new ones get the sentinel
        (the old last slot already holds it). */
    method Grow()
      requires memAddrs.Length == maxObj + 1 >= 2 && memAddrs[maxObj-1] != INVAL
      modifies this
      ensures memAddrs.Length == maxObj + 1 && fresh(memAddrs) && Value() == Grown(old(Value()))
      ensures insertIdx == old(insertIdx) && maxObj == 2 * old(maxObj)
    {
      var o, n := memAddrs, maxObj;
      var a := new nat[2 * n + 1](_ => 0);
      forall i | 0 <= i <= n { a[i] := o[i]; }
      for j := n + 1 to 2 * n + 1
        invariant o == old(memAddrs) && n == old(maxObj) && o[..] == old(memAddrs[..]) && insertIdx == old(insertIdx)
        invariant forall i :: 0 <= i <= n ==> a[i] == o[i]
        invariant forall i :: n < i < j ==> a[i] == INVAL
      {
        a[j] := INVAL;
      }
      assert a[..] == o[..] + Sentinels(n);
      memAddrs, maxObj := a, 2 * n;
    }

    /** The search and removal in preprocess_free(); true when the address was found and
        the free is announced. */
    method RemoveMemAddr(addr: nat) returns (found: bool)
      requires Valid() && addr > INVAL
      modifies this`insertIdx, memAddrs
      ensures Valid() && Value() == FreeIn(old(Value()), addr)
      ensures found <==> addr in Live(old(Value()).slots)
    {
      ghost var s := memAddrs[..];
      FreeKeeps(Value(), addr);
      LiveElements(s);
      var j := 0;
      while memAddrs[j] != INVAL
        invariant j <= Used(s) < memAddrs.Length && memAddrs[..] == s
        invariant forall k :: 0 <= k < j ==> s[k] != addr
        decreases memAddrs.Length - j
      {
        if memAddrs[j] == addr {
          FoundAt(s, addr, j);
          memAddrs[j] := 0;
          if j < insertIdx { insertIdx := j; }
          return true;
        }
        j := j + 1;
      }
      NotBeforeSentinel(s, addr, j);
      return false;
    }
  }

  lemma {:induction false} FoundAt(slots: seq<nat>, addr: nat, j: nat)
    requires j < Used(slots) && slots[j] == addr
    requires forall k :: 0 <= k < j ==> slots[k] != addr
    ensures Find(slots, addr) == j
  {
    FindBefore(slots, addr, j);
  }

  /** An address that is not before the first sentinel is not live. */
  lemma {:induction false} NotBeforeSentinel(slots: seq<nat>, addr: nat, j: nat)
    requires PrefixUsed(slots) && j <= Used(slots) && j < |slots| && slots[j] == INVAL
    requires forall k :: 0 <= k < j ==> slots[k] != addr
    ensures addr !in Live(slots) && Find(slots, addr) == Used(slots)
  {
    LiveElements(slots);
    assert Used(slots) == j;
  }
}
