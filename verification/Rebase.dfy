/** Shifting configured static addresses to where the binary and its libraries were loaded
    (handle_statmem_pie() and handle_statmem_pic(), src/aslr.h).  Values and checks share
    windows; a window's dirty flag is borrowed to shift it only once. */
module Rebase {
  import opened Common

  /** Where an address lies in a window: the fixed position of its data in the cache. */
  function Index(addr: nat, offs: nat): nat { (addr - offs) % PTR_RANGE }

  class CacheEntry {
    var offs: nat
    var isDirty: bool
    ghost const base: nat          // start as configured
    ghost const owner: LibEntry?   // library whose list it is on

    constructor (offs: nat, ghost owner: LibEntry?)
      ensures this.offs == base == offs && !isDirty && this.owner == owner
    {
      this.offs, this.base, this.owner, isDirty := offs, offs, owner, false;
    }
  }

  class LibEntry {
    var start: nat                 // 0 until the library is found
    var isLoaded: bool
    var caches: seq<CacheEntry>

    constructor ()
      ensures start == 0 && !isLoaded && caches == []
    {
      start, isLoaded, caches := 0, false, [];
    }
  }

  /** Address and window of a value or check in static memory.  Strings, their checks and
      checks of another value have no window. */
  class Place {
    var addr: nat
    const onStack: bool
    const lib: LibEntry?
    const cache: CacheEntry?
    ghost const base: nat          // address as configured

    constructor (addr: nat, onStack: bool, lib: LibEntry?, cache: CacheEntry?)
      ensures this.addr == base == addr && this.onStack == onStack && this.lib == lib && this.cache == cache
    {
      this.addr, this.base, this.onStack, this.lib, this.cache := addr, addr, onStack, lib, cache;
    }
  }

  class DumpEntry {
    var addr: nat
    const lib: LibEntry?
    ghost const base: nat

    constructor (addr: nat, lib: LibEntry?)
      ensures this.addr == base == addr && this.lib == lib
    {
      this.addr, this.base, this.lib := addr, addr, lib;
    }
  }

  datatype Value = Value(dynamic: bool, place: Place, checks: seq<Place>)

  function PlacesOf(v: Value): set<Place>
  {
    {v.place} + set k | k in v.checks
  }

  ghost predicate Distinct(v: Value)
  {
    v.place !in v.checks && forall i, j :: 0 <= i < j < |v.checks| ==> v.checks[i] != v.checks[j]
  }

  ghost predicate Apart(cfg: seq<Value>)
  {
    && (forall i, j :: 0 <= i < j < |cfg| ==> PlacesOf(cfg[i]) !! PlacesOf(cfg[j]))
    && (forall i :: 0 <= i < |cfg| ==> Distinct(cfg[i]))
  }

  /** Shifting both by the same amount does not move an address within its window. */
  lemma {:induction false} ShiftKeepsIndex(addr: nat, offs: nat, delta: nat)
    ensures Index(Add(addr, delta), Add(offs, delta)) == Index(addr, offs)
  {}

  /** Shifting them by different amounts does, unless the amounts agree as addresses. */
  lemma {:induction false} ShiftsMustAgree(addr: nat, offs: nat, delta: nat, windowDelta: nat)
    requires delta < PTR_RANGE && windowDelta < PTR_RANGE
    ensures Index(Add(addr, delta), Add(offs, windowDelta)) == Index(addr, offs) <==> delta == windowDelta
  {
    var d, k := addr - offs, delta - windowDelta;
    Differences(addr + delta, offs + windowDelta);
    Wraps(d, k);
    assert (d + k) % PTR_RANGE == (addr + delta - (offs + windowDelta)) % PTR_RANGE;
  }

  lemma {:induction false} Differences(x: nat, y: nat)
    ensures (x % PTR_RANGE - y % PTR_RANGE) % PTR_RANGE == (x - y) % PTR_RANGE
  {
    var p, q := x / PTR_RANGE, y / PTR_RANGE;
    assert x - y == (x % PTR_RANGE - y % PTR_RANGE) + PTR_RANGE * (p - q);
  }

  lemma {:induction false} Wraps(d: int, k: int)
    requires -PTR_RANGE < k < PTR_RANGE
    ensures (d + k) % PTR_RANGE == d % PTR_RANGE <==> k == 0
  {
    var r := d % PTR_RANGE + k;
    assert (d + k) % PTR_RANGE ==
      if r < 0 then r + PTR_RANGE else if r < PTR_RANGE then r else r - PTR_RANGE;
  }

  function WindowOf(p: Place): set<CacheEntry>
  {
    if p.cache == null then {} else {p.cache}
  }

  /** An address and, unless that was done, its window.  The code looks at the window without
      asking whether there is one. */
  method ShiftPlace(p: Place, delta: nat, windowDelta: nat) returns (ok: bool)
    modifies p`addr, WindowOf(p)`offs, WindowOf(p)`isDirty
    ensures p.addr == Add(old(p.addr), delta) && ok == (p.cache != null)
    ensures ok ==> p.cache.isDirty
    ensures ok ==> p.cache.offs == if old(p.cache.isDirty) then old(p.cache.offs)
      else Add(old(p.cache.offs), windowDelta)
  {
    p.addr := Add(p.addr, delta);
    if p.cache == null { return false; }
    if !p.cache.isDirty {
      p.cache.isDirty := true;
      p.cache.offs := Add(p.cache.offs, windowDelta);
    }
    return true;
  }

  // ---------------------------------------------------------------------------
  // The binary itself
  // ---------------------------------------------------------------------------

  predicate Static(p: Place) { !p.onStack && p.lib == null }

  /** Values and checks that are shifted with the binary. */
  function StaticPlaces(v: Value): set<Place>
  {
    if v.dynamic then {} else set p | p in PlacesOf(v) && Static(p)
  }

  ghost function AllStaticPlaces(cfg: seq<Value>): set<Place>
  {
    set i, p | 0 <= i < |cfg| && p in StaticPlaces(cfg[i]) :: p
  }

  predicate HasWindow(p: Place) { p.cache != null }

  predicate InWindows(p: Place, windows: set<CacheEntry>) { p.cache != null ==> p.cache in windows }

  ghost predicate PieWindow(c: CacheEntry, codeOffs: nat)
    reads c
  {
    c.offs == if c.isDirty then Add(c.base, codeOffs) else c.base
  }

  ghost predicate PieDone(p: Place, codeOffs: nat)
    reads p, p.cache
  {
    p.addr == Add(p.base, codeOffs) && p.cache != null && p.cache.isDirty
  }

  /** One address that is to be shifted, with its window. */
  method PiePlace(p: Place, codeOffs: nat, ghost all: set<CacheEntry>) returns (ok: bool)
    requires InWindows(p, all) && p.addr == p.base
    requires forall c :: c in all ==> PieWindow(c, codeOffs)
    modifies p`addr, WindowOf(p)`offs, WindowOf(p)`isDirty
    ensures ok == HasWindow(p)
    ensures ok ==> PieDone(p, codeOffs) && forall c :: c in all ==>
      PieWindow(c, codeOffs) && (old(c.isDirty) ==> c.isDirty)
  {
    assert p.cache != null ==> PieWindow(p.cache, codeOffs);
    ok := ShiftPlace(p, codeOffs, codeOffs);
  }

  method PieChecks(checks: seq<Place>, codeOffs: nat, ghost all: set<CacheEntry>) returns (ok: bool)
    requires forall i, j :: 0 <= i < j < |checks| ==> checks[i] != checks[j]
    requires forall k :: k in checks && Static(k) ==> InWindows(k, all) && k.addr == k.base
    requires forall c :: c in all ==> PieWindow(c, codeOffs)
    modifies (set k | k in checks && Static(k))`addr, all`offs, all`isDirty
    ensures ok <==> forall k :: k in checks && Static(k) ==> HasWindow(k)
    ensures ok ==> forall c :: c in all ==> PieWindow(c, codeOffs) && (old(c.isDirty) ==> c.isDirty)
    ensures ok ==> forall k :: k in checks && Static(k) ==> PieDone(k, codeOffs)
  {
    for j := 0 to |checks|
      invariant forall c :: c in all ==> PieWindow(c, codeOffs) && (old(c.isDirty) ==> c.isDirty)
      invariant forall i :: 0 <= i < j && Static(checks[i]) ==> PieDone(checks[i], codeOffs)
      invariant forall i :: j <= i < |checks| && Static(checks[i]) ==> checks[i].addr == checks[i].base
    {
      if checks[j].onStack || checks[j].lib != null { continue; }
      var shifted := PiePlace(checks[j], codeOffs, all);
      if !shifted { return false; }
    }
    return true;
  }

  method PieValue(v: Value, codeOffs: nat, ghost all: set<CacheEntry>) returns (ok: bool)
    requires Distinct(v) && forall p :: p in StaticPlaces(v) ==> InWindows(p, all) && p.addr == p.base
    requires forall c :: c in all ==> PieWindow(c, codeOffs)
    modifies StaticPlaces(v)`addr, all`offs, all`isDirty
    ensures ok <==> forall p :: p in StaticPlaces(v) ==> HasWindow(p)
    ensures ok ==> forall c :: c in all ==> PieWindow(c, codeOffs) && (old(c.isDirty) ==> c.isDirty)
    ensures ok ==> forall p :: p in StaticPlaces(v) ==> PieDone(p, codeOffs)
  {
    if v.dynamic { return true; }
    assert forall k :: k in v.checks && Static(k) ==> k in StaticPlaces(v);
    if !v.place.onStack && v.place.lib == null {
      assert v.place in StaticPlaces(v);
      ok := PiePlace(v.place, codeOffs, all);
      if !ok { return; }
    }
    ok := PieChecks(v.checks, codeOffs, all);
    assert forall p :: p in StaticPlaces(v) ==> p == v.place || (p in v.checks && Static(p));
  }

  /** Values and checks of the configuration, spread over windows that are all clean. */
  ghost predicate Laid(cfg: seq<Value>, all: set<CacheEntry>)
    reads all
  {
    Apart(cfg) && (forall p :: p in AllStaticPlaces(cfg) ==> InWindows(p, all)) && forall c :: c in all ==> !c.isDirty
  }

  lemma {:induction false} PlacesOfApart(cfg: seq<Value>, i: nat, j: nat)
    requires Apart(cfg) && i < |cfg| && j < |cfg| && i != j
    ensures PlacesOf(cfg[i]) !! PlacesOf(cfg[j])
  {}

  ghost predicate PieValueDone(v: Value, codeOffs: nat, all: set<CacheEntry>)
    reads PlacesOf(v), all
  {
    forall p :: p in StaticPlaces(v) ==> p.cache in all && PieDone(p, codeOffs)
  }

  ghost predicate AtBase(v: Value)
    reads PlacesOf(v)
  {
    forall p :: p in StaticPlaces(v) ==> p.addr == p.base
  }

  predicate AllWindowed(v: Value)
  {
    forall p :: p in StaticPlaces(v) ==> HasWindow(p)
  }

  method PieNth(cfg: seq<Value>, n: nat, codeOffs: nat, ghost all: set<CacheEntry>) returns (ok: bool)
    requires Apart(cfg) && n < |cfg| && AtBase(cfg[n]) && forall p :: p in StaticPlaces(cfg[n]) ==> InWindows(p, all)
    requires forall c :: c in all ==> PieWindow(c, codeOffs)
    modifies StaticPlaces(cfg[n])`addr, all`offs, all`isDirty
    ensures ok == AllWindowed(cfg[n])
    ensures ok ==> (forall c :: c in all ==> PieWindow(c, codeOffs)) && PieValueDone(cfg[n], codeOffs, all)
    ensures ok ==> forall i :: 0 <= i < |cfg| && i != n && old(PieValueDone(cfg[i], codeOffs, all)) ==>
      PieValueDone(cfg[i], codeOffs, all)
    ensures ok ==> forall i :: 0 <= i < |cfg| && i != n && old(AtBase(cfg[i])) ==> AtBase(cfg[i])
  {
    ok := PieValue(cfg[n], codeOffs, all);
    if !ok { return; }
    forall i | 0 <= i < |cfg| && i != n
      ensures old(PieValueDone(cfg[i], codeOffs, all)) ==> PieValueDone(cfg[i], codeOffs, all)
      ensures old(AtBase(cfg[i])) ==> AtBase(cfg[i])
    {
      PlacesOfApart(cfg, i, n);
      assert forall p :: p in PlacesOf(cfg[i]) ==> p.addr == old(p.addr);
    }
  }

  method PieValues(cfg: seq<Value>, codeOffs: nat, ghost all: set<CacheEntry>) returns (ok: bool)
    requires Laid(cfg, all) && forall i :: 0 <= i < |cfg| ==> AtBase(cfg[i])
    requires forall c :: c in all ==> c.offs == c.base
    modifies AllStaticPlaces(cfg)`addr, all`offs, all`isDirty
    ensures ok <==> forall i :: 0 <= i < |cfg| ==> AllWindowed(cfg[i])
    ensures ok ==> forall c :: c in all ==> PieWindow(c, codeOffs)
    ensures ok ==> forall i :: 0 <= i < |cfg| ==> PieValueDone(cfg[i], codeOffs, all)
  {
    for n := 0 to |cfg|
      invariant forall c :: c in all ==> PieWindow(c, codeOffs)
      invariant forall i :: 0 <= i < n ==> PieValueDone(cfg[i], codeOffs, all) && AllWindowed(cfg[i])
      invariant forall i :: n <= i < |cfg| ==> AtBase(cfg[i])
    {
      assert forall p :: p in StaticPlaces(cfg[n]) ==> p in AllStaticPlaces(cfg);
      var done := PieNth(cfg, n, codeOffs, all);
      if !done { return false; }
    }
    return true;
  }

  method PieDumps(dumps: seq<DumpEntry>, codeOffs: nat)
    requires forall i, j :: 0 <= i < j < |dumps| ==> dumps[i] != dumps[j]
    modifies dumps`addr
    ensures forall i :: 0 <= i < |dumps| ==>
      dumps[i].addr == if dumps[i].lib == null then Add(old(dumps[i].addr), codeOffs) else old(dumps[i].addr)
  {
    for n := 0 to |dumps|
      invariant forall i :: 0 <= i < n ==>
        dumps[i].addr == if dumps[i].lib == null then Add(old(dumps[i].addr), codeOffs) else old(dumps[i].addr)
      invariant forall i :: n <= i < |dumps| ==> dumps[i].addr == old(dumps[i].addr)
    {
      if dumps[n].lib != null { continue; }
      dumps[n].addr := Add(dumps[n].addr, codeOffs);
    }
  }

  method ClearFlags(caches: seq<CacheEntry>)
    modifies caches`isDirty
    ensures forall i :: 0 <= i < |caches| ==> !caches[i].isDirty
  {
    for n := 0 to |caches|
      invariant forall i :: 0 <= i < n ==> !caches[i].isDirty
    {
      caches[n].isDirty := false;
    }
  }

  /** Static addresses of the binary and their windows are where the binary was loaded. */
  ghost predicate PieShifted(p: Place, codeOffs: nat)
    reads p, p.cache
  {
    p.addr == Add(p.base, codeOffs) && p.cache != null && p.cache.offs == Add(p.cache.base, codeOffs)
  }

  /** The address of the value, and those of its checks. */
  function AddressesOf(v: Value): seq<Place> { [v.place] + v.checks }

  /** The address belongs to the binary: it is neither in an object, nor on the stack, nor in a
      library. */
  predicate OfBinary(v: Value, p: Place) { !v.dynamic && !p.onStack && p.lib == null }

  /** Some address of the binary lies in the window. */
  ghost predicate HoldsBinary(cfg: seq<Value>, c: CacheEntry)
  {
    exists i, p :: 0 <= i < |cfg| && p in AddressesOf(cfg[i]) && OfBinary(cfg[i], p) && p.cache == c
  }

  ghost function StaticWindows(cfg: seq<Value>): set<CacheEntry>
  {
    set p, c | p in AllStaticPlaces(cfg) && c in WindowOf(p) :: c
  }

  lemma {:induction false} StaticIsOfBinary(cfg: seq<Value>, i: nat, p: Place)
    requires Apart(cfg) && i < |cfg| && p in AddressesOf(cfg[i])
    ensures p in AllStaticPlaces(cfg) <==> OfBinary(cfg[i], p)
  {
    forall j | 0 <= j < |cfg| && p in StaticPlaces(cfg[j]) ensures i == j {
      assert p in PlacesOf(cfg[i]) && p in PlacesOf(cfg[j]);
    }
    if OfBinary(cfg[i], p) { assert p in StaticPlaces(cfg[i]); }
  }

  lemma {:induction false} StaticHoldsBinary(cfg: seq<Value>, c: CacheEntry)
    ensures c in StaticWindows(cfg) <==> HoldsBinary(cfg, c)
  {
    if c in StaticWindows(cfg) {
      var p :| p in AllStaticPlaces(cfg) && c in WindowOf(p);
      var i :| 0 <= i < |cfg| && p in StaticPlaces(cfg[i]);
      assert p in AddressesOf(cfg[i]) && OfBinary(cfg[i], p);
    }
    if i, p :| 0 <= i < |cfg| && p in AddressesOf(cfg[i]) && OfBinary(cfg[i], p) && p.cache == c {
      assert p in StaticPlaces(cfg[i]) && p in AllStaticPlaces(cfg) && c in WindowOf(p);
    }
  }

  /** The addresses of the binary have been moved, and no others. */
  twostate predicate AddressesMoved(cfg: seq<Value>, codeOffs: nat)
    reads set i, p | 0 <= i < |cfg| && p in AddressesOf(cfg[i]) :: p
  {
    forall i, p :: 0 <= i < |cfg| && p in AddressesOf(cfg[i]) ==>
      p.addr == if OfBinary(cfg[i], p) then (p.base + codeOffs) % PTR_RANGE else old(p.addr)
  }

  /** The windows with addresses of the binary in them have been moved, and no others. */
  ghost predicate WindowsMoved(cfg: seq<Value>, caches: seq<CacheEntry>, codeOffs: nat)
    reads caches
  {
    forall c :: c in caches ==> c.offs == if HoldsBinary(cfg, c) then (c.base + codeOffs) % PTR_RANGE else c.base
  }

  lemma {:induction false} StaticInWindows(cfg: seq<Value>, caches: seq<CacheEntry>)
    requires Laid(cfg, set c | c in caches)
    ensures Laid(cfg, StaticWindows(cfg)) && forall c :: c in StaticWindows(cfg) ==> c in caches
  {
    forall p | p in AllStaticPlaces(cfg) ensures InWindows(p, StaticWindows(cfg)) {
      if p.cache != null { assert p.cache in WindowOf(p); }
    }
    forall c | c in StaticWindows(cfg) ensures c in caches && !c.isDirty {
      var p :| p in AllStaticPlaces(cfg) && c in WindowOf(p);
      assert InWindows(p, set c | c in caches);
    }
  }

  lemma {:induction false} AllWindowsShifted(cfg: seq<Value>, codeOffs: nat)
    requires forall p :: p in AllStaticPlaces(cfg) ==> PieShifted(p, codeOffs)
    ensures forall c :: c in StaticWindows(cfg) ==> c.offs == Add(c.base, codeOffs)
  {
    forall c | c in StaticWindows(cfg) ensures c.offs == Add(c.base, codeOffs) {
      var p :| p in AllStaticPlaces(cfg) && c in WindowOf(p);
    }
  }

  /** The loop over values and checks: it touches no other address and no other window. */
  method PieUsed(cfg: seq<Value>, codeOffs: nat) returns (ok: bool)
    requires Laid(cfg, StaticWindows(cfg)) && (forall i :: 0 <= i < |cfg| ==> AtBase(cfg[i])) &&
      forall c :: c in StaticWindows(cfg) ==> c.offs == c.base
    modifies AllStaticPlaces(cfg)`addr, StaticWindows(cfg)`offs, StaticWindows(cfg)`isDirty
    ensures ok <==> forall p :: p in AllStaticPlaces(cfg) ==> HasWindow(p)
    ensures ok ==> forall p :: p in AllStaticPlaces(cfg) ==> PieShifted(p, codeOffs)
    ensures ok ==> forall c :: c in StaticWindows(cfg) ==> c.offs == Add(c.base, codeOffs)
  {
    ok := PieValues(cfg, codeOffs, StaticWindows(cfg));
    AllWindowedIff(cfg);
    if !ok { return; }
    assert forall p :: p in AllStaticPlaces(cfg) ==> PieShifted(p, codeOffs);
    AllWindowsShifted(cfg, codeOffs);
  }

  method PieBinary(cfg: seq<Value>, caches: seq<CacheEntry>, codeOffs: nat) returns (ok: bool)
    requires Laid(cfg, set c | c in caches) && (forall i :: 0 <= i < |cfg| ==>
      AtBase(cfg[i])) && forall c :: c in caches ==> c.offs == c.base
    modifies AllStaticPlaces(cfg)`addr, caches`offs, caches`isDirty
    ensures ok <==> forall p :: p in AllStaticPlaces(cfg) ==> HasWindow(p)
    ensures ok ==> forall p :: p in AllStaticPlaces(cfg) ==> PieShifted(p, codeOffs)
    ensures ok ==> AddressesMoved(cfg, codeOffs) && WindowsMoved(cfg, caches, codeOffs)
  {
    StaticInWindows(cfg, caches);
    ok := PieUsed(cfg, codeOffs);
    if !ok { return; }
    forall i, p | 0 <= i < |cfg| && p in AddressesOf(cfg[i])
      ensures p.addr == if OfBinary(cfg[i], p) then (p.base + codeOffs) % PTR_RANGE else old(p.addr)
    {
      StaticIsOfBinary(cfg, i, p);
    }
    forall c | c in caches
      ensures c.offs == if HoldsBinary(cfg, c) then (c.base + codeOffs) % PTR_RANGE else c.base
    {
      StaticHoldsBinary(cfg, c);
    }
  }

  /** The loops over dump areas and flags. */
  method PieRest(caches: seq<CacheEntry>, dumps: seq<DumpEntry>, codeOffs: nat)
    requires forall i, j :: 0 <= i < j < |dumps| ==> dumps[i] != dumps[j]
    modifies caches`isDirty, dumps`addr
    ensures forall i :: 0 <= i < |dumps| ==>
      dumps[i].addr == if dumps[i].lib == null then Add(old(dumps[i].addr), codeOffs) else old(dumps[i].addr)
    ensures forall c :: c in caches ==> !c.isDirty
  {
    PieDumps(dumps, codeOffs);
    ClearFlags(caches);
  }

  /** handle_statmem_pie(): completes if and only if everything that is shifted has a window.
      Then every address of the binary, and every window with one in it, is where the binary was
      loaded; addresses in objects, on the stack and in libraries, and all other windows, stay. */
  method HandleStatmemPie(cfg: seq<Value>, caches: seq<CacheEntry>, dumps: seq<DumpEntry>,
        codeOffs: nat) returns (completed: bool)
    requires Laid(cfg, set c | c in caches) && (forall i :: 0 <= i < |cfg| ==>
      AtBase(cfg[i])) && forall c :: c in caches ==> c.offs == c.base
    requires forall i, j :: 0 <= i < j < |dumps| ==> dumps[i] != dumps[j]
    modifies AllStaticPlaces(cfg)`addr, caches`offs, caches`isDirty, dumps`addr
    ensures completed <==> forall p :: p in AllStaticPlaces(cfg) ==> HasWindow(p)
    ensures completed ==> forall p :: p in AllStaticPlaces(cfg) ==> PieShifted(p, codeOffs)
    ensures completed ==> forall i :: 0 <= i < |dumps| ==>
      dumps[i].addr == if dumps[i].lib == null then Add(old(dumps[i].addr), codeOffs) else old(dumps[i].addr)
    ensures completed ==> forall c :: c in caches ==> !c.isDirty
    ensures completed ==> AddressesMoved(cfg, codeOffs) && WindowsMoved(cfg, caches, codeOffs)
  {
    completed := PieBinary(cfg, caches, codeOffs);
    if completed { PieRest(caches, dumps, codeOffs); }
  }

  lemma {:induction false} AllWindowedIff(cfg: seq<Value>)
    ensures (forall i :: 0 <= i < |cfg| ==> AllWindowed(cfg[i])) <==>
      forall p :: p in AllStaticPlaces(cfg) ==> HasWindow(p)
  {
    if forall p :: p in AllStaticPlaces(cfg) ==> HasWindow(p) {
      forall i, p | 0 <= i < |cfg| &&
        p in StaticPlaces(cfg[i]) ensures HasWindow(p) { assert p in AllStaticPlaces(cfg); }
    }
  }

  // ---------------------------------------------------------------------------
  // Libraries, once they are found
  // ---------------------------------------------------------------------------

  /** Found, but nothing of it shifted yet. */
  predicate Pending(lib: LibEntry?)
    reads lib
  {
    lib != null && lib.start != 0 && !lib.isLoaded
  }

  /** Where something configured relative to a library is now. */
  function Where(base: nat, lib: LibEntry?): nat
    reads lib
  {
    if lib != null && lib.isLoaded then Add(base, lib.start) else base
  }

  ghost predicate PicWindow(c: CacheEntry)
    reads c, c.owner
  {
    if c.isDirty then c.owner != null && Pending(c.owner) && c.offs == Add(c.base, c.owner.start)
      else c.offs == Where(c.base, c.owner)
  }

  /** Static values and checks that lie in a library. */
  function LibPlaces(v: Value): set<Place>
  {
    if v.dynamic then {} else set p | p in PlacesOf(v) && p.lib != null
  }

  function LibsOf(v: Value): set<LibEntry>
  {
    set p | p in PlacesOf(v) && p.lib != null :: p.lib
  }

  ghost function AllLibPlaces(cfg: seq<Value>): set<Place>
  {
    set i, p | 0 <= i < |cfg| && p in LibPlaces(cfg[i]) :: p
  }

  /** The windows that library values and checks lie in. */
  ghost function LibWindows(cfg: seq<Value>): set<CacheEntry>
  {
    set p, c | p in AllLibPlaces(cfg) && c in WindowOf(p) :: c
  }

  /** A check is moved by the start of the library of its value. */
  ghost predicate PicDone(p: Place, valueLib: LibEntry?)
    reads p, p.lib, p.cache, valueLib
  {
    if Pending(p.lib) then valueLib != null && p.addr == Add(p.base, valueLib.start) && p.cache != null &&
      p.cache.isDirty
    else p.addr == Where(p.base, p.lib)
  }

  ghost predicate InOwnWindow(p: Place, all: set<CacheEntry>)
  {
    p.cache != null ==> p.cache in all && p.cache.owner == p.lib
  }

  /** What the code needs of an address that is due: a window, and for its value a library. */
  predicate Movable(p: Place, valueLib: LibEntry?) { p.cache != null && valueLib != null }

  /** One address that is due, with its window. */
  method PicPlace(p: Place, valueLib: LibEntry, ghost all: set<CacheEntry>) returns (ok: bool)
    requires InOwnWindow(p, all) && Pending(p.lib) && p.addr == p.base
    requires forall c :: c in all ==> PicWindow(c)
    modifies p`addr, WindowOf(p)`offs, WindowOf(p)`isDirty
    ensures ok == HasWindow(p)
    ensures ok ==> PicDone(p, valueLib) && forall c :: c in all ==> PicWindow(c) && (old(c.isDirty) ==> c.isDirty)
  {
    assert p.cache != null ==> PicWindow(p.cache);
    ok := ShiftPlace(p, valueLib.start, p.lib.start);
  }

  method PicChecks(checks: seq<Place>, valueLib: LibEntry?, ghost all: set<CacheEntry>) returns (ok: bool)
    requires forall i, j :: 0 <= i < j < |checks| ==> checks[i] != checks[j]
    requires forall k :: k in checks && k.lib != null ==> InOwnWindow(k, all) && k.addr == Where(k.base, k.lib)
    requires forall c :: c in all ==> PicWindow(c)
    modifies (set k | k in checks && k.lib != null)`addr, all`offs, all`isDirty
    ensures ok <==> forall k :: k in checks && Pending(k.lib) ==> Movable(k, valueLib)
    ensures ok ==> forall c :: c in all ==> PicWindow(c) && (old(c.isDirty) ==> c.isDirty)
    ensures ok ==> forall k :: k in checks && k.lib != null ==> PicDone(k, valueLib)
  {
    for j := 0 to |checks|
      invariant forall c :: c in all ==> PicWindow(c) && (old(c.isDirty) ==> c.isDirty)
      invariant forall i :: 0 <= i < j && checks[i].lib != null ==> PicDone(checks[i], valueLib)
      invariant forall i :: j <= i < |checks| && checks[i].lib != null ==>
        checks[i].addr == Where(checks[i].base, checks[i].lib)
    {
      var k := checks[j];
      if k.lib == null || k.lib.start == 0 || k.lib.isLoaded { continue; }
      if valueLib == null { return false; }
      var shifted := PicPlace(k, valueLib, all);
      if !shifted { return false; }
    }
    return true;
  }

  /** Every library address is where it belongs. */
  ghost predicate Ready(v: Value)
    reads PlacesOf(v), LibsOf(v)
  {
    forall p :: p in LibPlaces(v) ==> p.addr == Where(p.base, p.lib)
  }

  ghost predicate PicValueDone(v: Value, all: set<CacheEntry>)
    reads PlacesOf(v), all, LibsOf(v)
  {
    forall p :: p in LibPlaces(v) ==> InOwnWindow(p, all) && PicDone(p, v.place.lib)
  }

  /** Everything of the value that is due can be moved. */
  ghost predicate CanMove(v: Value)
    reads LibsOf(v)
  {
    forall p :: p in LibPlaces(v) && Pending(p.lib) ==> Movable(p, v.place.lib)
  }

  method PicValue(v: Value, ghost all: set<CacheEntry>) returns (ok: bool)
    requires Distinct(v) && Ready(v) && forall p :: p in LibPlaces(v) ==> InOwnWindow(p, all)
    requires forall c :: c in all ==> PicWindow(c)
    modifies LibPlaces(v)`addr, all`offs, all`isDirty
    ensures ok == CanMove(v)
    ensures ok ==> forall c :: c in all ==> PicWindow(c) && (old(c.isDirty) ==> c.isDirty)
    ensures ok ==> PicValueDone(v, all)
  {
    if v.dynamic { return true; }
    assert forall k :: k in v.checks && k.lib != null ==> k in LibPlaces(v);
    var lib := v.place.lib;
    if lib != null && lib.start != 0 && !lib.isLoaded {
      assert v.place in LibPlaces(v);
      ok := PicPlace(v.place, lib, all);
      if !ok { return; }
    }
    ok := PicChecks(v.checks, lib, all);
    assert forall p :: p in LibPlaces(v) ==> p == v.place || (p in v.checks && p.lib != null);
  }

  method PicNth(cfg: seq<Value>, n: nat, ghost all: set<CacheEntry>) returns (ok: bool)
    requires Apart(cfg) && n < |cfg| && Ready(cfg[n]) && forall p :: p in LibPlaces(cfg[n]) ==> InOwnWindow(p, all)
    requires forall c :: c in all ==> PicWindow(c)
    modifies LibPlaces(cfg[n])`addr, all`offs, all`isDirty
    ensures ok == CanMove(cfg[n])
    ensures ok ==> (forall c :: c in all ==> PicWindow(c)) && PicValueDone(cfg[n], all)
    ensures ok ==> forall i :: 0 <= i < |cfg| && i != n && old(PicValueDone(cfg[i], all)) ==> PicValueDone(cfg[i], all)
    ensures ok ==> forall i :: 0 <= i < |cfg| && i != n && old(Ready(cfg[i])) ==> Ready(cfg[i])
  {
    ok := PicValue(cfg[n], all);
    if !ok { return; }
    forall i | 0 <= i < |cfg| && i != n
      ensures old(PicValueDone(cfg[i], all)) ==> PicValueDone(cfg[i], all)
      ensures old(Ready(cfg[i])) ==> Ready(cfg[i])
    {
      PlacesOfApart(cfg, i, n);
      assert forall p :: p in PlacesOf(cfg[i]) ==> p.addr == old(p.addr);
    }
  }

  method PicValues(cfg: seq<Value>, ghost all: set<CacheEntry>) returns (ok: bool)
    requires Apart(cfg) && forall p :: p in AllLibPlaces(cfg) ==> InOwnWindow(p, all)
    requires forall i :: 0 <= i < |cfg| ==> Ready(cfg[i])
    requires forall c :: c in all ==> PicWindow(c)
    modifies AllLibPlaces(cfg)`addr, all`offs, all`isDirty
    ensures ok <==> forall i :: 0 <= i < |cfg| ==> CanMove(cfg[i])
    ensures ok ==> forall c :: c in all ==> PicWindow(c)
    ensures ok ==> forall i :: 0 <= i < |cfg| ==> PicValueDone(cfg[i], all)
  {
    for n := 0 to |cfg|
      invariant forall c :: c in all ==> PicWindow(c)
      invariant forall i :: 0 <= i < n ==> PicValueDone(cfg[i], all) && CanMove(cfg[i])
      invariant forall i :: n <= i < |cfg| ==> Ready(cfg[i])
    {
      assert forall p :: p in LibPlaces(cfg[n]) ==> p in AllLibPlaces(cfg);
      var moved := PicNth(cfg, n, all);
      if !moved { return false; }
    }
    return true;
  }

  // ---------------------------------------------------------------------------
  // Dump areas and flags
  // ---------------------------------------------------------------------------

  function LibSet(lib: LibEntry?): set<LibEntry>
  {
    if lib == null then {} else {lib}
  }

  /** Libraries of the first n dump areas. */
  function Seen(dumps: seq<DumpEntry>, n: nat): set<LibEntry>
    requires n <= |dumps|
  {
    if n == 0 then {} else Seen(dumps, n - 1) + LibSet(dumps[n-1].lib)
  }

  /** No earlier dump area is in the same library. */
  predicate FirstOfLib(dumps: seq<DumpEntry>, i: nat)
    requires i < |dumps|
  {
    dumps[i].lib != null && dumps[i].lib !in Seen(dumps, i)
  }

  function DumpLibs(dumps: seq<DumpEntry>): set<LibEntry>
  {
    Seen(dumps, |dumps|)
  }

  /** Libraries something of which is due to be shifted. */
  ghost predicate IsDue(due: set<LibEntry>, libs: set<LibEntry>)
    reads libs
  {
    forall l :: l in libs ==> (l in due <==> Pending(l))
  }

  ghost predicate DumpMoved(d: DumpEntry, before: nat, due: set<LibEntry>, first: bool)
    reads d, LibSet(d.lib)`start
  {
    d.addr == if d.lib != null && d.lib in due && first then Add(before, d.lib.start) else before
  }

  lemma {:induction false} SeenIs(dumps: seq<DumpEntry>, n: nat, lib: LibEntry)
    requires n <= |dumps|
    ensures lib in Seen(dumps, n) <==> exists j :: 0 <= j < n && dumps[j].lib == lib
  {
    if n > 0 { SeenIs(dumps, n - 1, lib); }
  }

  lemma {:induction false} InDumpLibs(dumps: seq<DumpEntry>, i: nat)
    requires i < |dumps|
    ensures LibSet(dumps[i].lib) <= DumpLibs(dumps)
  {
    if dumps[i].lib != null { SeenIs(dumps, |dumps|, dumps[i].lib); }
  }

  ghost predicate NthDumpMoved(dumps: seq<DumpEntry>, i: nat, before: nat, due: set<LibEntry>)
    requires i < |dumps|
    reads {dumps[i]}, LibSet(dumps[i].lib)`start
  {
    DumpMoved(dumps[i], before, due, FirstOfLib(dumps, i))
  }

  /** Libraries that are marked as loaded once the dump areas of the seen ones are done. */
  ghost predicate Latched(libs: set<LibEntry>, due: set<LibEntry>, loaded: set<LibEntry>, seen: set<LibEntry>)
    reads libs`isLoaded
  {
    forall l :: l in libs ==> (l.isLoaded <==> l in loaded || (l in due && l in seen))
  }

  /** Found, but not loaded before the call. */
  ghost predicate DueAre(libs: set<LibEntry>, due: set<LibEntry>, loaded: set<LibEntry>)
    reads libs`start
  {
    forall l :: l in libs ==> (l in due <==> l.start != 0 && l !in loaded)
  }

  /** Only the first dump area of a library is shifted: it latches the library as loaded. */
  method PicDump(d: DumpEntry, ghost libs: set<LibEntry>, ghost due: set<LibEntry>, ghost loaded: set<LibEntry>,
        ghost seen: set<LibEntry>)
    requires Latched(libs, due, loaded, seen) && LibSet(d.lib) <= libs
    requires DueAre(libs, due, loaded)
    modifies d`addr, LibSet(d.lib)`isLoaded
    ensures Latched(libs, due, loaded, seen + LibSet(d.lib)) && DueAre(libs, due, loaded)
    ensures DumpMoved(d, old(d.addr), due, d.lib != null && d.lib !in seen)
  {
    if d.lib == null || d.lib.start == 0 || d.lib.isLoaded { return; }
    d.addr := Add(d.addr, d.lib.start);
    d.lib.isLoaded := true;
  }

  method PicDumps(dumps: seq<DumpEntry>, ghost addrs: seq<nat>, ghost due: set<LibEntry>, ghost loaded: set<LibEntry>)
    requires forall i, j :: 0 <= i < j < |dumps| ==> dumps[i] != dumps[j]
    requires |addrs| == |dumps| && forall i :: 0 <= i < |dumps| ==> dumps[i].addr == addrs[i]
    requires Latched(DumpLibs(dumps), due, loaded, {}) && DueAre(DumpLibs(dumps), due, loaded)
    modifies dumps`addr, DumpLibs(dumps)`isLoaded
    ensures forall i :: 0 <= i < |dumps| ==> NthDumpMoved(dumps, i, addrs[i], due)
    ensures Latched(DumpLibs(dumps), due, loaded, DumpLibs(dumps))
  {
    for n := 0 to |dumps|
      invariant DumpsSoFar(dumps, n, addrs, due)
      invariant Latched(DumpLibs(dumps), due, loaded, Seen(dumps, n)) && DueAre(DumpLibs(dumps), due, loaded)
    {
      InDumpLibs(dumps, n);
      PicDumpNth(dumps, n, addrs, due, loaded);
    }
  }

  /** The first n dump areas have been looked at, the others are where they were. */
  ghost predicate DumpsSoFar(dumps: seq<DumpEntry>, n: nat, addrs: seq<nat>, due: set<LibEntry>)
    requires |addrs| == |dumps|
    reads dumps, set d | d in dumps && d.lib != null :: d.lib
  {
    forall i :: 0 <= i < |dumps| ==> if i < n then NthDumpMoved(dumps, i, addrs[i], due) else dumps[i].addr == addrs[i]
  }

  method PicDumpNth(dumps: seq<DumpEntry>, n: nat, ghost addrs: seq<nat>, ghost due: set<LibEntry>,
        ghost loaded: set<LibEntry>)
    requires (forall i, j :: 0 <= i < j < |dumps| ==> dumps[i] != dumps[j]) && n < |dumps| == |addrs|
    requires DumpsSoFar(dumps, n, addrs, due)
    requires Latched(DumpLibs(dumps), due, loaded, Seen(dumps, n)) && DueAre(DumpLibs(dumps), due, loaded)
    modifies {dumps[n]}`addr, LibSet(dumps[n].lib)`isLoaded
    ensures DumpsSoFar(dumps, n + 1, addrs, due)
    ensures Latched(DumpLibs(dumps), due, loaded, Seen(dumps, n + 1)) && DueAre(DumpLibs(dumps), due, loaded)
  {
    InDumpLibs(dumps, n);
    assert dumps[n].addr == addrs[n];
    PicDump(dumps[n], DumpLibs(dumps), due, loaded, Seen(dumps, n));
    forall i | 0 <= i < |dumps|
      ensures if i < n + 1 then NthDumpMoved(dumps, i, addrs[i], due) else dumps[i].addr == addrs[i]
    {
      if i != n { assert dumps[i].addr == old(dumps[i].addr); }
    }
  }

  /** The flags of one library's windows are cleared; a set one marks the library as loaded. */
  method ClearLib(lib: LibEntry)
    modifies lib`isLoaded, lib.caches`isDirty
    ensures forall c :: c in lib.caches ==> !c.isDirty
    ensures lib.isLoaded == (old(lib.isLoaded) || exists c :: c in lib.caches && old(c.isDirty))
  {
    for n := 0 to |lib.caches|
      invariant forall i :: 0 <= i < n ==> !lib.caches[i].isDirty
      invariant forall c :: c in lib.caches ==> c.isDirty ==> old(c.isDirty)
      invariant forall c :: c in lib.caches && c !in lib.caches[..n] ==> c.isDirty == old(c.isDirty)
      invariant lib.isLoaded == (old(lib.isLoaded) || exists c :: c in lib.caches[..n] && old(c.isDirty))
    {
      var c := lib.caches[n];
      assert lib.caches[..n+1] == lib.caches[..n] + [c];
      if c.isDirty { lib.isLoaded := true; }
      c.isDirty := false;
    }
    assert lib.caches[..|lib.caches|] == lib.caches;
  }

  /** Different libraries, each with windows of its own. */
  ghost predicate OwnCaches(libs: seq<LibEntry>)
    reads libs
  {
    && (forall i, j :: 0 <= i < j < |libs| ==> libs[i] != libs[j])
    && (forall i, c :: 0 <= i < |libs| && c in libs[i].caches ==> c.owner == libs[i])
  }

  ghost predicate LibCleared(lib: LibEntry, dirty: set<CacheEntry>, loaded: set<LibEntry>)
    reads lib, lib.caches
  {
    && (forall c :: c in lib.caches ==> !c.isDirty)
    && lib.isLoaded == (lib in loaded || exists c :: c in lib.caches && c in dirty)
  }

  ghost predicate LibWaits(lib: LibEntry, dirty: set<CacheEntry>, loaded: set<LibEntry>)
    reads lib, lib.caches
  {
    lib.isLoaded == (lib in loaded) && forall c :: c in lib.caches ==> (c.isDirty <==> c in dirty)
  }

  method ClearNth(libs: seq<LibEntry>, n: nat, ghost dirty: set<CacheEntry>, ghost loaded: set<LibEntry>)
    requires OwnCaches(libs) && n < |libs| && LibWaits(libs[n], dirty, loaded)
    modifies {libs[n]}`isLoaded, libs[n].caches`isDirty
    ensures LibCleared(libs[n], dirty, loaded)
    ensures forall i :: 0 <= i < |libs| && i != n && old(LibCleared(libs[i], dirty, loaded)) ==>
      LibCleared(libs[i], dirty, loaded)
    ensures forall i :: 0 <= i < |libs| && i != n && old(LibWaits(libs[i], dirty, loaded)) ==>
      LibWaits(libs[i], dirty, loaded)
  {
    ClearLib(libs[n]);
    forall i | 0 <= i < |libs| && i != n
      ensures old(LibCleared(libs[i], dirty, loaded)) ==> LibCleared(libs[i], dirty, loaded)
      ensures old(LibWaits(libs[i], dirty, loaded)) ==> LibWaits(libs[i], dirty, loaded)
    {
      assert libs[i] != libs[n];
      forall c | c in libs[i].caches ensures c !in libs[n].caches { assert c.owner == libs[i]; }
    }
  }

  method ClearLibs(libs: seq<LibEntry>, ghost windows: set<CacheEntry>, ghost dirty: set<CacheEntry>,
        ghost loaded: set<LibEntry>)
    requires OwnCaches(libs) && forall i, c :: 0 <= i < |libs| && c in libs[i].caches ==> c in windows
    requires forall i :: 0 <= i < |libs| ==> LibWaits(libs[i], dirty, loaded)
    modifies libs`isLoaded, windows`isDirty
    ensures forall i :: 0 <= i < |libs| ==> LibCleared(libs[i], dirty, loaded)
  {
    for n := 0 to |libs|
      invariant OwnCaches(libs) && forall i, c :: 0 <= i < |libs| && c in libs[i].caches ==> c in windows
      invariant forall i :: 0 <= i < n ==> LibCleared(libs[i], dirty, loaded)
      invariant forall i :: n <= i < |libs| ==> LibWaits(libs[i], dirty, loaded)
    {
      ClearNth(libs, n, dirty, loaded);
    }
  }

  // ---------------------------------------------------------------------------
  // One call, any number of calls
  // ---------------------------------------------------------------------------

  /** Library values and checks that have windows lie in those of their libraries; every
      library is listed. */
  ghost predicate Config(cfg: seq<Value>, libs: seq<LibEntry>, dumps: seq<DumpEntry>, windows: set<CacheEntry>)
    reads libs
  {
    && Apart(cfg) && OwnCaches(libs) && (forall i, j :: 0 <= i < j < |dumps| ==> dumps[i] != dumps[j])
    && (forall p :: p in AllLibPlaces(cfg) ==> p.lib in libs && (p.cache != null ==> p.cache in p.lib.caches))
    && (forall l :: l in DumpLibs(dumps) ==> l in libs)
    && (forall l, c :: l in libs && c in l.caches ==> c in windows)
    && (forall c :: c in windows ==> c.owner != null && c.owner in libs && c in c.owner.caches)
  }

  ghost predicate Clean(windows: set<CacheEntry>)
    reads windows
  {
    forall c :: c in windows ==> !c.isDirty
  }

  /** Windows that the libraries that are due have values or checks in. */
  ghost function DueWindows(cfg: seq<Value>, due: set<LibEntry>): set<CacheEntry>
  {
    set p, c | p in AllLibPlaces(cfg) && p.lib in due && c in WindowOf(p) :: c
  }

  /** Where an address and its window are after a call: due was not shifted before it, loaded
      was. */
  ghost predicate PlaceAfter(p: Place, valueLib: LibEntry?, due: set<LibEntry>, loaded: set<LibEntry>)
    requires p.lib != null
    reads p`addr, WindowOf(p)`offs, p.lib`start, LibSet(valueLib)`start
  {
    if p.lib in due then
      valueLib != null && p.addr == Add(p.base, valueLib.start) && p.cache != null &&
        p.cache.offs == Add(p.cache.base, p.lib.start)
    else if p.lib in loaded then
      p.addr == Add(p.base, p.lib.start) && (p.cache != null ==> p.cache.offs == Add(p.cache.base, p.lib.start))
    else
      p.addr == p.base && (p.cache != null ==> p.cache.offs == p.cache.base)
  }

  ghost predicate PlacesAfter(v: Value, due: set<LibEntry>, loaded: set<LibEntry>)
    reads LibPlaces(v)`addr, LibsOf(v)`start, (set p, c | p in LibPlaces(v) && c in WindowOf(p) :: c)`offs
  {
    forall p :: p in LibPlaces(v) ==> PlaceAfter(p, v.place.lib, due, loaded)
  }

  /** The windows of library values and checks are where their libraries are. */
  ghost predicate WindowsPlaced(cfg: seq<Value>)
    reads AllLibPlaces(cfg), LibWindows(cfg), set p | p in AllLibPlaces(cfg) :: p.lib
  {
    forall p :: p in AllLibPlaces(cfg) && p.cache != null ==>
      p.cache in WindowOf(p) && p.cache.offs == Where(p.cache.base, p.lib)
  }

  /** All that is due has a window, and its value a library. */
  ghost predicate AllMovable(cfg: seq<Value>, due: set<LibEntry>)
  {
    forall i, p :: 0 <= i < |cfg| && p in LibPlaces(cfg[i]) && p.lib in due ==> Movable(p, cfg[i].place.lib)
  }

  lemma {:induction false} AllMovableIff(cfg: seq<Value>, libs: seq<LibEntry>, due: set<LibEntry>)
    requires IsDue(due, set l | l in libs) && forall p :: p in AllLibPlaces(cfg) ==> p.lib in libs
    ensures AllMovable(cfg, due) <==> forall i :: 0 <= i < |cfg| ==> CanMove(cfg[i])
  {
    forall i, p | 0 <= i < |cfg| && p in LibPlaces(cfg[i]) ensures p.lib in due <==> Pending(p.lib) {
      assert p in AllLibPlaces(cfg);
    }
  }

  /** The loop over values and checks. */
  method PicAllValues(cfg: seq<Value>, libs: seq<LibEntry>, dumps: seq<DumpEntry>, ghost windows: set<CacheEntry>,
        ghost due: set<LibEntry>, ghost loaded: set<LibEntry>)
    returns (ok: bool)
    requires Config(cfg, libs, dumps, windows) && Clean(windows) && WindowsPlaced(cfg)
    requires forall i :: 0 <= i < |cfg| ==> Ready(cfg[i])
    requires IsDue(due, set l | l in libs) && forall l :: l in libs ==> (l in loaded <==> l.isLoaded)
    modifies AllLibPlaces(cfg)`addr, LibWindows(cfg)`offs, LibWindows(cfg)`isDirty
    ensures ok == AllMovable(cfg, due)
    ensures ok ==> forall i :: 0 <= i < |cfg| ==> PlacesAfter(cfg[i], due, loaded)
    ensures ok ==> forall i :: 0 <= i < |libs| ==> LibWaits(libs[i], DueWindows(cfg, due), loaded)
  {
    ghost var used := LibWindows(cfg);
    AllMovableIff(cfg, libs, due);
    UsedWindows(cfg, libs, dumps, windows);
    ok := PicValues(cfg, used);
    if !ok { return; }
    forall i | 0 <= i < |cfg| ensures PlacesAfter(cfg[i], due, loaded) {
      assert forall p :: p in LibPlaces(cfg[i]) ==> p in AllLibPlaces(cfg);
      PlacesNow(cfg[i], used, libs, due, loaded);
    }
    forall i | 0 <= i < |libs| ensures LibWaits(libs[i], DueWindows(cfg, due), loaded) {
      WaitsNow(cfg, used, windows, libs, dumps, due, loaded, libs[i]);
    }
  }

  lemma {:induction false} UsedWindows(cfg: seq<Value>, libs: seq<LibEntry>, dumps: seq<DumpEntry>,
        windows: set<CacheEntry>)
    requires Config(cfg, libs, dumps, windows) && Clean(windows) && WindowsPlaced(cfg)
    ensures LibWindows(cfg) <= windows && forall c :: c in LibWindows(cfg) ==> PicWindow(c)
    ensures forall p :: p in AllLibPlaces(cfg) ==> InOwnWindow(p, LibWindows(cfg))
  {
    forall p | p in AllLibPlaces(cfg) && p.cache != null
      ensures p.cache in LibWindows(cfg) && p.cache in windows && p.cache.owner == p.lib && PicWindow(p.cache)
    {
      assert p.cache in WindowOf(p) && p.cache in p.lib.caches;
    }
  }

  /** What the loop over values leaves behind, in terms of what was due before. */
  lemma {:induction false} PlacesNow(v: Value, used: set<CacheEntry>, libs: seq<LibEntry>, due: set<LibEntry>,
        loaded: set<LibEntry>)
    requires PicValueDone(v, used) && (forall c :: c in used ==> PicWindow(c))
    requires forall p :: p in LibPlaces(v) ==> p.lib in libs
    requires IsDue(due, set l | l in libs) && forall l :: l in libs ==> (l in loaded <==> l.isLoaded)
    ensures PlacesAfter(v, due, loaded)
  {
    forall p | p in LibPlaces(v) ensures PlaceAfter(p, v.place.lib, due, loaded) {
      assert PicDone(p, v.place.lib) && (p.lib in due <==> Pending(p.lib));
      assert p.cache != null ==> PicWindow(p.cache);
    }
  }

  lemma {:induction false} WaitsNow(cfg: seq<Value>, used: set<CacheEntry>, windows: set<CacheEntry>,
        libs: seq<LibEntry>, dumps: seq<DumpEntry>, due: set<LibEntry>, loaded: set<LibEntry>, l: LibEntry)
    requires Config(cfg, libs, dumps, windows) && l in libs && used == LibWindows(cfg)
    requires (forall c :: c in used ==> PicWindow(c)) && forall c :: c in windows && c !in used ==> !c.isDirty
    requires forall i :: 0 <= i < |cfg| ==> PicValueDone(cfg[i], used)
    requires IsDue(due, set l | l in libs) && forall l :: l in libs ==> (l in loaded <==> l.isLoaded)
    ensures LibWaits(l, DueWindows(cfg, due), loaded)
  {
    forall c | c in l.caches && c in DueWindows(cfg, due) ensures c.isDirty {
      var p :| p in AllLibPlaces(cfg) && p.lib in due && c in WindowOf(p);
      var i :| 0 <= i < |cfg| && p in LibPlaces(cfg[i]);
      assert PicDone(p, cfg[i].place.lib);
    }
    forall c | c in l.caches && c.isDirty ensures c in DueWindows(cfg, due) {
      assert c in used && PicWindow(c);
      var p :| p in AllLibPlaces(cfg) && c in WindowOf(p);
      assert p.lib == c.owner && Pending(p.lib) && p.lib in due;
    }
  }

  /** Something of the library is shifted when it is found. */
  ghost predicate IsUsed(cfg: seq<Value>, dumps: seq<DumpEntry>, lib: LibEntry)
  {
    lib in DumpLibs(dumps) || exists p :: p in AllLibPlaces(cfg) && p.lib == lib
  }

  lemma {:induction false} DueWindowsOf(cfg: seq<Value>, libs: seq<LibEntry>, dumps: seq<DumpEntry>,
        windows: set<CacheEntry>, due: set<LibEntry>, l: LibEntry)
    requires Config(cfg, libs, dumps, windows) && AllMovable(cfg, due) && l in libs
    ensures (exists c :: c in l.caches && c in DueWindows(cfg, due)) <==>
      l in due && exists p :: p in AllLibPlaces(cfg) && p.lib == l
  {
    if c :| c in l.caches && c in DueWindows(cfg, due) {
      var p :| p in AllLibPlaces(cfg) && p.lib in due && c in WindowOf(p);
      assert c.owner == l && p.cache.owner == p.lib;
    }
    if l in due {
      if p :| p in AllLibPlaces(cfg) && p.lib == l {
        assert Movable(p, p.lib) && p.cache in WindowOf(p);
        assert p.cache in l.caches && p.cache in DueWindows(cfg, due);
      }
    }
  }

  /** The loop over dump areas, and the loop over flags. */
  method PicLatches(cfg: seq<Value>, libs: seq<LibEntry>, dumps: seq<DumpEntry>, ghost windows: set<CacheEntry>,
        ghost addrs: seq<nat>, ghost due: set<LibEntry>, ghost loaded: set<LibEntry>)
    requires Config(cfg, libs, dumps, windows) && forall l :: l in libs ==> (l in loaded <==> l.isLoaded)
    requires forall i :: 0 <= i < |libs| ==> LibWaits(libs[i], DueWindows(cfg, due), loaded)
    requires IsDue(due, set l | l in libs) && AllMovable(cfg, due)
    requires |addrs| == |dumps| && forall i :: 0 <= i < |dumps| ==> dumps[i].addr == addrs[i]
    modifies windows`isDirty, dumps`addr, libs`isLoaded
    ensures Clean(windows)
    ensures forall i :: 0 <= i < |dumps| ==> NthDumpMoved(dumps, i, addrs[i], due)
    ensures forall l :: l in libs ==> (l.isLoaded <==> l in loaded || (l in due && IsUsed(cfg, dumps, l)))
  {
    PicDumps(dumps, addrs, due, loaded);
    ghost var latched := set l | l in libs && l.isLoaded;
    ClearLibs(libs, windows, DueWindows(cfg, due), latched);
    forall l | l in libs ensures l.isLoaded <==> l in loaded || (l in due && IsUsed(cfg, dumps, l)) {
      DueWindowsOf(cfg, libs, dumps, windows, due, l);
    }
  }

  /** They do not touch addresses or windows. */
  method LatchAndKeep(cfg: seq<Value>, libs: seq<LibEntry>, dumps: seq<DumpEntry>, ghost windows: set<CacheEntry>,
        ghost addrs: seq<nat>, ghost due: set<LibEntry>, ghost loaded: set<LibEntry>)
    requires Config(cfg, libs, dumps, windows) && forall l :: l in libs ==> (l in loaded <==> l.isLoaded)
    requires forall i :: 0 <= i < |libs| ==> LibWaits(libs[i], DueWindows(cfg, due), loaded)
    requires IsDue(due, set l | l in libs) && AllMovable(cfg, due)
    requires |addrs| == |dumps| && forall i :: 0 <= i < |dumps| ==> dumps[i].addr == addrs[i]
    requires forall i :: 0 <= i < |cfg| ==> PlacesAfter(cfg[i], due, loaded)
    modifies windows`isDirty, dumps`addr, libs`isLoaded
    ensures Clean(windows) && Config(cfg, libs, dumps, windows)
    ensures forall i :: 0 <= i < |dumps| ==> NthDumpMoved(dumps, i, addrs[i], due)
    ensures forall l :: l in libs ==> (l.isLoaded <==> l in loaded || (l in due && IsUsed(cfg, dumps, l)))
    ensures forall i :: 0 <= i < |cfg| ==> PlacesAfter(cfg[i], due, loaded)
  {
    PicLatches(cfg, libs, dumps, windows, addrs, due, loaded);
    forall i | 0 <= i < |cfg| ensures PlacesAfter(cfg[i], due, loaded) {
      assert old(PlacesAfter(cfg[i], due, loaded));
      forall p | p in LibPlaces(cfg[i]) ensures PlaceAfter(p, cfg[i].place.lib, due, loaded) {
        assert p.addr == old(p.addr) && (p.cache != null ==> p.cache.offs == old(p.cache.offs));
        assert old(PlaceAfter(p, cfg[i].place.lib, due, loaded));
      }
    }
  }

  /** handle_statmem_pic(): completes if and only if everything that is due has a window and
      its value a library.  Then a check is moved by the start of its value's library, and a
      window by the start of its own; only the first dump area of a library is moved; a library
      is marked as loaded when anything of it was. */
  method HandleStatmemPic(cfg: seq<Value>, libs: seq<LibEntry>, dumps: seq<DumpEntry>, ghost windows: set<CacheEntry>,
        ghost addrs: seq<nat>, ghost due: set<LibEntry>, ghost loaded: set<LibEntry>)
    returns (completed: bool)
    requires Config(cfg, libs, dumps, windows) && Clean(windows) && WindowsPlaced(cfg)
    requires forall i :: 0 <= i < |cfg| ==> Ready(cfg[i])
    requires IsDue(due, set l | l in libs) && forall l :: l in libs ==> (l in loaded <==> l.isLoaded)
    requires |addrs| == |dumps| && forall i :: 0 <= i < |dumps| ==> dumps[i].addr == addrs[i]
    modifies AllLibPlaces(cfg)`addr, windows`offs, windows`isDirty, dumps`addr, libs`isLoaded
    ensures completed == AllMovable(cfg, due)
    ensures completed ==> Config(cfg, libs, dumps, windows) && Clean(windows)
    ensures completed ==> forall i :: 0 <= i < |cfg| ==> PlacesAfter(cfg[i], due, loaded)
    ensures completed ==> forall i :: 0 <= i < |dumps| ==> NthDumpMoved(dumps, i, addrs[i], due)
    ensures completed ==> forall l :: l in libs ==> (l.isLoaded <==> l in loaded || (l in due && IsUsed(cfg, dumps, l)))
  {
    UsedWindows(cfg, libs, dumps, windows);
    completed := PicAllValues(cfg, libs, dumps, windows, due, loaded);
    if !completed { return; }
    LatchAndKeep(cfg, libs, dumps, windows, addrs, due, loaded);
  }

  /** A check keeps its position within its window exactly when the library of its value starts
      where its own library does. */
  lemma {:induction false} CheckKeepsIndexIff(k: Place, valueLib: LibEntry, due: set<LibEntry>, loaded: set<LibEntry>)
    requires k.lib != null && k.lib in due && PlaceAfter(k, valueLib, due, loaded)
    requires k.lib.start < PTR_RANGE && valueLib.start < PTR_RANGE
    ensures k.cache != null
    ensures Index(k.addr, k.cache.offs) == Index(k.base, k.cache.base) <==> valueLib.start == k.lib.start
  {
    ShiftsMustAgree(k.base, k.cache.base, valueLib.start, k.lib.start);
  }

  /** A dump area of a library that was just found ends up where it belongs exactly when it is
      the library's first one. */
  lemma {:induction false} DumpMovedIffFirst(dumps: seq<DumpEntry>, i: nat, due: set<LibEntry>)
    requires i < |dumps| && dumps[i].lib != null && dumps[i].lib in due && 0 < dumps[i].lib.start < PTR_RANGE
    requires dumps[i].base < PTR_RANGE && NthDumpMoved(dumps, i, dumps[i].base, due)
    ensures dumps[i].addr == Add(dumps[i].base, dumps[i].lib.start) <==>
      forall j :: 0 <= j < i ==> dumps[j].lib != dumps[i].lib
  {
    SeenIs(dumps, i, dumps[i].lib);
  }

  /** A check is in the library its value is in. */
  predicate SameLib(cfg: seq<Value>)
  {
    forall i, k :: 0 <= i < |cfg| && k in LibPlaces(cfg[i]) ==> k.lib == cfg[i].place.lib
  }

  predicate OneDumpPerLib(dumps: seq<DumpEntry>)
  {
    forall i :: 0 <= i < |dumps| && dumps[i].lib != null ==> FirstOfLib(dumps, i)
  }

  ghost predicate LibsPlaced(libs: seq<LibEntry>)
    reads libs
  {
    forall l :: l in libs && l.isLoaded ==> l.start != 0
  }

  ghost predicate DumpsPlaced(dumps: seq<DumpEntry>)
    reads dumps, set d | d in dumps && d.lib != null :: d.lib
  {
    forall d :: d in dumps && d.lib != null ==> d.addr == Where(d.base, d.lib)
  }

  ghost predicate AddrsPlaced(cfg: seq<Value>)
    reads AllLibPlaces(cfg), set p | p in AllLibPlaces(cfg) :: p.lib
  {
    forall p :: p in AllLibPlaces(cfg) ==> p.addr == Where(p.base, p.lib)
  }

  /** Every value, check, window and dump area of a loaded library is at its configured place
      plus the start of the library, everything else at its configured place. */
  ghost predicate Rebased(cfg: seq<Value>, libs: seq<LibEntry>, dumps: seq<DumpEntry>, windows: set<CacheEntry>)
    reads libs, dumps, windows, AllLibPlaces(cfg), LibWindows(cfg)
    reads (set p | p in AllLibPlaces(cfg) :: p.lib), set d | d in dumps && d.lib != null :: d.lib
  {
    && Config(cfg, libs, dumps, windows) && Clean(windows) && LibsPlaced(libs)
    && AddrsPlaced(cfg) && WindowsPlaced(cfg) && DumpsPlaced(dumps)
  }

  /** Of a library that was found, everything has been shifted. */
  ghost predicate Settled(cfg: seq<Value>, libs: seq<LibEntry>, dumps: seq<DumpEntry>)
    reads libs
  {
    forall l :: l in libs && IsUsed(cfg, dumps, l) && l.start != 0 ==> l.isLoaded
  }

  ghost function Addrs(dumps: seq<DumpEntry>): (r: seq<nat>)
    reads dumps
    ensures |r| == |dumps| && forall i :: 0 <= i < |dumps| ==> r[i] == dumps[i].addr
  {
    if dumps == [] then [] else [dumps[0].addr] + Addrs(dumps[1..])
  }

  ghost function DueNow(libs: seq<LibEntry>): set<LibEntry>
    reads libs
  {
    set l | l in libs && Pending(l)
  }

  /** Any number of calls, with libraries found in between, shift everything exactly once; each
      completes if and only if everything of the libraries found meanwhile has a window. */
  method PicCycle(cfg: seq<Value>, libs: seq<LibEntry>, dumps: seq<DumpEntry>,
        ghost windows: set<CacheEntry>) returns (completed: bool)
    requires Rebased(cfg, libs, dumps, windows) && SameLib(cfg) && OneDumpPerLib(dumps)
    modifies AllLibPlaces(cfg)`addr, windows`offs, windows`isDirty, dumps`addr, libs`isLoaded
    ensures completed <==> forall p :: p in AllLibPlaces(cfg) && p.lib in old(DueNow(libs)) ==> HasWindow(p)
    ensures completed ==> Rebased(cfg, libs, dumps, windows) && Settled(cfg, libs, dumps)
  {
    ghost var addrs, due, loaded := Addrs(dumps), DueNow(libs), set l | l in libs && l.isLoaded;
    AllReady(cfg, libs, dumps, windows);
    DumpsWerePlaced(libs, dumps, loaded);
    WindowsSuffice(cfg, due);
    completed := HandleStatmemPic(cfg, libs, dumps, windows, addrs, due, loaded);
    if !completed { return; }
    DumpsPlacedAgain(cfg, libs, dumps, addrs, due, loaded);
    PlacedAgain(cfg, libs, dumps, windows, due, loaded);
  }

  lemma {:induction false} WindowsSuffice(cfg: seq<Value>, due: set<LibEntry>)
    requires SameLib(cfg)
    ensures AllMovable(cfg, due) <==> forall p :: p in AllLibPlaces(cfg) && p.lib in due ==> HasWindow(p)
  {
    if forall p :: p in AllLibPlaces(cfg) && p.lib in due ==> HasWindow(p) {
      forall i, p | 0 <= i < |cfg| && p in LibPlaces(cfg[i]) && p.lib in due ensures Movable(p, cfg[i].place.lib) {
        assert p in AllLibPlaces(cfg);
      }
    }
  }

  lemma {:induction false} AllReady(cfg: seq<Value>, libs: seq<LibEntry>, dumps: seq<DumpEntry>,
        windows: set<CacheEntry>)
    requires Config(cfg, libs, dumps, windows) && AddrsPlaced(cfg)
    ensures forall i :: 0 <= i < |cfg| ==> Ready(cfg[i])
  {
    forall i | 0 <= i < |cfg| ensures Ready(cfg[i]) {
      assert forall p :: p in LibPlaces(cfg[i]) ==> p in AllLibPlaces(cfg);
    }
  }

  /** Where the dump areas were before a call. */
  ghost predicate DumpsWere(dumps: seq<DumpEntry>, addrs: seq<nat>, loaded: set<LibEntry>)
    requires |addrs| == |dumps|
    reads DumpLibs(dumps)`start
  {
    forall i :: 0 <= i < |dumps| && dumps[i].lib != null ==> (
      dumps[i].lib in DumpLibs(dumps) &&
      addrs[i] == if dumps[i].lib in loaded then Add(dumps[i].base, dumps[i].lib.start) else dumps[i].base)
  }

  lemma {:induction false} DumpsWerePlaced(libs: seq<LibEntry>, dumps: seq<DumpEntry>, loaded: set<LibEntry>)
    requires DumpsPlaced(dumps) && (forall l :: l in DumpLibs(dumps) ==> l in libs) && forall l :: l in libs ==>
      (l in loaded <==> l.isLoaded)
    ensures DumpsWere(dumps, Addrs(dumps), loaded)
  {
    forall i | 0 <= i < |dumps| && dumps[i].lib != null
      ensures dumps[i].lib in DumpLibs(dumps) && dumps[i].addr == Where(dumps[i].base, dumps[i].lib)
    {
      assert dumps[i] in dumps;
      InDumpLibs(dumps, i);
    }
  }

  lemma {:induction false} DumpsPlacedAgain(cfg: seq<Value>, libs: seq<LibEntry>, dumps: seq<DumpEntry>,
        addrs: seq<nat>, due: set<LibEntry>, loaded: set<LibEntry>)
    requires |addrs| == |dumps| && DumpsWere(dumps, addrs, loaded) && OneDumpPerLib(dumps) && due !! loaded
    requires forall l :: l in DumpLibs(dumps) ==> l in libs
    requires forall i :: 0 <= i < |dumps| ==> NthDumpMoved(dumps, i, addrs[i], due)
    requires forall l :: l in libs ==> (l.isLoaded <==> l in loaded || (l in due && IsUsed(cfg, dumps, l)))
    ensures DumpsPlaced(dumps)
  {
    forall d | d in dumps && d.lib != null ensures d.addr == Where(d.base, d.lib) {
      var i :| 0 <= i < |dumps| && dumps[i] == d;
      InDumpLibs(dumps, i);
    }
  }

  lemma {:induction false} PlacedAgain(cfg: seq<Value>, libs: seq<LibEntry>, dumps: seq<DumpEntry>,
        windows: set<CacheEntry>, due: set<LibEntry>, loaded: set<LibEntry>)
    requires Config(cfg, libs, dumps, windows) && SameLib(cfg)
    requires forall i :: 0 <= i < |cfg| ==> PlacesAfter(cfg[i], due, loaded)
    requires forall l :: l in libs ==> (l.isLoaded <==> l in loaded || (l in due && IsUsed(cfg, dumps, l)))
    requires due !! loaded
    ensures AddrsPlaced(cfg) && WindowsPlaced(cfg)
  {
    forall p | p in AllLibPlaces(cfg)
      ensures p.addr == Where(p.base, p.lib) && (p.cache != null ==> p.cache.offs == Where(p.cache.base, p.lib))
    {
      var i :| 0 <= i < |cfg| && p in LibPlaces(cfg[i]);
      assert PlaceAfter(p, cfg[i].place.lib, due, loaded);
    }
  }

  /** A library is found: its start is set, once. */
  method FoundLib(cfg: seq<Value>, libs: seq<LibEntry>, dumps: seq<DumpEntry>, ghost windows: set<CacheEntry>,
        lib: LibEntry, start: nat)
    requires Rebased(cfg, libs, dumps, windows) && lib in libs
    modifies lib`start
    ensures Rebased(cfg, libs, dumps, windows)
    ensures lib.start == if old(lib.start) == 0 then start else old(lib.start)
  {
    if lib.start == 0 { lib.start := start; }
  }

  lemma {:induction false} StaticOrLib(cfg: seq<Value>)
    ensures AllStaticPlaces(cfg) !! AllLibPlaces(cfg)
  {}

  /** What handle_statmem_pie() moves is not what handle_statmem_pic() moves. */
  method PieKeepsLibs(cfg: seq<Value>, caches: seq<CacheEntry>, libs: seq<LibEntry>, dumps: seq<DumpEntry>,
        codeOffs: nat, ghost windows: set<CacheEntry>)
    returns (completed: bool)
    requires Laid(cfg, set c | c in caches) && (forall i :: 0 <= i < |cfg| ==>
      AtBase(cfg[i])) && forall c :: c in caches ==> c.offs == c.base
    requires Rebased(cfg, libs, dumps, windows) && forall c :: c in caches ==> c !in windows
    modifies AllStaticPlaces(cfg)`addr, caches`offs, caches`isDirty, dumps`addr
    ensures completed <==> forall p :: p in AllStaticPlaces(cfg) ==> HasWindow(p)
    ensures completed ==> forall p :: p in AllStaticPlaces(cfg) ==> PieShifted(p, codeOffs) && p.cache in caches
    ensures completed ==> Rebased(cfg, libs, dumps, windows) && AddressesMoved(cfg, codeOffs)
  {
    StaticOrLib(cfg);
    completed := HandleStatmemPie(cfg, caches, dumps, codeOffs);
    if !completed { return; }
    forall p | p in AllLibPlaces(cfg)
      ensures p.addr == Where(p.base, p.lib) && (p.cache != null ==>
        p.cache in WindowOf(p) && p.cache.offs == Where(p.cache.base, p.lib))
    {
      assert p.cache != null ==> p.cache in p.lib.caches && p.cache in windows;
    }
    forall d | d in dumps && d.lib != null ensures d.addr == Where(d.base, d.lib) {
      var i :| 0 <= i < |dumps| && dumps[i] == d;
    }
  }

  lemma {:induction false} LibraryIsMoved(cfg: seq<Value>, i: nat, p: Place)
    requires Apart(cfg) && i < |cfg| && p in AddressesOf(cfg[i])
    ensures p in AllLibPlaces(cfg) <==> !cfg[i].dynamic && p.lib != null
  {
    forall j | 0 <= j < |cfg| && p in LibPlaces(cfg[j]) ensures i == j {
      assert p in PlacesOf(cfg[i]) && p in PlacesOf(cfg[j]);
    }
    if !cfg[i].dynamic && p.lib != null { assert p in LibPlaces(cfg[i]); }
  }

  /** Every address of a library lies behind the start of the library once that is known. */
  ghost predicate LibrariesMoved(cfg: seq<Value>)
    reads set i, p | 0 <= i < |cfg| && p in AddressesOf(cfg[i]) :: p
    reads set i, p | 0 <= i < |cfg| && p in AddressesOf(cfg[i]) && p.lib != null :: p.lib
  {
    forall i, p :: 0 <= i < |cfg| && p in AddressesOf(cfg[i]) && !cfg[i].dynamic && p.lib != null ==>
      p.addr == if p.lib.start != 0 then (p.base + p.lib.start) % PTR_RANGE else p.base
  }

  lemma {:induction false} LibraryAddresses(cfg: seq<Value>, libs: seq<LibEntry>, dumps: seq<DumpEntry>,
        windows: set<CacheEntry>)
    requires Rebased(cfg, libs, dumps, windows) && Settled(cfg, libs, dumps)
    ensures LibrariesMoved(cfg)
  {
    forall i, p | 0 <= i < |cfg| && p in AddressesOf(cfg[i]) && !cfg[i].dynamic && p.lib != null
      ensures p.addr == if p.lib.start != 0 then (p.base + p.lib.start) % PTR_RANGE else p.base
    {
      LibraryIsMoved(cfg, i, p);
      assert IsUsed(cfg, dumps, p.lib);
    }
  }

  /** Of all other addresses, those of the binary have been moved, and those in objects and on
      the stack stay. */
  twostate predicate OthersMoved(cfg: seq<Value>, codeOffs: nat)
    reads set i, p | 0 <= i < |cfg| && p in AddressesOf(cfg[i]) :: p
  {
    forall i, p :: 0 <= i < |cfg| && p in AddressesOf(cfg[i]) && (cfg[i].dynamic || p.lib == null) ==>
      p.addr == if cfg[i].dynamic || p.onStack then old(p.addr) else (p.base + codeOffs) % PTR_RANGE
  }

  /** handle_statmem_pic() leaves them where they are. */
  method PicOthersStay(cfg: seq<Value>, libs: seq<LibEntry>, dumps: seq<DumpEntry>,
        ghost windows: set<CacheEntry>) returns (completed: bool)
    requires Rebased(cfg, libs, dumps, windows) && SameLib(cfg) && OneDumpPerLib(dumps)
    modifies AllLibPlaces(cfg)`addr, windows`offs, windows`isDirty, dumps`addr, libs`isLoaded
    ensures completed <==> forall p :: p in AllLibPlaces(cfg) && p.lib in old(DueNow(libs)) ==> HasWindow(p)
    ensures completed ==> Rebased(cfg, libs, dumps, windows) && Settled(cfg, libs, dumps)
    ensures forall i, p :: 0 <= i < |cfg| && p in AddressesOf(cfg[i]) && (cfg[i].dynamic || p.lib == null) ==>
      p.addr == old(p.addr)
  {
    completed := PicCycle(cfg, libs, dumps, windows);
    forall i, p | 0 <= i < |cfg| && p in AddressesOf(cfg[i]) && (cfg[i].dynamic || p.lib == null)
      ensures p.addr == old(p.addr)
    {
      LibraryIsMoved(cfg, i, p);
    }
  }

  /** Start-up: with windows for everything that is shifted, the binary's values are where it
      was loaded, and the libraries' where these are. */
  method HandleStatmem(cfg: seq<Value>, caches: seq<CacheEntry>, libs: seq<LibEntry>, dumps: seq<DumpEntry>,
        codeOffs: nat, ghost windows: set<CacheEntry>)
    returns (completed: bool)
    requires Laid(cfg, set c | c in caches) && (forall i :: 0 <= i < |cfg| ==>
      AtBase(cfg[i])) && forall c :: c in caches ==> c.offs == c.base
    requires Rebased(cfg, libs, dumps, windows) && SameLib(cfg) && OneDumpPerLib(dumps)
    requires forall c :: c in caches ==> c !in windows
    modifies AllStaticPlaces(cfg)`addr, caches`offs, caches`isDirty
    modifies AllLibPlaces(cfg)`addr, windows`offs, windows`isDirty, dumps`addr, libs`isLoaded
    ensures completed <==>
      && (forall p :: p in AllStaticPlaces(cfg) ==> HasWindow(p))
      && (forall p :: p in AllLibPlaces(cfg) && p.lib in old(DueNow(libs)) ==> HasWindow(p))
    ensures completed ==> forall p :: p in AllStaticPlaces(cfg) ==> PieShifted(p, codeOffs)
    ensures completed ==> Rebased(cfg, libs, dumps, windows) && Settled(cfg, libs, dumps)
    ensures completed ==> OthersMoved(cfg, codeOffs) && LibrariesMoved(cfg)
  {
    StaticOrLib(cfg);
    completed := PieKeepsLibs(cfg, caches, libs, dumps, codeOffs, windows);
    if !completed { return; }
    completed := PicOthersStay(cfg, libs, dumps, windows);
    if completed { LibraryAddresses(cfg, libs, dumps, windows); }
  }

  /** A value or check stays at the same position in the data of its window. */
  lemma {:induction false} RebasedKeepsIndex(cfg: seq<Value>, libs: seq<LibEntry>, dumps: seq<DumpEntry>,
        windows: set<CacheEntry>, p: Place)
    requires Rebased(cfg, libs, dumps, windows) && p in AllLibPlaces(cfg) && p.cache != null
    ensures Index(p.addr, p.cache.offs) == Index(p.base, p.cache.base)
  {
    if p.lib.isLoaded { ShiftKeepsIndex(p.base, p.cache.base, p.lib.start); }
  }
}
