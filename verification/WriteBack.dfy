/** Meaning of a list of cache windows: the memory that writing them back would produce.
    Pure part of the chunk cache in src/ugtrain.cpp. */
module WriteBack {
  import opened Common

  /** Value of a cache entry: where it starts within the object, the target address it was
      read from (None for PTR_MAX), its bytes, and whether it must be written back. */
  datatype Window = Window(offs: nat, start: Option<nat>, data: seq<byte>, dirty: bool)

  function Patch(mem: seq<byte>, at: nat, data: seq<byte>): (r: seq<byte>)
    requires at + |data| <= |mem|
    ensures |r| == |mem|
    ensures forall a :: 0 <= a < |mem| ==> r[a] == if at <= a < at + |data| then data[a - at] else mem[a]
  {
    mem[..at] + data + mem[at + |data|..]
  }

  function Min(a: nat, b: nat): nat { if a < b then a else b }

  /** First offset behind the part of window k that no later window covers. */
  function ZoneEnd(ws: seq<Window>, chunk: nat, k: nat): nat
    requires k < |ws|
  {
    if k + 1 < |ws| then Min(ws[k].offs + chunk, ws[k+1].offs) else ws[k].offs + chunk
  }

  predicate InZone(ws: seq<Window>, chunk: nat, base: nat, k: nat, a: int)
    requires k < |ws|
  {
    base + ws[k].offs <= a < base + ZoneEnd(ws, chunk, k)
  }

  /** Window k mirrors `mem`: it differs from it inside its own zone at most, and only
      when it is dirty. */
  ghost predicate Mirrors(ws: seq<Window>, chunk: nat, base: nat, mem: seq<byte>, k: nat)
    requires k < |ws|
  {
    var w := ws[k];
    match w.start
    case None => !w.dirty
    case Some(s) =>
      && s == base + w.offs && |w.data| == chunk && s + chunk <= |mem|
      && forall i :: 0 <= i < chunk && w.data[i] != mem[s + i] ==> w.dirty && InZone(ws, chunk, base, k, s + i)
  }

  ghost predicate Ascending(ws: seq<Window>)
  {
    forall i, j :: 0 <= i < j < |ws| ==> ws[i].offs < ws[j].offs
  }

  ghost predicate Coherent(ws: seq<Window>, chunk: nat, base: nat, mem: seq<byte>)
  {
    && Ascending(ws)
    && (forall k :: 0 <= k < |ws| ==> Mirrors(ws, chunk, base, mem, k))
  }

  /** Memory after the first n windows have been written back in list order.  A transfer
      that fails leaves the memory as it is. */
  function Flush(ws: seq<Window>, mem: seq<byte>, n: nat): (r: seq<byte>)
    requires n <= |ws|
    ensures |r| == |mem|
  {
    if n == 0 then mem
    else
      var m, w := Flush(ws, mem, n - 1), ws[n-1];
      if w.dirty && w.start.Some? && w.start.value + |w.data| <= |mem| then Patch(m, w.start.value, w.data) else m
  }

  /** A byte in no valid window's zone keeps its value. */
  lemma {:induction false} FlushOutside(ws: seq<Window>, chunk: nat, base: nat, mem: seq<byte>, n: nat, a: nat)
    requires Coherent(ws, chunk, base, mem) && n <= |ws| && a < |mem|
    requires forall k :: 0 <= k < n && ws[k].start.Some? ==> !InZone(ws, chunk, base, k, a)
    ensures Flush(ws, mem, n)[a] == mem[a]
  {
    if n > 0 {
      FlushOutside(ws, chunk, base, mem, n - 1, a);
      assert Mirrors(ws, chunk, base, mem, n - 1);
    }
  }

  /** A byte in the zone of a valid window takes that window's value: older windows that
      also cover it are overwritten or never differed there, newer ones do not reach it. */
  lemma {:induction false} FlushInside(ws: seq<Window>, chunk: nat, base: nat, mem: seq<byte>, n: nat, k: nat, a: nat)
    requires Coherent(ws, chunk, base, mem) && k < n <= |ws|
    requires ws[k].start.Some? && InZone(ws, chunk, base, k, a)
    ensures a < |mem| && 0 <= a - ws[k].start.value < |ws[k].data|
    ensures Flush(ws, mem, n)[a] == ws[k].data[a - ws[k].start.value]
  {
    assert Mirrors(ws, chunk, base, mem, k);
    if k < n - 1 {
      FlushInside(ws, chunk, base, mem, n - 1, k, a);
      assert Mirrors(ws, chunk, base, mem, n - 1);
      assert ws[k+1].offs <= ws[n-1].offs;
    } else {
      forall j | 0 <= j < n - 1 ensures !InZone(ws, chunk, base, j, a) {
        assert ws[j+1].offs <= ws[k].offs;
      }
      FlushOutside(ws, chunk, base, mem, n - 1, a);
    }
  }

  /** Bytes [addr, addr+size) lie in the zone of window w. */
  ghost predicate Placed(ws: seq<Window>, chunk: nat, w: nat, addr: nat, size: nat)
  {
    w < |ws| && ws[w].offs <= addr && addr + size <= ZoneEnd(ws, chunk, w)
  }

  /** The slot's bytes in window w are those the written-back memory holds. */
  ghost predicate ReadsDirect(ws: seq<Window>, base: nat, mem: seq<byte>, w: nat, addr: nat, size: nat)
  {
    && w < |ws| && ws[w].offs <= addr
    && addr - ws[w].offs + size <= |ws[w].data| && base + addr + size <= |mem|
    && ws[w].data[addr - ws[w].offs..addr - ws[w].offs + size] == Flush(ws, mem, |ws|)[base + addr..base + addr + size]
  }

  /** Reading a placed entry from its window is reading it from the written-back memory. */
  lemma {:induction false} ReadsThrough(ws: seq<Window>, chunk: nat, base: nat, mem: seq<byte>, w: nat, addr: nat,
        size: nat)
    requires Coherent(ws, chunk, base, mem) && Placed(ws, chunk, w, addr, size) && ws[w].start.Some?
    ensures ReadsDirect(ws, base, mem, w, addr, size)
  {
    var flushed := Flush(ws, mem, |ws|);
    assert Mirrors(ws, chunk, base, mem, w);
    forall a | base + addr <= a < base + addr + size
      ensures a < |mem| && flushed[a] == ws[w].data[a - base - ws[w].offs]
    {
      FlushInside(ws, chunk, base, mem, |ws|, w, a);
    }
    SameSlice(flushed, base + addr, ws[w].data, addr - ws[w].offs, size);
  }

  lemma {:induction false} SameSlice(s: seq<byte>, i: nat, t: seq<byte>, j: nat, n: nat)
    requires i + n <= |s| && j + n <= |t|
    requires forall x :: i <= x < i + n ==> s[x] == t[x - i + j]
    ensures s[i..i+n] == t[j..j+n]
  {
    var u, v := s[i..i+n], t[j..j+n];
    assert forall k :: 0 <= k < n ==> u[k] == v[k];
  }

  /** Filling an invalid window with target memory changes nothing that is written back. */
  lemma {:induction false} FillKeeps(ws: seq<Window>, chunk: nat, base: nat, mem: seq<byte>, w: nat)
    requires Coherent(ws, chunk, base, mem) && w < |ws| && ws[w].start == None
    requires base + ws[w].offs + chunk <= |mem|
    ensures var s := base + ws[w].offs;
      var ws' := ws[w := ws[w].(start := Some(s), data := mem[s..s+chunk])];
      && Coherent(ws', chunk, base, mem)
      && Flush(ws', mem, |ws|) ==
         Flush(ws, mem, |ws|)
  {
    var s := base + ws[w].offs;
    var ws' := ws[w := ws[w].(start := Some(s), data := mem[s..s+chunk])];
    assert Mirrors(ws, chunk, base, mem, w);
    forall k | 0 <= k < |ws'| ensures Mirrors(ws', chunk, base, mem, k) {
      assert Mirrors(ws, chunk, base, mem, k);
    }
    SameDirty(ws, ws', mem, |ws|);
  }

  lemma {:induction false} SameDirty(ws: seq<Window>, ws': seq<Window>, mem: seq<byte>, n: nat)
    requires |ws'| == |ws| && n <= |ws|
    requires forall k :: 0 <= k < n ==> ws[k].dirty == ws'[k].dirty && (ws[k].dirty ==> ws[k] == ws'[k])
    ensures Flush(ws', mem, n) == Flush(ws, mem, n)
  {
    if n > 0 { SameDirty(ws, ws', mem, n - 1); }
  }

  /** The windows keep their places within the object. */
  ghost predicate SameOffsets(ws: seq<Window>, ws': seq<Window>)
  {
    |ws| == |ws'| && forall k :: 0 <= k < |ws| ==> ws[k].offs == ws'[k].offs
  }

  lemma {:induction false} StillPlaced(ws: seq<Window>, ws': seq<Window>, chunk: nat, w: nat, addr: nat, size: nat)
    requires SameOffsets(ws, ws') && Placed(ws, chunk, w, addr, size)
    ensures Placed(ws', chunk, w, addr, size)
  {}

  /** The window list after making sure that window w is valid. */
  function Filled(ws: seq<Window>, chunk: nat, base: nat, mem: seq<byte>, w: nat): (r: seq<Window>)
    requires w < |ws| && base + ws[w].offs + chunk <= |mem|
    ensures SameOffsets(ws, r)
  {
    var s := base + ws[w].offs;
    if ws[w].start == None then ws[w := ws[w].(start := Some(s), data := mem[s..s+chunk])] else ws
  }

  /** Filling and reading a slot yields what the written-back memory holds, and changes
      nothing of it. */
  lemma {:induction false} FillAndRead(ws: seq<Window>, chunk: nat, base: nat, mem: seq<byte>, w: nat, addr: nat,
        size: nat)
    requires Coherent(ws, chunk, base, mem) && Placed(ws, chunk, w, addr, size)
    requires base + ws[w].offs + chunk <= |mem|
    ensures var ws' := Filled(ws, chunk, base, mem, w);
      && Coherent(ws', chunk, base, mem) && ws'[w].start.Some?
      && Flush(ws', mem, |ws'|) == Flush(ws, mem, |ws|)
      && ReadsDirect(ws', base, mem, w, addr, size)
  {
    if ws[w].start == None { FillKeeps(ws, chunk, base, mem, w); }
    var ws' := Filled(ws, chunk, base, mem, w);
    StillPlaced(ws, ws', chunk, w, addr, size);
    ReadsThrough(ws', chunk, base, mem, w, addr, size);
  }

  lemma {:induction false} ZonesDisjoint(ws: seq<Window>, chunk: nat, base: nat, j: nat, k: nat, a: nat)
    requires Ascending(ws) && j < |ws| && k < |ws| && j != k
    requires InZone(ws, chunk, base, j, a)
    ensures !InZone(ws, chunk, base, k, a)
  {
    if j < k {
      assert ws[j+1].offs <= ws[k].offs;
    } else {
      assert ws[k+1].offs <= ws[j].offs;
    }
  }

  /** The window list after a new value has been set in window w. */
  function Changed(ws: seq<Window>, w: nat, addr: nat, v: seq<byte>): (r: seq<Window>)
    requires w < |ws| && ws[w].offs <= addr && addr - ws[w].offs + |v| <= |ws[w].data|
    ensures SameOffsets(ws, r)
  {
    ws[w := ws[w].(data := Patch(ws[w].data, addr - ws[w].offs, v), dirty := true)]
  }

  lemma {:induction false} ChangedCoherent(ws: seq<Window>, chunk: nat, base: nat, mem: seq<byte>, w: nat, addr: nat,
        v: seq<byte>)
    requires Coherent(ws, chunk, base, mem) && Placed(ws, chunk, w, addr, |v|) && ws[w].start.Some?
    requires |ws[w].data| == chunk && base + addr + |v| <= |mem|
    ensures Coherent(Changed(ws, w, addr, v), chunk, base, mem)
  {
    assert Mirrors(ws, chunk, base, mem, w);
    var ws' := Changed(ws, w, addr, v);
    forall k | 0 <= k < |ws'| ensures Mirrors(ws', chunk, base, mem, k) {
      assert Mirrors(ws, chunk, base, mem, k);
    }
  }

  /** Changing a placed entry in its window is changing it in the written-back memory. */
  lemma {:induction false} ChangeCommutes(ws: seq<Window>, chunk: nat, base: nat, mem: seq<byte>, w: nat, addr: nat,
        v: seq<byte>)
    requires Coherent(ws, chunk, base, mem) && Placed(ws, chunk, w, addr, |v|) && ws[w].start.Some?
    requires |ws[w].data| == chunk && base + addr + |v| <= |mem|
    ensures Flush(Changed(ws, w, addr, v), mem, |ws|) == Patch(Flush(ws, mem, |ws|), base + addr, v)
  {
    ChangedCoherent(ws, chunk, base, mem, w, addr, v);
    var l, r := Flush(Changed(ws, w, addr, v), mem, |ws|), Patch(Flush(ws, mem, |ws|), base + addr, v);
    forall a: nat | a < |mem| ensures l[a] == r[a] {
      ChangeAt(ws, chunk, base, mem, w, addr, v, a);
    }
  }

  lemma {:induction false} ChangeAt(ws: seq<Window>, chunk: nat, base: nat, mem: seq<byte>, w: nat, addr: nat,
        v: seq<byte>, a: nat)
    requires Coherent(ws, chunk, base, mem) && Placed(ws, chunk, w, addr, |v|) && ws[w].start.Some?
    requires |ws[w].data| == chunk && base + addr + |v| <= |mem|
    requires Coherent(Changed(ws, w, addr, v), chunk, base, mem) && a < |mem|
    ensures Flush(Changed(ws, w, addr, v), mem, |ws|)[a] == Patch(Flush(ws, mem, |ws|), base + addr, v)[a]
  {
    var ws' := Changed(ws, w, addr, v);
    if k :| 0 <= k < |ws| && ws[k].start.Some? && InZone(ws, chunk, base, k, a) {
      assert Mirrors(ws, chunk, base, mem, w);
      ChangeInside(ws, ws', chunk, base, mem, w, addr, v, a, k);
    } else {
      FlushOutside(ws, chunk, base, mem, |ws|, a);
      forall k | 0 <= k < |ws'| && ws'[k].start.Some? ensures !InZone(ws', chunk, base, k, a) {
        assert !InZone(ws, chunk, base, k, a);
      }
      FlushOutside(ws', chunk, base, mem, |ws|, a);
      assert !InZone(ws, chunk, base, w, a);
    }
  }

  lemma {:induction false} ChangeInside(ws: seq<Window>, ws': seq<Window>, chunk: nat, base: nat, mem: seq<byte>,
        w: nat, addr: nat, v: seq<byte>, a: nat, k: nat)
    requires Coherent(ws, chunk, base, mem) && Coherent(ws', chunk, base, mem)
    requires Placed(ws, chunk, w, addr, |v|) && ws[w].start == Some(base + ws[w].offs)
    requires |ws[w].data| == chunk && a < |mem| && base + addr + |v| <= |mem|
    requires ws' == Changed(ws, w, addr, v)
    requires k < |ws| && ws[k].start.Some? && InZone(ws, chunk, base, k, a)
    ensures Flush(ws', mem, |ws|)[a] == Patch(Flush(ws, mem, |ws|), base + addr, v)[a]
  {
    FlushInside(ws, chunk, base, mem, |ws|, k, a);
    assert ZoneEnd(ws, chunk, k) == ZoneEnd(ws', chunk, k);
    FlushInside(ws', chunk, base, mem, |ws|, k, a);
    if k != w { ZonesDisjoint(ws, chunk, base, k, w, a); }
  }
}
