/** Removing marked objects from parallel vectors (src/memmgmt.cpp): what the in-place
    erasing amounts to. */
module Compaction {

  /** The elements of v whose object is not marked by a zero address; v may be shorter than
      addrs. */
  function Keep<T>(addrs: seq<nat>, v: seq<T>): seq<T>
  {
    if v == [] then []
    else Keep(addrs, v[..|v|-1]) + (if |v| <= |addrs| && addrs[|v|-1] == 0 then [] else [v[|v|-1]])
  }

  /** How many of the first i objects stay: the new index of object i, if it stays. */
  function Rank(addrs: seq<nat>, i: nat): (r: nat)
    requires i <= |addrs|
    ensures r <= i
  {
    if i == 0 then 0 else Rank(addrs, i - 1) + (if addrs[i-1] != 0 then 1 else 0)
  }

  function Zeros(addrs: seq<nat>): nat
  {
    |addrs| - Rank(addrs, |addrs|)
  }

  lemma {:induction false} KeepLength<T>(addrs: seq<nat>, v: seq<T>)
    requires |v| <= |addrs|
    ensures |Keep(addrs, v)| == Rank(addrs, |v|)
  {
    if v != [] { KeepLength(addrs, v[..|v|-1]); }
  }

  /** All vectors move in lockstep: whatever belonged to object i is found at its new index,
      which depends on the addresses alone. */
  lemma {:induction false} KeepAt<T>(addrs: seq<nat>, v: seq<T>, i: nat)
    requires i < |v| <= |addrs| && addrs[i] != 0
    ensures Rank(addrs, i) < |Keep(addrs, v)| && Keep(addrs, v)[Rank(addrs, i)] == v[i]
  {
    KeepLength(addrs, v[..|v|-1]);
    if i < |v| - 1 { KeepAt(addrs, v[..|v|-1], i); }
  }

  /** Nothing else stays, and the order is kept. */
  lemma {:induction false} KeepOnly<T>(addrs: seq<nat>, v: seq<T>, j: nat) returns (i: nat)
    requires |v| <= |addrs| && j < |Keep(addrs, v)|
    ensures i < |v| && addrs[i] != 0 && Rank(addrs, i) == j && Keep(addrs, v)[j] == v[i]
  {
    var n := |v| - 1;
    KeepLength(addrs, v[..n]);
    if j < |Keep(addrs, v[..n])| {
      i := KeepOnly(addrs, v[..n], j);
    } else {
      i := n;
    }
  }

  lemma {:induction false} RankOrder(addrs: seq<nat>, i: nat, j: nat)
    requires i < j <= |addrs|
    ensures Rank(addrs, i) <= Rank(addrs, j)
    ensures addrs[i] != 0 ==> Rank(addrs, i) < Rank(addrs, j)
  {
    if i + 1 < j { RankOrder(addrs, i, j - 1); }
  }

  // ---------------------------------------------------------------------------
  // Erasing one element at a time
  // ---------------------------------------------------------------------------

  function Erase<T>(v: seq<T>, k: nat): (r: seq<T>)
    ensures |r| == if k < |v| then |v| - 1 else |v|
  {
    if k < |v| then v[..k] + v[k+1..] else v
  }

  /** A vector after the first i objects have been looked at. */
  function KeptUpTo<T>(addrs: seq<nat>, v: seq<T>, i: nat): seq<T>
    requires i <= |v| <= |addrs|
  {
    Keep(addrs, v[..i]) + v[i..]
  }

  lemma {:induction false} EraseMiddle<T>(a: seq<T>, x: T, b: seq<T>)
    ensures Erase(a + ([x] + b), |a|) == a + b
    ensures a + [x] + b == a + ([x] + b)
  {}

  lemma {:induction false} KeptStep<T>(addrs: seq<nat>, v: seq<T>, i: nat)
    requires i < |v| <= |addrs|
    ensures Rank(addrs, i) < |KeptUpTo(addrs, v, i)|
    ensures KeptUpTo(addrs, v, i + 1) ==
      if addrs[i] == 0 then Erase(KeptUpTo(addrs, v, i), Rank(addrs, i)) else KeptUpTo(addrs, v, i)
  {
    var kept := Keep(addrs, v[..i]);
    KeepLength(addrs, v[..i]);
    assert v[..i+1][..i] == v[..i];
    assert v[i..] == [v[i]] + v[i+1..];
    EraseMiddle(kept, v[i], v[i+1..]);
    assert Keep(addrs, v[..i+1]) == kept + (if addrs[i] != 0 then [v[i]] else []);
    assert kept + [] == kept;
  }

  lemma {:induction false} KeptEnds<T>(addrs: seq<nat>, v: seq<T>)
    requires |v| <= |addrs|
    ensures KeptUpTo(addrs, v, 0) == v && KeptUpTo(addrs, v, |v|) == Keep(addrs, v)
  {
    assert v[..0] == [] && v[..|v|] == v && v[|v|..] == [];
  }

  /** The indices the code erases at, one after the other, from object i on, when the next
      old value stands at index o and n objects have values. */
  function Erasures(addrs: seq<nat>, i: nat, o: nat, n: nat): seq<nat>
    requires i <= n <= |addrs|
    decreases n - i
  {
    if i == n then []
    else if addrs[i] == 0 then [o] + Erasures(addrs, i + 1, o, n)
    else Erasures(addrs, i + 1, o + 1, n)
  }

  function Apply<T>(v: seq<T>, ks: seq<nat>): seq<T>
    decreases |ks|
  {
    if ks == [] then v else Apply(Erase(v, ks[0]), ks[1..])
  }

  /** Erasing at the moving index leaves exactly the elements of the objects that stay. */
  lemma {:induction false} ErasuresKeep<T>(addrs: seq<nat>, v: seq<T>)
    requires |v| <= |addrs|
    ensures Apply(v, Erasures(addrs, 0, 0, |v|)) == Keep(addrs, v)
  {
    KeptEnds(addrs, v);
    ErasuresFrom(addrs, v, 0);
  }

  lemma {:induction false} ErasuresFrom<T>(addrs: seq<nat>, v: seq<T>, i: nat)
    requires i <= |v| <= |addrs|
    ensures Apply(KeptUpTo(addrs, v, i), Erasures(addrs, i, Rank(addrs, i), |v|)) == Keep(addrs, v)
    decreases |v| - i
  {
    if i == |v| {
      KeptEnds(addrs, v);
      assert Erasures(addrs, i, Rank(addrs, i), |v|) == [];
    } else {
      ErasuresFrom(addrs, v, i + 1);
      KeptStep(addrs, v, i);
      EraseFirst(KeptUpTo(addrs, v, i), addrs, i, Rank(addrs, i), |v|);
      assert Rank(addrs, i + 1) == if addrs[i] == 0 then Rank(addrs, i) else Rank(addrs, i) + 1;
    }
  }

  /** One round of the loop. */
  lemma {:induction false} EraseFirst<T>(v: seq<T>, addrs: seq<nat>, i: nat, o: nat, n: nat)
    requires i < n <= |addrs|
    ensures Apply(v, Erasures(addrs, i, o, n)) ==
      if addrs[i] == 0 then Apply(Erase(v, o), Erasures(addrs, i + 1, o, n))
      else Apply(v, Erasures(addrs, i + 1, o + 1, n))
  {
    if addrs[i] == 0 {
      var rest := Erasures(addrs, i + 1, o, n);
      assert ([o] + rest)[1..] == rest;
    }
  }

  /** How many elements are erased. */
  lemma {:induction false} ErasuresCount(addrs: seq<nat>, i: nat, o: nat, n: nat)
    requires i <= n <= |addrs|
    ensures |Erasures(addrs, i, o, n)| == (n - i) - (Rank(addrs, n) - Rank(addrs, i))
    decreases n - i
  {
    if i < n { ErasuresCount(addrs, i + 1, if addrs[i] == 0 then o else o + 1, n); }
  }

  // ---------------------------------------------------------------------------
  // The index arithmetic of the code
  // ---------------------------------------------------------------------------

  const U32_MAX := 0xFFFF_FFFF

  /** ov_idx-- and ov_idx++ on unsigned 32-bit integers. */
  function Dec32(i: nat): (r: nat) requires i <= U32_MAX ensures r <= U32_MAX
  {
    if i == 0 then U32_MAX else i - 1
  }

  function Inc32(i: nat): (r: nat) requires i <= U32_MAX ensures r <= U32_MAX
  {
    if i == U32_MAX then 0 else i + 1
  }
}
