/** Which addresses the trainer knows, per class, and how messages change them
    (src/memmgmt.cpp). */
module Tracking {
  import opened Compaction
  import opened MemMgmt

  /** Code addresses a class is created from. */
  datatype ClassKey = ClassKey(code: nat, consts: seq<nat>, grow: Grow)
  datatype Grow = NoGrow | GrowAt(code: nat)

  /** alloc_dynmem_addr(): with a growth rule, extra constructors are not looked at. */
  predicate Takes(k: ClassKey, code: nat)
  {
    if k.grow.GrowAt? then k.code == code || k.grow.code == code
    else k.code == code || code in k.consts
  }

  /** First class that takes the code address, or the number of classes. */
  function ClassFor(keys: seq<ClassKey>, code: nat): (c: nat)
    ensures c <= |keys| && (c < |keys| ==> Takes(keys[c], code))
    ensures forall k :: 0 <= k < c ==> !Takes(keys[k], code)
  {
    if keys == [] || Takes(keys[0], code) then 0 else 1 + ClassFor(keys[1..], code)
  }

  /** The code addresses of a class: all its constructors, or, if it grows, the main one and the
      one it grows at. */
  ghost function CodesOf(k: ClassKey): set<nat>
  {
    match k.grow
    case NoGrow => {k.code} + set c | c in k.consts
    case GrowAt(g) => {k.code, g}
  }

  /** Class c has the code address, and no earlier class has it. */
  ghost predicate Finds(keys: seq<ClassKey>, code: nat, c: nat)
  {
    c < |keys| && code in CodesOf(keys[c]) && forall k :: 0 <= k < c ==> code !in CodesOf(keys[k])
  }

  ghost predicate FindsNone(keys: seq<ClassKey>, code: nat)
  {
    forall k :: 0 <= k < |keys| ==> code !in CodesOf(keys[k])
  }

  lemma {:induction false} TakesCodes(k: ClassKey, code: nat)
    ensures Takes(k, code) <==> code in CodesOf(k)
  {}

  /** The class found is the first one that has the code address. */
  lemma {:induction false} ClassForFinds(keys: seq<ClassKey>, code: nat)
    ensures forall c: nat :: Finds(keys, code, c) <==> c == ClassFor(keys, code) < |keys|
    ensures FindsNone(keys, code) <==> ClassFor(keys, code) == |keys|
  {
    forall k | 0 <= k < |keys| ensures Takes(keys[k], code) <==> code in CodesOf(keys[k]) {
      TakesCodes(keys[k], code);
    }
  }

  function IndexOf(s: seq<nat>, a: nat): (i: nat)
    ensures i <= |s| && (i < |s| ==> s[i] == a) && (i == |s| ==> a !in s)
    ensures forall k :: 0 <= k < i ==> s[k] != a
  {
    if s == [] || s[0] == a then 0 else 1 + IndexOf(s[1..], a)
  }

  /** The address is zeroed where it is found first. */
  function Cleared(classes: seq<seq<nat>>, addr: nat): (r: seq<seq<nat>>)
    ensures |r| == |classes|
  {
    if classes == [] then []
    else if addr in classes[0] then [classes[0][IndexOf(classes[0], addr) := 0]] + classes[1..]
    else [classes[0]] + Cleared(classes[1..], addr)
  }

  function Appended(classes: seq<seq<nat>>, c: nat, addr: nat): seq<seq<nat>>
  {
    if c < |classes| then classes[c := classes[c] + [addr]] else classes
  }

  function CompactedAll(classes: seq<seq<nat>>): (r: seq<seq<nat>>)
    ensures |r| == |classes| && forall i :: 0 <= i < |classes| ==> r[i] == Keep(classes[i], classes[i])
  {
    seq(|classes|, i requires 0 <= i < |classes| => Keep(classes[i], classes[i]))
  }

  // ---------------------------------------------------------------------------
  // The addresses as a multiset
  // ---------------------------------------------------------------------------

  /** Non-zero addresses of one class. */
  function Known(s: seq<nat>): multiset<nat>
  {
    multiset(s)[0 := 0]
  }

  function KnownAll(classes: seq<seq<nat>>): multiset<nat>
  {
    if classes == [] then multiset{} else Known(classes[0]) + KnownAll(classes[1..])
  }

  lemma {:induction false} KnownMark(s: seq<nat>, i: nat)
    requires i < |s| && s[i] != 0
    ensures Known(s[i := 0]) == Known(s) - multiset{s[i]} && s[i] in Known(s)
  {
    assert s == s[..i] + [s[i]] + s[i+1..];
    assert s[i := 0] == s[..i] + [0] + s[i+1..];
  }

  lemma {:induction false} KnownAppend(s: seq<nat>, a: nat)
    requires a != 0
    ensures Known(s + [a]) == Known(s) + multiset{a}
  {}

  lemma {:induction false} KnownZero(s: seq<nat>)
    ensures Known(s + [0]) == Known(s)
  {}

  lemma {:induction false} KnownKeep(s: seq<nat>, n: nat)
    requires n <= |s|
    ensures Known(Keep(s, s[..n])) == Known(s[..n])
  {
    if n > 0 {
      KnownKeep(s, n - 1);
      assert s[..n][..n-1] == s[..n-1];
      assert s[..n] == s[..n-1] + [s[n-1]];
      assert Keep(s, s[..n]) == Keep(s, s[..n-1]) + if s[n-1] == 0 then [] else [s[n-1]];
      if s[n-1] != 0 {
        KnownAppend(Keep(s, s[..n-1]), s[n-1]);
        KnownAppend(s[..n-1], s[n-1]);
      } else {
        assert Keep(s, s[..n]) == Keep(s, s[..n-1]);
        KnownZero(s[..n-1]);
      }
    }
  }

  /** Clearing an address forgets one occurrence of it, and nothing else. */
  lemma {:induction false} ClearedKnown(classes: seq<seq<nat>>, addr: nat)
    requires addr != 0
    ensures KnownAll(Cleared(classes, addr)) == KnownAll(classes) - multiset{addr}
  {
    if classes != [] {
      if addr in classes[0] {
        var i := IndexOf(classes[0], addr);
        KnownMark(classes[0], i);
        assert Cleared(classes, addr)[1..] == classes[1..];
      } else {
        ClearedKnown(classes[1..], addr);
        assert Cleared(classes, addr)[1..] == Cleared(classes[1..], addr);
        assert addr !in Known(classes[0]);
      }
    }
  }

  lemma {:induction false} AppendedKnown(classes: seq<seq<nat>>, c: nat, addr: nat)
    requires addr != 0 && c < |classes|
    ensures KnownAll(Appended(classes, c, addr)) == KnownAll(classes) + multiset{addr}
  {
    KnownAppend(classes[c], addr);
    if c > 0 {
      AppendedKnown(classes[1..], c - 1, addr);
      assert Appended(classes, c, addr)[1..] == Appended(classes[1..], c - 1, addr);
    } else {
      assert Appended(classes, c, addr)[1..] == classes[1..];
    }
  }

  /** Compaction forgets no address. */
  lemma {:induction false} CompactedKnown(classes: seq<seq<nat>>)
    ensures KnownAll(CompactedAll(classes)) == KnownAll(classes)
  {
    if classes != [] {
      var s := classes[0];
      KnownKeep(s, |s|);
      assert s[..|s|] == s;
      CompactedKnown(classes[1..]);
      assert CompactedAll(classes)[1..] == CompactedAll(classes[1..]);
    }
  }

  // ---------------------------------------------------------------------------
  // The code
  // ---------------------------------------------------------------------------

  ghost function AddrsOf(classes: seq<DynMemEntry>): (r: seq<seq<nat>>)
    reads classes
    ensures |r| == |classes| && forall i :: 0 <= i < |classes| ==> r[i] == classes[i].vMaddr
  {
    if classes == [] then [] else [classes[0].vMaddr] + AddrsOf(classes[1..])
  }

  ghost predicate ValidClasses(classes: seq<DynMemEntry>)
    reads classes
  {
    && (forall i, j :: 0 <= i < j < |classes| ==> classes[i] != classes[j])
    && forall i :: 0 <= i < |classes| ==> classes[i].Valid()
  }

  lemma {:induction false} AddrsSet(classes: seq<DynMemEntry>, all: seq<seq<nat>>, c: nat, v: seq<nat>)
    requires |all| == |classes| && c < |classes|
    requires forall i :: 0 <= i < |classes| ==> classes[i].vMaddr == if i == c then v else all[i]
    ensures AddrsOf(classes) == all[c := v]
  {}

  /** First class that has the address, or the number of classes. */
  function Holder(all: seq<seq<nat>>, addr: nat): (c: nat)
    ensures c <= |all| && (c < |all| ==> addr in all[c])
    ensures forall k :: 0 <= k < c ==> addr !in all[k]
  {
    if all == [] || addr in all[0] then 0 else 1 + Holder(all[1..], addr)
  }

  /** The object at idx is freed: its address and its size are zeroed, and it is counted. */
  twostate predicate Freed(c: DynMemEntry, idx: nat)
    reads c
  {
    && idx < |old(c.vMaddr)| && idx < |old(c.vMsize)|
    && c.vMaddr == old(c.vMaddr)[idx := 0] && c.vMsize == old(c.vMsize)[idx := 0]
    && c.numFreed == old(c.numFreed) + 1 && c.numAlloc == old(c.numAlloc) && c.kicked == old(c.kicked)
  }

  /** An object is added behind the others, and is counted. */
  twostate predicate Added(c: DynMemEntry, addr: nat, size: nat)
    reads c
  {
    && c.vMaddr == old(c.vMaddr) + [addr] && c.vMsize == old(c.vMsize) + [size]
    && c.numAlloc == old(c.numAlloc) + 1 && c.numFreed == old(c.numFreed) && c.kicked == old(c.kicked)
  }

  /** All classes but number k are as they were. */
  twostate predicate OthersSame(classes: seq<DynMemEntry>, k: nat)
    reads classes
  {
    forall i :: 0 <= i < |classes| && i != k ==> unchanged(classes[i])
  }

  /** The first class that has the address is known. */
  ghost predicate FoundAt(all: seq<seq<nat>>, addr: nat, c: nat, idx: nat)
  {
    c < |all| && idx < |all[c]| && c == Holder(all, addr) && idx == IndexOf(all[c], addr)
  }

  lemma {:induction false} FoundThere(all: seq<seq<nat>>, addr: nat, c: nat, idx: nat)
    requires c < |all| && idx < |all[c]| && all[c][idx] == addr && addr !in all[c][..idx]
    requires forall k :: 0 <= k < c ==> addr !in all[k]
    ensures FoundAt(all, addr, c, idx) && Cleared(all, addr) == all[c := all[c][idx := 0]]
  {
    assert forall k :: 0 <= k < idx ==> all[c][k] == all[c][..idx][k];
    ClearedAt(all, addr, c);
  }

  /** The marking of the object that has been found. */
  method FreeObject(classes: seq<DynMemEntry>, c: nat, idx: nat)
    requires ValidClasses(classes) && c < |classes| && idx < |classes[c].vMaddr| && classes[c].vMaddr[idx] != 0
    modifies classes
    ensures ValidClasses(classes) && OthersSame(classes, c) && Freed(classes[c], idx)
    ensures AddrsOf(classes) == old(AddrsOf(classes))[c := old(AddrsOf(classes))[c][idx := 0]]
  {
    ghost var all := AddrsOf(classes);
    classes[c].MarkFreed(idx);
    AddrsSet(classes, all, c, all[c][idx := 0]);
  }

  /** clear_dynmem_addr(), behind the search in the queue: the first class that has the address
      marks the object and counts it as freed; nothing else changes. */
  method ClearDynmemAddr(classes: seq<DynMemEntry>, addr: nat)
    requires ValidClasses(classes) && addr != 0
    modifies classes
    ensures ValidClasses(classes) && AddrsOf(classes) == Cleared(old(AddrsOf(classes)), addr)
    ensures
      var c := Holder(old(AddrsOf(classes)), addr);
      && OthersSame(classes, c)
      && (c < |classes| ==> Freed(classes[c], IndexOf(old(AddrsOf(classes))[c], addr)))
  {
    ghost var all := AddrsOf(classes);
    for c := 0 to |classes|
      invariant ValidClasses(classes) && OthersSame(classes, |classes|) && AddrsOf(classes) == all
      invariant forall k :: 0 <= k < c ==> addr !in all[k]
    {
      var idx := classes[c].FindAddrIdx(addr);
      if idx >= 0 {
        FoundThere(all, addr, c, idx);
        FreeObject(classes, c, idx);
        return;
      }
    }
    NothingCleared(all, addr);
  }

  lemma {:induction false} ClearedAt(classes: seq<seq<nat>>, addr: nat, c: nat)
    requires c < |classes| && addr in classes[c] && forall k :: 0 <= k < c ==> addr !in classes[k]
    ensures Cleared(classes, addr) == classes[c := classes[c][IndexOf(classes[c], addr) := 0]]
  {
    if c > 0 {
      ClearedAt(classes[1..], addr, c - 1);
    }
  }

  lemma {:induction false} NothingCleared(classes: seq<seq<nat>>, addr: nat)
    requires forall k :: 0 <= k < |classes| ==> addr !in classes[k]
    ensures Cleared(classes, addr) == classes
  {
    if classes != [] { NothingCleared(classes[1..], addr); }
  }

  /** alloc_dynmem_addr(): the first class that takes the code address gets the object. */
  method AllocDynmemAddr(keys: seq<ClassKey>, classes: seq<DynMemEntry>, addr: nat, size: nat, code: nat)
    requires ValidClasses(classes) && |keys| == |classes| && addr != 0
    requires forall i :: 0 <= i < |classes| ==> |classes[i].vMaddr| < U32_MAX
    modifies classes
    ensures ValidClasses(classes) && AddrsOf(classes) == Appended(old(AddrsOf(classes)), ClassFor(keys, code), addr)
    ensures
      var c := ClassFor(keys, code);
      OthersSame(classes, c) && (c < |classes| ==> Added(classes[c], addr, size))
    ensures forall c :: 0 <= c < |classes| && Finds(keys, code, c) ==>
      Added(classes[c], addr, size) && OthersSame(classes, c)
    ensures FindsNone(keys, code) ==> OthersSame(classes, |classes|)
  {
    ClassForFinds(keys, code);
    ghost var all := AddrsOf(classes);
    for c := 0 to |classes|
      invariant ValidClasses(classes) && AddrsOf(classes) == all && forall i :: 0 <= i < |classes| ==>
        |classes[i].vMaddr| < U32_MAX
      invariant forall k :: 0 <= k < c ==> !Takes(keys[k], code)
    {
      if Takes(keys[c], code) {
        classes[c].Append(addr, size);
        assert ClassFor(keys, code) == c;
        AddrsSet(classes, all, c, all[c] + [addr]);
        return;
      }
    }
  }
}
