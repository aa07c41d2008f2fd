/** Code addresses of the configured classes: those the game announces objects under
    (postprocess_malloc(), src/linuxhooking/libmemhack.c), and those under which the trainer
    takes objects up (alloc_dynmem_addr(), src/memmgmt.cpp). */
module ClassCodes {
  import opened Common
  import opened HookConfig
  import opened Tracking

  /** What alloc_dynmem_addr() looks at of a class. */
  function KeyOf(c: Class): ClassKey
  {
    ClassKey(c.main.code, seq(|c.consts|, i requires 0 <= i < |c.consts| => c.consts[i].code),
      match c.grow case None => NoGrow case Some(g) => GrowAt(g.code))
  }

  function KeysOf(cs: seq<Class>): (r: seq<ClassKey>)
    ensures |r| == |cs|
  {
    seq(|cs|, i requires 0 <= i < |cs| => KeyOf(cs[i]))
  }

  /** The address of a further constructor. */
  ghost predicate FurtherCode(c: Class, code: nat)
  {
    exists i :: 0 <= i < |c.consts| && c.consts[i].code == code
  }

  /** A class is found by its main address, and by all other constructors when it does not grow,
      or by the address it grows at when it does. */
  ghost predicate FoundBy(c: Class, code: nat)
  {
    || c.main.code == code
    || (c.grow.None? && FurtherCode(c, code))
    || (c.grow.Some? && c.grow.value.code == code)
  }

  lemma {:induction false} CodesOfClass(c: Class, code: nat)
    ensures code in CodesOf(KeyOf(c)) <==> FoundBy(c, code)
  {
    var k := KeyOf(c);
    if code in k.consts {
      var i :| 0 <= i < |k.consts| && k.consts[i] == code;
      assert c.consts[i].code == code;
    }
    if FurtherCode(c, code) {
      var i :| 0 <= i < |c.consts| && c.consts[i].code == code;
      assert k.consts[i] == code;
    }
  }

  /** An announced object goes to the first class that is found by its code address, and to none
      if there is no such class. */
  lemma {:induction false} ClassIsFound(cs: seq<Class>, code: nat, c: nat)
    requires c < |cs|
    ensures ClassFor(KeysOf(cs), code) == c <==>
      FoundBy(cs[c], code) && forall k :: 0 <= k < c ==> !FoundBy(cs[k], code)
    ensures ClassFor(KeysOf(cs), code) == |cs| <==> forall k :: 0 <= k < |cs| ==> !FoundBy(cs[k], code)
  {
    forall k | 0 <= k < |cs| ensures code in CodesOf(KeysOf(cs)[k]) <==> FoundBy(cs[k], code) {
      CodesOfClass(cs[k], code);
    }
    ClassForFinds(KeysOf(cs), code);
    assert Finds(KeysOf(cs), code, c) <==> c == ClassFor(KeysOf(cs), code);
  }

  // ---------------------------------------------------------------------------
  // What the game announces
  // ---------------------------------------------------------------------------

  /** The game has the code address, of a constructor or of growth, and so can announce objects
      under it. */
  ghost predicate InRecord(r: Record, code: nat)
  {
    r.ess.code == code || (r.grow.Some? && r.grow.value.code == code)
  }

  ghost predicate InGame(rs: seq<Record>, code: nat)
  {
    exists i :: 0 <= i < |rs| && InRecord(rs[i], code)
  }

  lemma {:induction false} InGameAppend(a: seq<Record>, b: seq<Record>, code: nat)
    ensures InGame(a + b, code) <==> InGame(a, code) || InGame(b, code)
  {
    if i :| 0 <= i < |a + b| && InRecord((a + b)[i], code) {
      if i < |a| { assert InRecord(a[i], code); } else { assert InRecord(b[i - |a|], code); }
    }
    if i :| 0 <= i < |a| && InRecord(a[i], code) { assert InRecord((a + b)[i], code); }
    if i :| 0 <= i < |b| && InRecord(b[i], code) { assert InRecord((a + b)[|a| + i], code); }
  }

  ghost predicate HasCode(c: Class, code: nat)
  {
    c.main.code == code || FurtherCode(c, code) || (c.grow.Some? && c.grow.value.code == code)
  }

  lemma {:induction false} ClassInGame(c: Class, code: nat)
    ensures InGame(RecordsOf(c), code) <==> HasCode(c, code)
  {
    var rs, n := RecordsOf(c), |c.consts|;
    assert forall i :: 0 <= i < n ==> Ctors(c)[i + 1] == c.consts[i];
    if i :| 0 <= i < |rs| && InRecord(rs[i], code) {
      if i > 0 && rs[i].ess.code == code { assert c.consts[i - 1].code == code; }
    }
    if c.main.code == code { assert InRecord(rs[0], code); }
    if i :| 0 <= i < n && c.consts[i].code == code { assert InRecord(rs[i + 1], code); }
    if c.grow.Some? && c.grow.value.code == code { assert InRecord(rs[n], code); }
  }

  lemma {:induction false} ClassesInGame(cs: seq<Class>, code: nat)
    ensures InGame(AllRecords(cs), code) <==> exists k :: 0 <= k < |cs| && HasCode(cs[k], code)
  {
    if cs != [] {
      var n := |cs| - 1;
      ClassesInGame(cs[..n], code);
      InGameAppend(AllRecords(cs[..n]), RecordsOf(cs[n]), code);
      ClassInGame(cs[n], code);
      if k :| 0 <= k < n && HasCode(cs[..n][k], code) { assert HasCode(cs[k], code); }
      if k :| 0 <= k < |cs| && HasCode(cs[k], code) { assert k < n ==> HasCode(cs[..n][k], code); }
    }
  }

  ghost predicate FoundByOne(cs: seq<Class>, code: nat)
  {
    exists k :: 0 <= k < |cs| && FoundBy(cs[k], code)
  }

  /** Every further constructor of a class that grows is an address some class is found by. */
  ghost predicate NoneForgotten(cs: seq<Class>)
  {
    forall k, i :: 0 <= k < |cs| && cs[k].grow.Some? && 0 <= i < |cs[k].consts| ==> FoundByOne(cs, cs[k].consts[i].code)
  }

  /** What the game announces under this address is taken up by a class. */
  ghost predicate TakenUp(cs: seq<Class>, code: nat)
  {
    InGame(AllRecords(cs), code) ==> ClassFor(KeysOf(cs), code) < |cs|
  }

  /** Whatever the game can announce is taken up by a class if and only if no class that grows
      has a further constructor by which no class is found. */
  lemma {:induction false} AnnouncedIsTakenUp(cs: seq<Class>)
    ensures (forall code :: TakenUp(cs, code)) <==> NoneForgotten(cs)
  {
    forall code ensures ClassFor(KeysOf(cs), code) < |cs| <==> FoundByOne(cs, code) {
      if cs != [] { ClassIsFound(cs, code, 0); }
    }
    forall code ensures InGame(AllRecords(cs), code) <==> exists k :: 0 <= k < |cs| && HasCode(cs[k], code) {
      ClassesInGame(cs, code);
    }
    if NoneForgotten(cs) {
      forall code ensures TakenUp(cs, code) {
        if k :| 0 <= k < |cs| && HasCode(cs[k], code) { KnownInClass(cs, k, code); }
      }
    } else {
      var k, i :| 0 <= k < |cs| && cs[k].grow.Some? && 0 <= i < |cs[k].consts| &&
        !FoundByOne(cs, cs[k].consts[i].code);
      var code := cs[k].consts[i].code;
      assert FurtherCode(cs[k], code) && HasCode(cs[k], code);
      assert !TakenUp(cs, code);
    }
  }

  lemma {:induction false} KnownInClass(cs: seq<Class>, k: nat, code: nat)
    requires NoneForgotten(cs) && k < |cs| && HasCode(cs[k], code)
    ensures FoundByOne(cs, code)
  {
    if !FoundBy(cs[k], code) {
      var i :| 0 <= i < |cs[k].consts| && cs[k].consts[i].code == code;
    }
  }

  /** Objects of a further constructor of a class that grows: the game announces them, and no
      class takes them up. */
  lemma {:induction false} FurtherConstructorForgotten()
    ensures
      var lib := Some(LibRef(1, "libgame.so"));
      var c :=
        Class(Ctor(24, 0x100, 0x28, lib), [Ctor(32, 0x180, 0x30, lib)], Some(Rule(16, 64, true, 4, 0x200, 0x48, lib)));
      InGame(AllRecords([c]), 0x180) && ClassFor(KeysOf([c]), 0x180) == 1
  {
    var lib := Some(LibRef(1, "libgame.so"));
    var c :=
      Class(Ctor(24, 0x100, 0x28, lib), [Ctor(32, 0x180, 0x30, lib)], Some(Rule(16, 64, true, 4, 0x200, 0x48, lib)));
    assert c.consts[0].code == 0x180 && FurtherCode(c, 0x180);
    ClassesInGame([c], 0x180);
    assert HasCode([c][0], 0x180);
    ClassIsFound([c], 0x180, 0);
  }
}
