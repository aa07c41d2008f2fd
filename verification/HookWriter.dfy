/** Writing the configuration for the hooking library (prepare_dynmem(), src/ugtrain.cpp). */
module HookWriter {
  import opened Common
  import opened Numbers
  import opened HookConfig

  /** Equality of string pointers. */
  predicate SamePtr(a: Option<LibRef>, b: Option<LibRef>)
  {
    if a.Some? && b.Some? then a.value.id == b.value.id else a == b
  }

  /** The test for a class that was not written yet. */
  predicate IsNew(c: Class, oldCode: nat, oldGrow: nat, oldLib: Option<LibRef>)
  {
    if c.grow.None? then c.main.code != oldCode || !SamePtr(c.main.lib, oldLib)
    else c.grow.value.code != oldGrow || !SamePtr(c.grow.value.lib, oldLib)
  }

  /** What is remembered of the class written last. */
  ghost predicate Remembers(cs: seq<Class>, oldCode: nat, oldGrow: nat, oldLib: Option<LibRef>)
  {
    if cs == [] then oldLib == None
    else
      var c := cs[|cs|-1];
      oldLib == KeyLib(c) && if c.grow.Some? then oldGrow == c.grow.value.code else oldCode == c.main.code
  }

  lemma {:induction false} LastIsEntry(entries: seq<Option<Class>>)
    ensures var cs := ClassesOf(entries); cs != [] ==> Some(cs[|cs|-1]) in entries
  {
    if entries != [] { LastIsEntry(entries[..|entries|-1]); }
  }

  /** The test is exact: a class is written again only if another one was in between. */
  lemma {:induction false} NewIsExact(entries: seq<Option<Class>>, n: nat, c: Class, oldCode: nat, oldGrow: nat,
        oldLib: Option<LibRef>)
    requires Identified(entries) && n < |entries| && entries[n] == Some(c)
    requires Remembers(ClassesOf(entries[..n]), oldCode, oldGrow, oldLib)
    ensures var cs := ClassesOf(entries[..n]);
      IsNew(c, oldCode, oldGrow, oldLib) <==> cs == [] || cs[|cs|-1] != c
    ensures ClassesOf(entries[..n+1]) == if IsNew(c, oldCode, oldGrow, oldLib) then ClassesOf(entries[..n]) + [c]
      else ClassesOf(entries[..n])
  {
    var cs := ClassesOf(entries[..n]);
    assert entries[..n+1][..n] == entries[..n];
    if cs != [] {
      LastIsEntry(entries[..n]);
      var i :| 0 <= i < n && entries[i] == Some(cs[|cs|-1]);
    }
  }

  lemma {:induction false} OneMoreClass(cs: seq<Class>, c: Class)
    ensures AllRecords(cs + [c]) == AllRecords(cs) + RecordsOf(c)
    ensures Body(AllRecords(cs + [c])) == Body(AllRecords(cs)) + (CtorsText(Ctors(c)) + RuleText(c.grow))
  {
    assert (cs + [c])[..|cs|] == cs;
    BodyAppend(AllRecords(cs), RecordsOf(c));
    ClassText(c);
  }

  /** ADD_DYNMEM_ESSENTIALS */
  method AddEssentials(obuf: string, c: Ctor) returns (r: string)
    ensures r == obuf + (";" + EssText(EssOf(c)))
  {
    r := obuf + (";" + (Print(c.size, 10) + ";" + (PrintPtr(c.code) + ";" + PrintPtr(c.stack))));
    if c.lib.Some? {
      r := r + (";" + c.lib.value.name);
    } else {
      r := r + ";exe";
    }
    EssPieces(obuf, EssOf(c));
    assert ";exe" == ";" + "exe";
  }

  lemma {:induction false} EssPieces(obuf: string, e: Essentials)
    ensures
      var numbers := Print(e.size, 10) + ";" + (PrintPtr(e.code) + ";" + PrintPtr(e.stack));
      obuf + (";" + numbers) + (";" + LibText(e.lib)) == obuf + (";" + EssText(e))
  {
    var a, b, c, l := Print(e.size, 10), PrintPtr(e.code), PrintPtr(e.stack), LibText(e.lib);
    Group(obuf, ";" + (a + ";" + (b + ";" + c)), ";" + l);
    Group(";", a + ";" + (b + ";" + c), ";" + l);
    Group(a + ";", b + ";" + c, ";" + l);
    Group(b + ";", c, ";" + l);
    Group(c, ";", l);
  }

  method AddClass(obuf: string, c: Class) returns (r: string, num: nat)
    ensures r == obuf + (CtorsText(Ctors(c)) + RuleText(c.grow)) && num == |RecordsOf(c)|
  {
    r := AddEssentials(obuf, c.main);
    FirstCtor(obuf, c);
    r, num := AddConsts(r, c, obuf);
    AllConsts(obuf, c);
    if c.grow.Some? { r := r + (";grow;" + GrowText(GrowOf(c.grow.value))); }
    RuleLast(obuf, CtorsText(Ctors(c)), c.grow);
  }

  lemma {:induction false} RuleLast(obuf: string, t: string, grow: Option<Rule>)
    ensures obuf + (t + RuleText(grow)) == if grow.Some? then
      (obuf + t) + (";grow;" + GrowText(GrowOf(grow.value))) else obuf + t
  {
    Group(obuf, t, RuleText(grow));
    assert obuf + t + "" == obuf + t;
  }

  lemma {:induction false} AllConsts(before: string, c: Class)
    ensures UpTo(before, c, |c.consts|) == before + CtorsText(Ctors(c))
  {
    assert Ctors(c)[..|Ctors(c)|] == Ctors(c);
  }

  method AddConsts(obuf: string, c: Class, ghost before: string) returns (r: string, num: nat)
    requires obuf == UpTo(before, c, 0)
    ensures r == UpTo(before, c, |c.consts|) && num == |c.consts| + 1
  {
    num, r := 1, obuf;
    for i := 0 to |c.consts|
      invariant num == i + 1 && r == UpTo(before, c, i)
    {
      num := num + 1;
      r := AddConst(r, c, i, before);
    }
  }

  method AddConst(obuf: string, c: Class, i: nat, ghost before: string) returns (r: string)
    requires i < |c.consts| && obuf == UpTo(before, c, i)
    ensures r == UpTo(before, c, i + 1)
  {
    r := AddEssentials(obuf, c.consts[i]);
    NextConst(before, c, i);
  }

  /** The buffer behind the main constructor and the first n others. */
  function UpTo(before: string, c: Class, n: nat): string
    requires n <= |c.consts|
  {
    before + CtorsText(Ctors(c)[..n+1])
  }

  lemma {:induction false} NextConst(before: string, c: Class, n: nat)
    requires n < |c.consts|
    ensures UpTo(before, c, n) + (";" + EssText(EssOf(c.consts[n]))) == UpTo(before, c, n + 1)
  {
    var cs := Ctors(c);
    assert cs[n+1] == c.consts[n] && cs[..n+2][..n+1] == cs[..n+1];
    Group(before, CtorsText(cs[..n+1]), ";" + EssText(EssOf(cs[n+1])));
  }

  lemma {:induction false} FirstCtor(obuf: string, c: Class)
    ensures obuf + (";" + EssText(EssOf(c.main))) == obuf + CtorsText(Ctors(c)[..1])
  {
    var one := Ctors(c)[..1];
    assert one == [c.main] && one[..0] == [];
    assert CtorsText(one[..0]) == "";
    assert CtorsText(one) == "" + (";" + EssText(EssOf(c.main)));
  }

  /** The buffer and the count when the first n values have been looked at. */
  ghost predicate Written(entries: seq<Option<Class>>, n: nat, start: string, obuf: string, numCfg: nat)
    requires n <= |entries|
  {
    var rs := AllRecords(ClassesOf(entries[..n]));
    numCfg == |rs| && obuf == start + Body(rs)
  }

  lemma {:induction false} WrittenNext(entries: seq<Option<Class>>, n: nat, start: string, obuf: string, numCfg: nat,
        c: Class)
    requires n < |entries| && Written(entries, n, start, obuf, numCfg)
    requires ClassesOf(entries[..n+1]) == ClassesOf(entries[..n]) + [c]
    ensures Written(entries, n + 1, start, obuf + (CtorsText(Ctors(c)) + RuleText(c.grow)), numCfg + |RecordsOf(c)|)
  {
    var cs := ClassesOf(entries[..n]);
    OneMoreClass(cs, c);
    Group(start, Body(AllRecords(cs)), CtorsText(Ctors(c)) + RuleText(c.grow));
  }

  /** The loop body for a value of class c. */
  method AddIfNew(c: Class, obuf: string, numCfg: nat, oldCode: nat, oldGrow: nat, oldLib: Option<LibRef>,
        ghost entries: seq<Option<Class>>, ghost i: nat, ghost start: string)
    returns (obuf': string, numCfg': nat, oldCode': nat, oldGrow': nat, oldLib': Option<LibRef>)
    requires Identified(entries) && i < |entries| && entries[i] == Some(c)
    requires Remembers(ClassesOf(entries[..i]), oldCode, oldGrow, oldLib) && Written(entries, i, start, obuf, numCfg)
    ensures Remembers(ClassesOf(entries[..i+1]), oldCode', oldGrow', oldLib') &&
      Written(entries, i + 1, start, obuf', numCfg')
  {
    obuf', numCfg', oldCode', oldGrow', oldLib' := obuf, numCfg, oldCode, oldGrow, oldLib;
    NewIsExact(entries, i, c, oldCode, oldGrow, oldLib);
    if IsNew(c, oldCode, oldGrow, oldLib) {
      WrittenNext(entries, i, start, obuf, numCfg, c);
      var num;
      obuf', num := AddClass(obuf, c);
      numCfg' := numCfg + num;
      if c.grow.Some? {
        oldGrow', oldLib' := c.grow.value.code, c.grow.value.lib;
      } else {
        oldCode', oldLib' := c.main.code, c.main.lib;
      }
    }
  }

  /** prepare_dynmem(): the text names every class once, with all its constructors, growth
      last; ret is 2 when there is nothing to hook. */
  method PrepareDynmem(entries: seq<Option<Class>>, useGbt: bool) returns (obuf: string, ret: nat)
    requires Identified(entries)
    ensures obuf == Config(useGbt, AllRecords(ClassesOf(entries)))
    ensures ret == 2 <==> forall i :: 0 <= i < |entries| ==> entries[i].None?
    ensures ret != 2 ==> ret == 0
    ensures ret == 0 && (forall i :: 0 <= i < |entries| && entries[i].Some? ==> PlainClass(entries[i].value)) ==>
      Decode(obuf).Some? && Decode(obuf).value.gbt == useGbt &&
      Arrived(entries, |entries|, Decode(obuf).value.records)
  {
    var start := if useGbt then ";gbt" else "";
    obuf := start;
    var numCfg: nat, oldCode: nat, oldGrow: nat, oldLib: Option<LibRef> := 0, 0, 0, None;
    NothingWritten(entries, start);
    for i := 0 to |entries|
      invariant Progress(entries, i, start, obuf, numCfg, oldCode, oldGrow, oldLib)
    {
      if entries[i].None? {
        NoClass(entries, i);
      } else {
        obuf, numCfg, oldCode, oldGrow, oldLib :=
          AddIfNew(entries[i].value, obuf, numCfg, oldCode, oldGrow, oldLib, entries, i, start);
      }
    }
    obuf, ret := Finish(entries, useGbt, obuf, numCfg);
    WrittenArrives(entries, useGbt);
  }

  lemma {:induction false} WrittenArrives(entries: seq<Option<Class>>, gbt: bool)
    ensures ClassesOf(entries) == [] <==> forall i :: 0 <= i < |entries| ==> entries[i].None?
    ensures
      var d := Decode(Config(gbt, AllRecords(ClassesOf(entries))));
      ClassesOf(entries) != [] &&
        (forall i :: 0 <= i < |entries| && entries[i].Some? ==> PlainClass(entries[i].value)) ==>
        d.Some? && d.value.gbt == gbt && Arrived(entries, |entries|, d.value.records)
  {
    assert entries[..|entries|] == entries;
    LastWritten(entries, |entries|);
    if ClassesOf(entries) != [] &&
      forall i :: 0 <= i < |entries| && entries[i].Some? ==> PlainClass(entries[i].value) {
      ClassesArrive(entries, gbt);
    }
  }

  ghost predicate Progress(entries: seq<Option<Class>>, n: nat, start: string, obuf: string, numCfg: nat, oldCode: nat,
        oldGrow: nat, oldLib: Option<LibRef>)
    requires n <= |entries|
  {
    Remembers(ClassesOf(entries[..n]), oldCode, oldGrow, oldLib) && Written(entries, n, start, obuf, numCfg)
  }

  lemma {:induction false} NothingWritten(entries: seq<Option<Class>>, start: string)
    ensures Progress(entries, 0, start, start, 0, 0, 0, None)
  {
    assert start + "" == start;
  }

  lemma {:induction false} NoClass(entries: seq<Option<Class>>, n: nat)
    requires n < |entries| && entries[n].None?
    ensures ClassesOf(entries[..n+1]) == ClassesOf(entries[..n])
  {
    assert entries[..n+1][..n] == entries[..n];
  }

  method Finish(entries: seq<Option<Class>>, useGbt: bool, obuf: string, numCfg: nat) returns (r: string, ret: nat)
    requires Written(entries, |entries|, if useGbt then ";gbt" else "", obuf, numCfg)
    ensures r == Config(useGbt, AllRecords(ClassesOf(entries)))
    ensures ret == if ClassesOf(entries) == [] then 2 else 0
  {
    assert entries[..|entries|] == entries;
    r := MoveCountToFront(obuf, numCfg);
    Group(Print(numCfg, 10), if useGbt then ";gbt" else "", Body(AllRecords(ClassesOf(entries))));
    r := r + "\n";
    SomeRecords(ClassesOf(entries));
    ret := if numCfg == 0 then 2 else 0;
  }

  lemma {:induction false} SomeRecords(cs: seq<Class>)
    ensures AllRecords(cs) == [] <==> cs == []
  {}

  /** The count is printed to the end and then rotated to the front within the buffer. */
  method MoveCountToFront(body: string, num: nat) returns (r: string)
    ensures r == Print(num, 10) + body
  {
    var count := Print(num, 10);
    var len := |count|;
    r := body + count;
    var pos := |r|;
    r := r[..len] + r;              // memmove(obuf + len, obuf, pos)
    r := r[pos..] + r[len..pos];    // memmove(obuf, obuf + pos, len)
    CountMoved(body, count);
  }

  lemma {:induction false} CountMoved(body: string, count: string)
    ensures var r := body + count; var s := r[..|count|] + r;
      s[|r|..] == count && s[|count|..|r|] == body
  {
    var r := body + count;
    var s := r[..|count|] + r;
    forall i | 0 <= i < |count| ensures s[|r|..][i] == count[i] {
      assert s[|r|..][i] == s[|r| + i] == r[|body| + i];
    }
    forall i | 0 <= i < |body| ensures s[|count|..|r|][i] == body[i] {
      assert s[|count|..|r|][i] == s[|count| + i] == r[i];
    }
  }

  // ---------------------------------------------------------------------------
  // What arrives
  // ---------------------------------------------------------------------------

  predicate PlainClass(c: Class)
  {
    && PlainLib(NameOf(c.main.lib)) && (c.grow.Some? ==> PlainLib(NameOf(c.grow.value.lib)))
    && forall i :: 0 <= i < |c.consts| ==> PlainLib(NameOf(c.consts[i].lib))
  }

  lemma {:induction false} PlainRecordsOf(c: Class)
    requires PlainClass(c)
    ensures Plain(RecordsOf(c))
  {
    forall i | 0 <= i < |RecordsOf(c)| ensures PlainRecord(RecordsOf(c)[i]) {
      if i > 0 { assert Ctors(c)[i] == c.consts[i-1]; }
    }
  }

  lemma {:induction false} AllPlain(cs: seq<Class>)
    requires forall i :: 0 <= i < |cs| ==> PlainClass(cs[i])
    ensures Plain(AllRecords(cs))
  {
    if cs != [] {
      AllPlain(cs[..|cs|-1]);
      PlainRecordsOf(cs[|cs|-1]);
    }
  }

  /** Whatever classes are configured, the game recovers all their constructors and growth
      rules, with growth at the last constructor of its class. */
  lemma {:induction false} ConfigArrives(cs: seq<Class>, gbt: bool)
    requires cs != [] && forall i :: 0 <= i < |cs| ==> PlainClass(cs[i])
    ensures Decode(Config(gbt, AllRecords(cs))) == Some(Received(gbt, AllRecords(cs)))
  {
    AllPlain(cs);
    SomeRecords(cs);
    DecodeConfig(gbt, AllRecords(cs));
  }

  // ---------------------------------------------------------------------------
  // What arrives, in terms of the configured classes
  // ---------------------------------------------------------------------------

  ghost predicate LibArrived(lib: Option<string>, ref: Option<LibRef>)
  {
    (ref.None? ==> lib.None?) && (ref.Some? ==> lib == Some(ref.value.name))
  }

  ghost predicate CtorArrived(r: Record, c: Ctor)
  {
    r.ess.size == c.size && r.ess.code == c.code && r.ess.stack == c.stack && LibArrived(r.ess.lib, c.lib)
  }

  ghost predicate RuleArrived(r: Record, rule: Option<Rule>)
  {
    match rule
    case None => r.grow.None?
    case Some(g) =>
      && r.grow.Some? && r.grow.value.min == g.min && r.grow.value.max == g.max && r.grow.value.mul == g.mul
      && r.grow.value.add == g.add && r.grow.value.code == g.code && r.grow.value.stack == g.stack
      && LibArrived(r.grow.value.lib, g.lib)
  }

  /** From record k on: the main constructor of the class, the others in order, and growth at
      the last of them only. */
  ghost predicate Block(rs: seq<Record>, k: nat, c: Class)
  {
    && k + |c.consts| < |rs| && CtorArrived(rs[k], c.main)
    && (forall i :: 0 <= i < |c.consts| ==> CtorArrived(rs[k + 1 + i], c.consts[i]))
    && (forall i :: k <= i < k + |c.consts| ==> rs[i].grow.None?)
    && RuleArrived(rs[k + |c.consts|], c.grow)
  }

  /** Value i belongs to a class, and the last value before it that belongs to one belongs to
      another. */
  ghost predicate Begins(entries: seq<Option<Class>>, i: nat)
  {
    && i < |entries| && entries[i].Some?
    && forall j :: 0 <= j < i && LastBefore(entries, i, j) ==> entries[j] != entries[i]
  }

  ghost predicate LastBefore(entries: seq<Option<Class>>, i: nat, j: nat)
    requires j < i <= |entries|
  {
    entries[j].Some? && forall k :: j < k < i ==> entries[k].None?
  }

  /** Constructors of the classes that begin before value n. */
  ghost function CtorsBefore(entries: seq<Option<Class>>, n: nat): nat
    requires n <= |entries|
  {
    if n == 0 then 0
    else CtorsBefore(entries, n - 1) + if Begins(entries, n - 1) then 1 + |entries[n-1].value.consts| else 0
  }

  ghost predicate Arrived(entries: seq<Option<Class>>, n: nat, rs: seq<Record>)
    requires n <= |entries|
  {
    && |rs| == CtorsBefore(entries, n)
    && forall i :: 0 <= i < n && Begins(entries, i) ==> Block(rs, CtorsBefore(entries, i), entries[i].value)
  }

  lemma {:induction false} RecordsAreBlock(c: Class)
    ensures Block(RecordsOf(c), 0, c)
  {
    var rs, cs := RecordsOf(c), Ctors(c);
    forall i | 0 <= i < |c.consts| ensures CtorArrived(rs[0 + 1 + i], c.consts[i]) {
      assert cs[1 + i] == c.consts[i];
    }
  }

  lemma {:induction false} BlockInFront(a: seq<Record>, b: seq<Record>, k: nat, c: Class)
    requires Block(a, k, c)
    ensures Block(a + b, k, c)
  {}

  lemma {:induction false} BlockBehind(a: seq<Record>, b: seq<Record>, c: Class)
    requires Block(b, 0, c)
    ensures Block(a + b, |a|, c)
  {
    var rs := a + b;
    assert rs[|a|] == b[0] && rs[|a| + |c.consts|] == b[0 + |c.consts|];
    forall i | 0 <= i < |c.consts| ensures CtorArrived(rs[|a| + 1 + i], c.consts[i]) {
      assert rs[|a| + 1 + i] == b[0 + 1 + i];
    }
    forall i | |a| <= i < |a| + |c.consts| ensures rs[i].grow.None? { assert rs[i] == b[i - |a|]; }
  }

  ghost predicate NoClassBefore(entries: seq<Option<Class>>, n: nat)
    requires n <= |entries|
  {
    forall j :: 0 <= j < n ==> entries[j].None?
  }

  /** The last value before n that belongs to a class belongs to this one. */
  ghost predicate LastIs(entries: seq<Option<Class>>, n: nat, c: Class)
    requires n <= |entries|
  {
    exists j :: 0 <= j < n && LastBefore(entries, n, j) && entries[j] == Some(c)
  }

  lemma {:induction false} LastIsStill(entries: seq<Option<Class>>, n: nat, c: Class)
    requires n < |entries| && entries[n].None? && LastIs(entries, n, c)
    ensures LastIs(entries, n + 1, c)
  {
    var j :| 0 <= j < n && LastBefore(entries, n, j) && entries[j] == Some(c);
    assert LastBefore(entries, n + 1, j);
  }

  lemma {:induction false} LastIsNew(entries: seq<Option<Class>>, n: nat)
    requires n < |entries| && entries[n].Some?
    ensures LastIs(entries, n + 1, entries[n].value)
  {
    assert LastBefore(entries, n + 1, n);
  }

  lemma {:induction false} WrittenLast(entries: seq<Option<Class>>, n: nat)
    requires n < |entries|
    ensures
      var cs, ds := ClassesOf(entries[..n]), ClassesOf(entries[..n+1]);
      && (entries[n].None? ==> ds == cs)
      && (entries[n].Some? ==> ds != [] && ds[|ds|-1] == entries[n].value)
  {
    assert entries[..n+1][..n] == entries[..n];
  }

  /** The class written last is that of the last value that belongs to one. */
  lemma {:induction false} LastWritten(entries: seq<Option<Class>>, n: nat)
    requires n <= |entries|
    ensures var cs := ClassesOf(entries[..n]);
      if cs == [] then NoClassBefore(entries, n) else LastIs(entries, n, cs[|cs|-1])
  {
    if n > 0 {
      LastWritten(entries, n - 1);
      WrittenLast(entries, n - 1);
      var cs := ClassesOf(entries[..n-1]);
      if entries[n-1].Some? {
        LastIsNew(entries, n - 1);
      } else if cs != [] {
        LastIsStill(entries, n - 1, cs[|cs|-1]);
      }
    }
  }

  lemma {:induction false} OneLastBefore(entries: seq<Option<Class>>, n: nat, i: nat, j: nat)
    requires n <= |entries| && i < n && j < n && LastBefore(entries, n, i) && LastBefore(entries, n, j)
    ensures i == j
  {}

  lemma {:induction false} BeginsIsWritten(entries: seq<Option<Class>>, n: nat)
    requires n < |entries|
    ensures ClassesOf(entries[..n+1]) ==
      if Begins(entries, n) then ClassesOf(entries[..n]) + [entries[n].value] else ClassesOf(entries[..n])
  {
    assert entries[..n+1][..n] == entries[..n];
    LastWritten(entries, n);
    var cs := ClassesOf(entries[..n]);
    if cs != [] {
      var j :| 0 <= j < n && LastBefore(entries, n, j) && entries[j] == Some(cs[|cs|-1]);
      forall i | 0 <= i < n && LastBefore(entries, n, i) ensures i == j { OneLastBefore(entries, n, i, j); }
    }
  }

  lemma {:induction false} AllArrived(entries: seq<Option<Class>>, n: nat)
    requires n <= |entries|
    ensures Arrived(entries, n, AllRecords(ClassesOf(entries[..n])))
  {
    if n > 0 {
      AllArrived(entries, n - 1);
      NextArrived(entries, n - 1, ClassesOf(entries[..n-1]), ClassesOf(entries[..n]));
    }
  }

  lemma {:induction false} NextArrived(entries: seq<Option<Class>>, n: nat, cs: seq<Class>, ds: seq<Class>)
    requires n < |entries| && cs == ClassesOf(entries[..n]) && ds == ClassesOf(entries[..n+1])
    requires Arrived(entries, n, AllRecords(cs))
    ensures Arrived(entries, n + 1, AllRecords(ds))
  {
    BeginsIsWritten(entries, n);
    if Begins(entries, n) { ArrivedToo(entries, n, cs); } else { ArrivedStill(entries, n, AllRecords(cs)); }
  }

  lemma {:induction false} ArrivedStill(entries: seq<Option<Class>>, n: nat, rs: seq<Record>)
    requires n < |entries| && !Begins(entries, n) && Arrived(entries, n, rs)
    ensures Arrived(entries, n + 1, rs)
  {}

  lemma {:induction false} ArrivedToo(entries: seq<Option<Class>>, n: nat, cs: seq<Class>)
    requires n < |entries| && Begins(entries, n) && Arrived(entries, n, AllRecords(cs))
    ensures Arrived(entries, n + 1, AllRecords(cs + [entries[n].value]))
  {
    var c := entries[n].value;
    var a, b := AllRecords(cs), RecordsOf(c);
    OneMoreClass(cs, c);
    forall i | 0 <= i < n + 1 && Begins(entries, i) ensures Block(a + b, CtorsBefore(entries, i), entries[i].value) {
      if i < n {
        BlockInFront(a, b, CtorsBefore(entries, i), entries[i].value);
      } else {
        RecordsAreBlock(c);
        BlockBehind(a, b, c);
      }
    }
  }

  /** What the game makes of the text: for each class that begins with a value, one record per
      constructor in the order of the values, and nothing else. */
  lemma {:induction false} ClassesArrive(entries: seq<Option<Class>>, gbt: bool)
    requires (forall i :: 0 <= i < |entries| && entries[i].Some? ==> PlainClass(entries[i].value)) &&
      exists i :: 0 <= i < |entries| && entries[i].Some?
    ensures
      var d := Decode(Config(gbt, AllRecords(ClassesOf(entries))));
      d.Some? && d.value.gbt == gbt && Arrived(entries, |entries|, d.value.records)
  {
    assert entries[..|entries|] == entries;
    var cs := ClassesOf(entries);
    LastWritten(entries, |entries|);
    AllArrived(entries, |entries|);
    ClassesAreEntries(entries);
    ConfigArrives(cs, gbt);
  }

  lemma {:induction false} ClassesAreEntries(entries: seq<Option<Class>>)
    ensures forall k :: 0 <= k < |ClassesOf(entries)| ==> Some(ClassesOf(entries)[k]) in entries
  {
    if entries != [] {
      var n := |entries| - 1;
      ClassesAreEntries(entries[..n]);
      forall k | 0 <= k < |ClassesOf(entries)| ensures Some(ClassesOf(entries)[k]) in entries {
        if k < |ClassesOf(entries[..n])| { assert Some(ClassesOf(entries[..n])[k]) in entries[..n]; }
      }
    }
  }
}
