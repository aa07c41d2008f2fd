/** The configuration of the hooking library as text: written by the trainer
    (prepare_dynmem(), src/ugtrain.cpp), read in the game (memhack_init(),
    src/linuxhooking/libmemhack.c). */
module HookConfig {
  import opened Common
  import opened Numbers

  /** A constructor: size, code address and stack offset of its malloc, and the library. */
  datatype Essentials = Essentials(size: nat, code: nat, stack: nat, lib: Option<string>)

  datatype Grow = Grow(min: nat, max: nat, mul: bool, add: nat, code: nat, stack: nat, lib: Option<string>)

  /** struct cfg in the game: every constructor is one, growth is part of one. */
  datatype Record = Record(ess: Essentials, grow: Option<Grow>)

  // ---------------------------------------------------------------------------
  // Text
  // ---------------------------------------------------------------------------

  function LibText(lib: Option<string>): string
  {
    match lib case None => "exe" case Some(name) => name
  }

  /** ADD_DYNMEM_ESSENTIALS, without the leading semicolon. */
  function EssText(e: Essentials): string
  {
    Print(e.size, 10) + ";" + (PrintPtr(e.code) + ";" + (PrintPtr(e.stack) + ";" + LibText(e.lib)))
  }

  function OpText(mul: bool, add: nat): string
  {
    (if mul then "*" else "+") + Print(add, 10)
  }

  /** The growth rule, behind "grow;". */
  function GrowText(g: Grow): string
  {
    Print(g.min, 10) + ";" + (Print(g.max, 10) + ";" + (OpText(g.mul, g.add) + ";" +
      (PrintPtr(g.code) + ";" + (PrintPtr(g.stack) + ";" + LibText(g.lib)))))
  }

  function RecordText(r: Record): string
  {
    EssText(r.ess) + match r.grow case None => "" case Some(g) => ";grow;" + GrowText(g)
  }

  /** All records, each with its leading semicolon. */
  function Body(rs: seq<Record>): string
  {
    if rs == [] then "" else ";" + RecordText(rs[0]) + Body(rs[1..])
  }

  function Config(gbt: bool, rs: seq<Record>): string
  {
    Print(|rs|, 10) + (if gbt then ";gbt" else "") + Body(rs) + "\n"
  }

  // ---------------------------------------------------------------------------
  // Reading it
  // ---------------------------------------------------------------------------

  /** SET_IBUF_START: behind the first semicolon, if there is one. */
  function Rest(s: string): string
  {
    var i := IndexOf(s, ';');
    if i < |s| then s[i+1..] else s
  }

  function Rests(s: string, k: nat): string
  {
    if k == 0 then s else Rests(Rest(s), k - 1)
  }

  /** The name that SET_CODE_LIB takes. */
  function LibOf(s: string): Option<string>
  {
    var name := s[..IndexOf(s, ';')];
    if name == "exe" then None else Some(name)
  }

  /** What is left behind a scanned number and the semicolon that has to follow. */
  function Behind(s: string, n: Option<Scanned>): Option<string>
  {
    if n.Some? && n.value.len < |s| && s[n.value.len] == ';' then Some(s[n.value.len+1..]) else None
  }

  /** Two addresses with a semicolon between them. */
  datatype Addrs = Addrs(code: nat, stack: nat)

  function ScanAddrs(s: string): Option<Addrs>
  {
    var code := ScanPtr(s);
    match Behind(s, code)
    case None => None
    case Some(t) =>
      match ScanPtr(t)
      case None => None
      case Some(stack) => Some(Addrs(code.value.value, stack.value))
  }

  /** sscanf() with "%zd;0x%lx;0x%lx": the numbers of a constructor. */
  datatype CtorNums = CtorNums(size: nat, code: nat, stack: nat)

  function ScanCtor(s: string): Option<CtorNums>
  {
    var size := Scan(s, 10);
    match Behind(s, size)
    case None => None
    case Some(t) =>
      match ScanAddrs(t)
      case None => None
      case Some(a) => Some(CtorNums(size.value.value, a.code, a.stack))
  }

  function ScanEss(s: string): Option<Essentials>
  {
    match ScanCtor(s)
    case None => None
    case Some(n) => Some(Essentials(n.size, n.code, n.stack, LibOf(Rests(s, 3))))
  }

  function ScanOp(s: string): Option<Scanned>
  {
    if s == "" || (s[0] != '*' && s[0] != '+') then None
    else match Scan(s[1..], 10)
      case None => None
      case Some(n) => Some(Scanned(n.value, n.len + 1))
  }

  /** sscanf() with "%zd;%zd;%c%u;0x%lx;0x%lx": the numbers of a growth rule. */
  datatype RuleNums = RuleNums(min: nat, max: nat, mul: bool, add: nat, code: nat, stack: nat)

  function ScanRule(s: string): Option<RuleNums>
  {
    var min := Scan(s, 10);
    match Behind(s, min)
    case None => None
    case Some(t) =>
      var max := Scan(t, 10);
      match Behind(t, max)
      case None => None
      case Some(u) =>
        var op := ScanOp(u);
        match Behind(u, op)
        case None => None
        case Some(v) =>
          match ScanAddrs(v)
          case None => None
          case Some(a) => Some(RuleNums(min.value.value, max.value.value, u[0] == '*', op.value.value, a.code, a.stack))
  }

  function ScanGrow(s: string): Option<Grow>
  {
    match ScanRule(s)
    case None => None
    case Some(n) => Some(Grow(n.min, n.max, n.mul, n.add, n.code, n.stack, LibOf(Rests(s, 5))))
  }

  datatype Parsed = Parsed(record: Record, rest: string)

  const GROW := "grow;"

  /** The constructor with its growth rule, if one follows at n. */
  function ScanGrown(e: Essentials, n: string): Option<Parsed>
  {
    if GROW <= n then
      match ScanGrow(n[5..])
      case None => None
      case Some(g) => Some(Parsed(Record(e, Some(g)), Rest(Rests(n[5..], 5))))
    else Some(Parsed(Record(e, None), n))
  }

  /** One turn of the loop over the configured constructors. */
  function ScanRecord(s: string): Option<Parsed>
  {
    match ScanEss(s)
    case None => None
    case Some(e) => ScanGrown(e, Rest(Rests(s, 3)))
  }

  function ScanRecords(s: string, num: nat): Option<seq<Record>>
    decreases num
  {
    if num == 0 then Some([])
    else match ScanRecord(s)
      case None => None
      case Some(p) =>
        match ScanRecords(p.rest, num - 1)
        case None => None
        case Some(rs) => Some([p.record] + rs)
  }

  datatype Received = Received(gbt: bool, records: seq<Record>)

  /** memhack_init(), as far as the configuration goes; None when it gives up. */
  function Decode(s: string): Option<Received>
  {
    match Scan(s, 10)
    case None => None
    case Some(num) =>
      if num.value == 0 then None
      else
        var t := Rest(s[..IndexOf(s, '\n')]);
        var gbt := "gbt" <= t;
        match ScanRecords(if gbt then Rest(t) else t, num.value)
        case None => None
        case Some(rs) => Some(Received(gbt, rs))
  }

  // ---------------------------------------------------------------------------
  // Reading undoes writing
  // ---------------------------------------------------------------------------

  /** Names that survive: no separators, and not the word for "no library". */
  predicate PlainLib(lib: Option<string>)
  {
    lib.Some? ==> ';' !in lib.value && '\n' !in lib.value && lib.value != "exe"
  }

  predicate PlainRecord(r: Record)
  {
    PlainLib(r.ess.lib) && (r.grow.Some? ==> PlainLib(r.grow.value.lib))
  }

  predicate Plain(rs: seq<Record>)
  {
    forall i :: 0 <= i < |rs| ==> PlainRecord(rs[i])
  }

  lemma {:induction false} IndexBehind(a: string, b: string)
    requires ';' !in a
    ensures IndexOf(a + ";" + b, ';') == |a|
  {
    if a != "" {
      assert (a + ";" + b)[1..] == a[1..] + ";" + b;
      IndexBehind(a[1..], b);
    }
  }

  lemma {:induction false} RestBehind(a: string, b: string)
    requires ';' !in a
    ensures IndexOf(a + ";" + b, ';') == |a| && Rest(a + ";" + b) == b
  {
    IndexBehind(a, b);
    assert (a + ";" + b)[|a|+1..] == b;
  }

  lemma {:induction false} NoRest(a: string)
    requires ';' !in a
    ensures IndexOf(a, ';') == |a| && Rest(a) == a
  {
    if a != "" { NoRest(a[1..]); }
  }

  lemma {:induction false} DigitsArePlain(n: nat, base: Base)
    ensures ';' !in Print(n, base) && '\n' !in Print(n, base)
  {
    PrintDigits(n, base);
  }

  /** Text that goes on with the next field, or ends. */
  predicate NextField(rest: string)
  {
    rest == "" || rest[0] == ';'
  }

  lemma {:induction false} PtrField(p: nat, b: string)
    ensures var s := PrintPtr(p) + ";" + b;
      Behind(s, ScanPtr(s)) == Some(b) && ScanPtr(s).Some? && ScanPtr(s).value.value == p && Rest(s) == b
  {
    DigitsArePlain(p, 16);
    assert PrintPtr(p) + ";" + b == PrintPtr(p) + (";" + b);
    ScanPrintedPtr(p, ";" + b);
    RestBehind(PrintPtr(p), b);
    assert (PrintPtr(p) + ";" + b)[|PrintPtr(p)|+1..] == b;
  }

  lemma {:induction false} NumberField(n: nat, b: string)
    ensures var s := Print(n, 10) + ";" + b;
      Behind(s, Scan(s, 10)) == Some(b) && Scan(s, 10).Some? && Scan(s, 10).value.value == n && Rest(s) == b
  {
    DigitsArePlain(n, 10);
    assert Print(n, 10) + ";" + b == Print(n, 10) + (";" + b);
    ScanPrinted(n, 10, ";" + b);
    RestBehind(Print(n, 10), b);
    assert (Print(n, 10) + ";" + b)[|Print(n, 10)|+1..] == b;
  }

  lemma {:induction false} OpField(mul: bool, n: nat, b: string)
    ensures var s := OpText(mul, n) + ";" + b;
      Behind(s, ScanOp(s)) == Some(b) && ScanOp(s).Some? && ScanOp(s).value.value == n && Rest(s) == b &&
        (s[0] == '*') == mul
  {
    var s := OpText(mul, n) + ";" + b;
    DigitsArePlain(n, 10);
    assert s[1..] == Print(n, 10) + (";" + b);
    ScanPrinted(n, 10, ";" + b);
    RestBehind(OpText(mul, n), b);
    assert s[|OpText(mul, n)|+1..] == b;
  }

  lemma {:induction false} LibField(lib: Option<string>, rest: string)
    requires PlainLib(lib) && NextField(rest)
    ensures LibOf(LibText(lib) + rest) == lib
    ensures Rest(LibText(lib) + rest) == if rest == "" then LibText(lib) else rest[1..]
  {
    var t := LibText(lib);
    if rest == "" {
      NoRest(t);
      assert t + rest == t && t[..|t|] == t;
    } else {
      assert t + rest == t + ";" + rest[1..];
      RestBehind(t, rest[1..]);
      assert (t + rest)[..|t|] == t;
    }
  }

  /** The last two addresses and the library. */
  lemma {:induction false} AddrsField(code: nat, stack: nat, lib: Option<string>, rest: string)
    requires NextField(rest)
    ensures var s := PrintPtr(code) + ";" + (PrintPtr(stack) + ";" + (LibText(lib) + rest));
      ScanAddrs(s) == Some(Addrs(code, stack)) && Rests(s, 2) == LibText(lib) + rest
  {
    var t := PrintPtr(stack) + ";" + (LibText(lib) + rest);
    PtrField(code, t);
    PtrField(stack, LibText(lib) + rest);
    var s := PrintPtr(code) + ";" + t;
    assert Rests(s, 2) == Rests(Rest(s), 1) == Rests(Rest(Rest(s)), 0);
  }

  lemma {:induction false} EssTextWith(e: Essentials, rest: string)
    ensures EssText(e) + rest ==
      Print(e.size, 10) + ";" + (PrintPtr(e.code) + ";" + (PrintPtr(e.stack) + ";" + (LibText(e.lib) + rest)))
  {
    var l := LibText(e.lib);
    var w := PrintPtr(e.stack) + ";" + l;
    Regroup(Print(e.size, 10), PrintPtr(e.code) + ";" + w, rest);
    Regroup(PrintPtr(e.code), w, rest);
    Regroup(PrintPtr(e.stack), l, rest);
  }

  lemma {:induction false} EssParts(e: Essentials, s: string, t: string)
    requires Behind(s, Scan(s, 10)) == Some(t) && Scan(s, 10).value.value == e.size && Rest(s) == t
    requires ScanAddrs(t) == Some(Addrs(e.code, e.stack)) && LibOf(Rests(t, 2)) == e.lib
    ensures ScanEss(s) == Some(e) && Rests(s, 3) == Rests(t, 2)
  {
    assert Rests(s, 3) == Rests(t, 2);
  }

  lemma {:induction false} EssField(e: Essentials, rest: string)
    requires PlainLib(e.lib) && NextField(rest)
    ensures ScanEss(EssText(e) + rest) == Some(e) && Rests(EssText(e) + rest, 3) == LibText(e.lib) + rest
  {
    var t := PrintPtr(e.code) + ";" + (PrintPtr(e.stack) + ";" + (LibText(e.lib) + rest));
    EssTextWith(e, rest);
    NumberField(e.size, t);
    AddrsField(e.code, e.stack, e.lib, rest);
    LibField(e.lib, rest);
    EssParts(e, EssText(e) + rest, t);
  }

  lemma {:induction false} Regroup(a: string, b: string, rest: string)
    ensures (a + ";" + b) + rest == a + ";" + (b + rest)
  {}

  lemma {:induction false} GrowTextWith(g: Grow, rest: string)
    ensures GrowText(g) + rest == Print(g.min, 10) + ";" + (Print(g.max, 10) + ";" + (OpText(g.mul, g.add) + ";" +
      (PrintPtr(g.code) + ";" + (PrintPtr(g.stack) + ";" + (LibText(g.lib) + rest)))))
  {
    var l := LibText(g.lib);
    var w := PrintPtr(g.stack) + ";" + l;
    var v := PrintPtr(g.code) + ";" + w;
    var u := OpText(g.mul, g.add) + ";" + v;
    var t := Print(g.max, 10) + ";" + u;
    Regroup(Print(g.min, 10), t, rest);
    Regroup(Print(g.max, 10), u, rest);
    Regroup(OpText(g.mul, g.add), v, rest);
    Regroup(PrintPtr(g.code), w, rest);
    Regroup(PrintPtr(g.stack), l, rest);
  }

  lemma {:induction false} GrowParts(g: Grow, s: string, t: string, u: string, v: string)
    requires Behind(s, Scan(s, 10)) == Some(t) && Scan(s, 10).value.value == g.min
    requires Behind(t, Scan(t, 10)) == Some(u) && Scan(t, 10).value.value == g.max
    requires Behind(u, ScanOp(u)) == Some(v) && ScanOp(u).value.value == g.add && (u[0] == '*') == g.mul
    requires ScanAddrs(v) == Some(Addrs(g.code, g.stack)) && LibOf(Rests(s, 5)) == g.lib
    ensures ScanGrow(s) == Some(g)
  {}

  lemma {:induction false} GrowField(g: Grow, rest: string)
    requires PlainLib(g.lib) && NextField(rest)
    ensures ScanGrow(GrowText(g) + rest) == Some(g) && Rests(GrowText(g) + rest, 5) == LibText(g.lib) + rest
  {
    var s, l := GrowText(g) + rest, LibText(g.lib) + rest;
    var v := PrintPtr(g.code) + ";" + (PrintPtr(g.stack) + ";" + l);
    var u := OpText(g.mul, g.add) + ";" + v;
    var t := Print(g.max, 10) + ";" + u;
    GrowTextWith(g, rest);
    NumberField(g.min, t);
    NumberField(g.max, u);
    OpField(g.mul, g.add, v);
    GrowTail(g, rest, s, t, u, v);
    GrowParts(g, s, t, u, v);
  }

  lemma {:induction false} GrowTail(g: Grow, rest: string, s: string, t: string, u: string, v: string)
    requires PlainLib(g.lib) && NextField(rest) && Rest(s) == t && Rest(t) == u && Rest(u) == v
    requires v == PrintPtr(g.code) + ";" + (PrintPtr(g.stack) + ";" + (LibText(g.lib) + rest))
    ensures ScanAddrs(v) == Some(Addrs(g.code, g.stack))
    ensures Rests(s, 5) == LibText(g.lib) + rest && LibOf(Rests(s, 5)) == g.lib
  {
    AddrsField(g.code, g.stack, g.lib, rest);
    FiveRests(s, t, u, v);
    LibField(g.lib, rest);
  }

  lemma {:induction false} FiveRests(s: string, t: string, u: string, v: string)
    requires Rest(s) == t && Rest(t) == u && Rest(u) == v
    ensures Rests(s, 5) == Rests(v, 2)
  {
    assert Rests(s, 5) == Rests(t, 4) == Rests(u, 3) == Rests(v, 2);
  }

  /** A size does not look like a growth rule or a command. */
  lemma {:induction false} SizeFirst(e: Essentials, rest: string)
    ensures var s := EssText(e) + rest; s != "" && IsDigit(s[0], 10)
  {
    PrintDigits(e.size, 10);
  }

  lemma {:induction false} RecordStart(r: Record, rest: string)
    ensures var s := RecordText(r) + rest; s != "" && IsDigit(s[0], 10)
  {
    var g := match r.grow case None => "" case Some(g) => ";grow;" + GrowText(g);
    SizeFirst(r.ess, g + rest);
    assert RecordText(r) + rest == EssText(r.ess) + (g + rest);
  }

  /** What is left to read behind a record: the next one, or just its own library again. */
  function LeftBehind(lib: Option<string>, rs: seq<Record>): string
  {
    if rs == [] then LibText(lib) else RecordText(rs[0]) + Body(rs[1..])
  }

  lemma {:induction false} BodyTail(rs: seq<Record>)
    requires rs != []
    ensures Body(rs) == ";" + (RecordText(rs[0]) + Body(rs[1..])) && Body(rs)[1..] == RecordText(rs[0]) + Body(rs[1..])
  {
    Group(";", RecordText(rs[0]), Body(rs[1..]));
  }

  lemma {:induction false} Group(a: string, b: string, c: string)
    ensures a + b + c == a + (b + c)
  {}

  lemma {:induction false} NotGrow(s: string)
    requires s == "" || s[0] != 'g' || ';' !in s
    ensures !(GROW <= s)
  {
    assert GROW[0] == 'g' && GROW[4] == ';';
  }

  lemma {:induction false} LibThenBody(lib: Option<string>, rs: seq<Record>)
    requires PlainLib(lib)
    ensures LibOf(LibText(lib) + Body(rs)) == lib && Rest(LibText(lib) + Body(rs)) == LeftBehind(lib, rs)
    ensures !(GROW <= LeftBehind(lib, rs))
  {
    LibField(lib, Body(rs));
    if rs != [] {
      BodyTail(rs);
      RecordStart(rs[0], Body(rs[1..]));
    }
    NotGrow(LeftBehind(lib, rs));
  }

  lemma {:induction false} ScanGrowing(s: string, e: Essentials, n: string, g: Grow, left: string)
    requires ScanEss(s) == Some(e) && Rest(Rests(s, 3)) == GROW + n
    requires ScanGrow(n) == Some(g) && Rest(Rests(n, 5)) == left
    ensures ScanRecord(s) == Some(Parsed(Record(e, Some(g)), left))
  {
    assert (GROW + n)[5..] == n;
  }

  lemma {:induction false} GrowingText(e: Essentials, g: Grow, rest: string)
    ensures RecordText(Record(e, Some(g))) + rest == EssText(e) + (";" + (GROW + (GrowText(g) + rest)))
  {
    assert ";grow;" == ";" + GROW;
  }

  lemma {:induction false} GrowingRecordField(e: Essentials, g: Grow, rs: seq<Record>)
    requires PlainLib(e.lib) && PlainLib(g.lib)
    ensures ScanRecord(RecordText(Record(e, Some(g))) + Body(rs)) ==
      Some(Parsed(Record(e, Some(g)), LeftBehind(g.lib, rs)))
  {
    var m := GrowText(g) + Body(rs);
    var rest := ";" + (GROW + m);
    GrowingText(e, g, Body(rs));
    EssField(e, rest);
    LibField(e.lib, rest);
    assert rest[1..] == GROW + m;
    GrowField(g, Body(rs));
    LibThenBody(g.lib, rs);
    ScanGrowing(EssText(e) + rest, e, m, g, LeftBehind(g.lib, rs));
  }

  function LastLib(r: Record): Option<string>
  {
    if r.grow.Some? then r.grow.value.lib else r.ess.lib
  }

  /** One record is read back, and the next one is left. */
  lemma {:induction false} RecordField(r: Record, rs: seq<Record>)
    requires PlainRecord(r)
    ensures ScanRecord(RecordText(r) + Body(rs)) ==
      Some(Parsed(r, LeftBehind(LastLib(r), rs)))
  {
    if r.grow.Some? {
      GrowingRecordField(r.ess, r.grow.value, rs);
    } else {
      assert RecordText(r) + Body(rs) == EssText(r.ess) + Body(rs);
      EssField(r.ess, Body(rs));
      LibThenBody(r.ess.lib, rs);
    }
  }

  lemma {:induction false} ScanRecordsStep(s: string, p: Parsed, rs: seq<Record>)
    requires ScanRecord(s) == Some(p) && ScanRecords(p.rest, |rs|) == Some(rs)
    ensures ScanRecords(s, |rs| + 1) == Some([p.record] + rs)
  {}

  lemma {:induction false} RecordsField(r: Record, rs: seq<Record>)
    requires PlainRecord(r) && Plain(rs)
    ensures ScanRecords(RecordText(r) + Body(rs), |rs| + 1) == Some([r] + rs)
    decreases |rs|
  {
    var left := LeftBehind(LastLib(r), rs);
    RecordField(r, rs);
    if rs == [] {
      assert ScanRecords(left, 0) == Some([]);
    } else {
      RecordsField(rs[0], rs[1..]);
      assert [rs[0]] + rs[1..] == rs;
    }
    ScanRecordsStep(RecordText(r) + Body(rs), Parsed(r, left), rs);
  }

  lemma {:induction false} AllRecordsField(rs: seq<Record>)
    requires rs != [] && Plain(rs)
    ensures ScanRecords(RecordText(rs[0]) + Body(rs[1..]), |rs|) == Some(rs)
  {
    RecordsField(rs[0], rs[1..]);
    assert [rs[0]] + rs[1..] == rs;
  }

  lemma {:induction false} RecordOneLine(r: Record)
    requires PlainRecord(r)
    ensures '\n' !in RecordText(r)
  {
    EssOneLine(r.ess);
    if r.grow.Some? { GrowOneLine(r.grow.value); }
  }

  lemma {:induction false} EssOneLine(e: Essentials)
    requires PlainLib(e.lib)
    ensures '\n' !in EssText(e)
  {
    DigitsArePlain(e.size, 10);
    AddrsOneLine(e.code, e.stack, e.lib);
  }

  lemma {:induction false} AddrsOneLine(code: nat, stack: nat, lib: Option<string>)
    requires PlainLib(lib)
    ensures '\n' !in PrintPtr(code) + ";" + (PrintPtr(stack) + ";" + LibText(lib))
  {
    DigitsArePlain(code, 16);
    DigitsArePlain(stack, 16);
  }

  lemma {:induction false} GrowOneLine(g: Grow)
    requires PlainLib(g.lib)
    ensures '\n' !in GrowText(g)
  {
    DigitsArePlain(g.min, 10);
    DigitsArePlain(g.max, 10);
    DigitsArePlain(g.add, 10);
    AddrsOneLine(g.code, g.stack, g.lib);
  }

  lemma {:induction false} BodyOneLine(rs: seq<Record>)
    requires Plain(rs)
    ensures '\n' !in Body(rs)
  {
    if rs != [] {
      RecordOneLine(rs[0]);
      BodyOneLine(rs[1..]);
    }
  }

  lemma {:induction false} LineOf(s: string)
    requires '\n' !in s
    ensures (s + "\n")[..IndexOf(s + "\n", '\n')] == s
  {
    if s == "" {
      assert s + "\n" == "\n";
    } else {
      assert (s + "\n")[1..] == s[1..] + "\n";
      LineOf(s[1..]);
      LineIndex(s);
    }
  }

  lemma {:induction false} LineIndex(s: string)
    requires '\n' !in s
    ensures IndexOf(s + "\n", '\n') == |s|
  {
    if s != "" {
      assert (s + "\n")[1..] == s[1..] + "\n";
      LineIndex(s[1..]);
    }
  }

  /** What follows the number of records. */
  function Command(gbt: bool, b: string): string { if gbt then "gbt;" + b else b }

  lemma {:induction false} CommandKnown(gbt: bool, t: string)
    requires !gbt ==> t != "" && t[0] != 'g'
    ensures
      var cmd := Command(gbt, t);
      ("gbt" <= cmd) == gbt && (if gbt then Rest(cmd) else cmd) == t
  {
    if gbt {
      assert "gbt;" + t == "gbt" + ";" + t && "gbt" <= "gbt;" + t;
      RestBehind("gbt", t);
    } else {
      assert "gbt"[0] == 'g';
    }
  }

  lemma {:induction false} DecodeParts(s: string, num: Scanned, line: string, gbt: bool, t: string, rs: seq<Record>)
    requires Scan(s, 10) == Some(num) && num.value == |rs| && rs != [] && s[..IndexOf(s, '\n')] == line
    requires Rest(line) == Command(gbt, t) && (!gbt ==> t != "" && t[0] != 'g')
    requires ScanRecords(t, |rs|) == Some(rs)
    ensures Decode(s) == Some(Received(gbt, rs))
  {
    CommandKnown(gbt, t);
  }

  /** What the game finds in the first line. */
  lemma {:induction false} FirstLine(gbt: bool, rs: seq<Record>, num: string, cmd: string)
    requires rs != [] && Plain(rs) && num == Print(|rs|, 10)
    requires cmd == Command(gbt, RecordText(rs[0]) + Body(rs[1..]))
    ensures
      var s := Config(gbt, rs);
      Scan(s, 10) == Some(Scanned(|rs|, |num|)) && s[..IndexOf(s, '\n')] == num + ";" + cmd &&
        Rest(num + ";" + cmd) == cmd
  {
    ConfigLine(gbt, rs);
    ScanPrinted(|rs|, 10, ";" + cmd + "\n");
    DigitsArePlain(|rs|, 10);
    CommandOneLine(gbt, rs, cmd);
    LineOf(num + ";" + cmd);
    RestBehind(num, cmd);
  }

  lemma {:induction false} CommandOneLine(gbt: bool, rs: seq<Record>, cmd: string)
    requires rs != [] && Plain(rs) && cmd == Command(gbt, RecordText(rs[0]) + Body(rs[1..]))
    ensures '\n' !in cmd
  {
    RecordOneLine(rs[0]);
    BodyOneLine(rs[1..]);
  }

  /** The game recovers every constructor and growth rule, field by field. */
  lemma {:induction false} DecodeConfig(gbt: bool, rs: seq<Record>)
    requires rs != [] && Plain(rs)
    ensures Decode(Config(gbt, rs)) == Some(Received(gbt, rs))
  {
    var num, b := Print(|rs|, 10), RecordText(rs[0]) + Body(rs[1..]);
    var cmd := Command(gbt, b);
    FirstLine(gbt, rs, num, cmd);
    RecordStart(rs[0], Body(rs[1..]));
    AllRecordsField(rs);
    DecodeParts(Config(gbt, rs), Scanned(|rs|, |num|), num + ";" + cmd, gbt, b, rs);
  }

  lemma {:induction false} ConfigLine(gbt: bool, rs: seq<Record>)
    requires rs != []
    ensures
      var num, cmd := Print(|rs|, 10), Command(gbt, RecordText(rs[0]) + Body(rs[1..]));
      Config(gbt, rs) == num + ";" + cmd + "\n" && Config(gbt, rs) == num + (";" + cmd + "\n")
  {
    var num, b := Print(|rs|, 10), RecordText(rs[0]) + Body(rs[1..]);
    BodyTail(rs);
    Commanded(num, b);
    Group(num, ";" + Command(gbt, b), "\n");
    Group(num, ";", Command(gbt, b));
  }

  lemma {:induction false} Commanded(num: string, b: string)
    ensures num + ";gbt" + (";" + b) == num + ";" + ("gbt;" + b)
    ensures num + "" + (";" + b) == num + ";" + b
  {}

  /** A library named like the word for "no library" is the one name that gets lost. */
  lemma {:induction false} ExeNameIsLost(name: string)
    requires ';' !in name
    ensures LibOf(LibText(Some(name))) == Some(name) <==> name != "exe"
  {
    NoRest(name);
    assert name[..|name|] == name;
  }

  /** The text of constructors, in the game binary and in a library. */
  lemma {:induction false} SampleCtors()
    ensures EssText(Essentials(24, 0xa3c, 0x28, None)) == "24" + ";" + ("0xa3c" + ";" + ("0x28" + ";" + "exe"))
    ensures EssText(Essentials(8, 0xb1, 0x30, Some("liba"))) == "8" + ";" + ("0xb1" + ";" + ("0x30" + ";" + "liba"))
  {
    assert Print(24, 10) == "24" && PrintPtr(0xa3c) == "0xa3c" && PrintPtr(0x28) == "0x28";
    assert Print(8, 10) == "8" && PrintPtr(0xb1) == "0xb1" && PrintPtr(0x30) == "0x30";
  }

  /** The text of a growth rule. */
  lemma {:induction false} SampleRule()
    ensures GrowText(Grow(16, 64, true, 4, 0xc2, 0x48, None)) ==
      "16" + ";" + ("64" + ";" + (("*" + "4") + ";" + ("0xc2" + ";" + ("0x48" + ";" + "exe"))))
    ensures OpText(false, 4) == "+" + "4"
  {
    assert Print(16, 10) == "16" && Print(64, 10) == "64" && Print(4, 10) == "4";
    assert PrintPtr(0xc2) == "0xc2" && PrintPtr(0x48) == "0x48";
  }

  /** The text of two constructors, the second one with growth. */
  lemma {:induction false} SampleConfig(a: Essentials, b: Essentials, g: Grow)
    ensures Config(true, [Record(a, None), Record(b, Some(g))]) ==
      "2" + ";gbt" + (";" + EssText(a) + (";" + (EssText(b) + (";grow;" + GrowText(g))))) + "\n"
  {
    var rs := [Record(a, None), Record(b, Some(g))];
    assert Print(2, 10) == "2";
    assert rs[1..] == [rs[1]] && rs[1..][1..] == [];
    assert Body(rs[1..]) == ";" + RecordText(rs[1]) + "";
    assert RecordText(rs[0]) == EssText(a) + "";
  }

  // ---------------------------------------------------------------------------
  // Writing it
  // ---------------------------------------------------------------------------

  /** A string object: its identity and what it says. */
  datatype LibRef = LibRef(id: nat, name: string)

  datatype Ctor = Ctor(size: nat, code: nat, stack: nat, lib: Option<LibRef>)

  datatype Rule = Rule(min: nat, max: nat, mul: bool, add: nat, code: nat, stack: nat, lib: Option<LibRef>)

  /** A class of objects in the trainer. */
  datatype Class = Class(main: Ctor, consts: seq<Ctor>, grow: Option<Rule>)

  function NameOf(lib: Option<LibRef>): Option<string>
  {
    match lib case None => None case Some(r) => Some(r.name)
  }

  function EssOf(c: Ctor): Essentials
  {
    Essentials(c.size, c.code, c.stack, NameOf(c.lib))
  }

  function GrowOf(r: Rule): Grow
  {
    Grow(r.min, r.max, r.mul, r.add, r.code, r.stack, NameOf(r.lib))
  }

  function Ctors(c: Class): (r: seq<Ctor>)
    ensures r != []
  {
    [c.main] + c.consts
  }

  /** One record per constructor; growth goes with the last one. */
  function RecordsOf(c: Class): (r: seq<Record>)
    ensures |r| == |c.consts| + 1
  {
    var cs := Ctors(c);
    seq(|cs|, i requires 0 <= i < |cs| =>
      Record(EssOf(cs[i]), if i == |cs| - 1 && c.grow.Some? then Some(GrowOf(c.grow.value)) else None))
  }

  function AllRecords(cs: seq<Class>): seq<Record>
  {
    if cs == [] then [] else AllRecords(cs[..|cs|-1]) + RecordsOf(cs[|cs|-1])
  }

  /** The classes of the configured values, each as often as its values follow each other. */
  function ClassesOf(entries: seq<Option<Class>>): seq<Class>
  {
    if entries == [] then []
    else
      var cs, e := ClassesOf(entries[..|entries|-1]), entries[|entries|-1];
      if e.None? || (cs != [] && cs[|cs|-1] == e.value) then cs else cs + [e.value]
  }

  /** The string object that tells classes apart. */
  function KeyLib(c: Class): Option<LibRef>
  {
    if c.grow.Some? then c.grow.value.lib else c.main.lib
  }

  /** Every class has such an object of its own. */
  predicate Identified(entries: seq<Option<Class>>)
  {
    && (forall i :: 0 <= i < |entries| && entries[i].Some? ==> KeyLib(entries[i].value).Some?)
    && (forall i, j ::
          0 <= i < |entries| && 0 <= j < |entries| && entries[i].Some? && entries[j].Some? &&
            entries[i] != entries[j] ==>
            KeyLib(entries[i].value).value.id != KeyLib(entries[j].value).value.id)
  }

  lemma {:induction false} BodyAppend(a: seq<Record>, b: seq<Record>)
    ensures Body(a + b) == Body(a) + Body(b)
  {
    if a == [] {
      assert a + b == b;
    } else {
      assert (a + b)[1..] == a[1..] + b;
      BodyAppend(a[1..], b);
      Group(";" + RecordText(a[0]), Body(a[1..]), Body(b));
    }
  }

  /** Constructors without growth, as text. */
  function CtorsText(cs: seq<Ctor>): string
  {
    if cs == [] then "" else CtorsText(cs[..|cs|-1]) + (";" + EssText(EssOf(cs[|cs|-1])))
  }

  function RuleText(grow: Option<Rule>): string
  {
    match grow case None => "" case Some(r) => ";grow;" + GrowText(GrowOf(r))
  }

  function PlainRecords(cs: seq<Ctor>): seq<Record>
  {
    seq(|cs|, i requires 0 <= i < |cs| => Record(EssOf(cs[i]), None))
  }

  lemma {:induction false} LastPlainRecord(cs: seq<Ctor>)
    requires cs != []
    ensures PlainRecords(cs) == PlainRecords(cs[..|cs|-1]) + [Record(EssOf(cs[|cs|-1]), None)]
  {}

  lemma {:induction false} CtorsAreBody(cs: seq<Ctor>)
    ensures CtorsText(cs) == Body(PlainRecords(cs))
  {
    if cs != [] {
      var init, r := cs[..|cs|-1], Record(EssOf(cs[|cs|-1]), None);
      CtorsAreBody(init);
      LastPlainRecord(cs);
      BodyAppend(PlainRecords(init), [r]);
      OneRecord(r);
      PlainText(r.ess);
    } else {
      assert PlainRecords(cs) == [];
    }
  }

  lemma {:induction false} PlainText(e: Essentials)
    ensures RecordText(Record(e, None)) == EssText(e)
  {}

  lemma {:induction false} OneRecord(r: Record)
    ensures Body([r]) == ";" + RecordText(r)
  {
    assert [r][1..] == [];
    assert Body([]) == "";
  }

  lemma {:induction false} LastRecord(c: Class)
    ensures
      var cs := Ctors(c);
      var n := |cs| - 1;
      var grow := if c.grow.Some? then Some(GrowOf(c.grow.value)) else None;
      RecordsOf(c) == PlainRecords(cs[..n]) + [Record(EssOf(cs[n]), grow)]
  {}

  lemma {:induction false} LastText(e: Essentials, grow: Option<Rule>)
    ensures
      var g := if grow.Some? then Some(GrowOf(grow.value)) else None;
      ";" + RecordText(Record(e, g)) == ";" + EssText(e) + RuleText(grow)
  {
    Group(";", EssText(e), RuleText(grow));
  }

  lemma {:induction false} ClassText(c: Class)
    ensures CtorsText(Ctors(c)) + RuleText(c.grow) == Body(RecordsOf(c))
  {
    var cs := Ctors(c);
    var n := |cs| - 1;
    var last := Record(EssOf(cs[n]), if c.grow.Some? then Some(GrowOf(c.grow.value)) else None);
    CtorsAreBody(cs[..n]);
    LastRecord(c);
    BodyAppend(PlainRecords(cs[..n]), [last]);
    OneRecord(last);
    LastText(last.ess, c.grow);
    Group(CtorsText(cs[..n]), ";" + EssText(EssOf(cs[n])), RuleText(c.grow));
  }
}
