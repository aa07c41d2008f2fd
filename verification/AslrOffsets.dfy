/** Exchanging load offsets after address space randomisation: the trainer adds them to its
    code addresses and sends them (handle_aslr(), src/aslr.cpp), the game adds them to its
    own (memhack_init(), src/linuxhooking/libmemhack.c). */
module AslrOffsets {
  import opened Common
  import opened Numbers
  import opened HookConfig

  /** Where a library, or the binary itself, was loaded: HANDLE_DYNMEM_ESSENTIALS. */
  function OffsetOf(lib: Option<string>, exeOffs: nat, find: string -> nat): nat
  {
    if lib.None? || lib.value == "" then exeOffs else find(lib.value)
  }

  // ---------------------------------------------------------------------------
  // The order of the addresses
  // ---------------------------------------------------------------------------

  /** A code address and the library it is relative to. */
  datatype Slot = Slot(code: nat, lib: Option<string>)

  function CtorSlot(c: Ctor): Slot { Slot(c.code, NameOf(c.lib)) }

  function CtorSlots(cs: seq<Ctor>): (r: seq<Slot>)
    ensures |r| == |cs|
  {
    seq(|cs|, i requires 0 <= i < |cs| => CtorSlot(cs[i]))
  }

  /** The trainer's order within a class: main, other constructors, growth. */
  function ClassSlots(c: Class): seq<Slot>
  {
    CtorSlots(Ctors(c)) + match c.grow case None => [] case Some(g) => [Slot(g.code, NameOf(g.lib))]
  }

  /** The game's order within a record: the constructor, its growth. */
  function RecordSlots(r: Record): (s: seq<Slot>)
    ensures |s| == if r.grow.Some? then 2 else 1
  {
    [Slot(r.ess.code, r.ess.lib)] + match r.grow case None => [] case Some(g) => [Slot(g.code, g.lib)]
  }

  function ClassesSlots(cs: seq<Class>): seq<Slot>
  {
    if cs == [] then [] else ClassesSlots(cs[..|cs|-1]) + ClassSlots(cs[|cs|-1])
  }

  function Slots(rs: seq<Record>): seq<Slot>
  {
    if rs == [] then [] else RecordSlots(rs[0]) + Slots(rs[1..])
  }

  lemma {:induction false} SlotsAppend(a: seq<Record>, b: seq<Record>)
    ensures Slots(a + b) == Slots(a) + Slots(b)
  {
    if a == [] {
      assert a + b == b;
    } else {
      assert (a + b)[1..] == a[1..] + b;
      SlotsAppend(a[1..], b);
    }
  }

  lemma {:induction false} PlainSlots(cs: seq<Ctor>)
    ensures Slots(PlainRecords(cs)) == CtorSlots(cs)
  {
    if cs != [] {
      assert PlainRecords(cs)[1..] == PlainRecords(cs[1..]);
      assert CtorSlots(cs) == [CtorSlot(cs[0])] + CtorSlots(cs[1..]);
      PlainSlots(cs[1..]);
    }
  }

  lemma {:induction false} ClassOrder(c: Class)
    ensures Slots(RecordsOf(c)) == ClassSlots(c)
  {
    var cs := Ctors(c);
    var n := |cs| - 1;
    var last := Record(EssOf(cs[n]), if c.grow.Some? then Some(GrowOf(c.grow.value)) else None);
    LastRecord(c);
    PlainSlots(cs[..n]);
    SlotsAppend(PlainRecords(cs[..n]), [last]);
    assert [last][1..] == [];
    assert Slots([last]) == RecordSlots(last) + [];
    assert CtorSlots(cs) == CtorSlots(cs[..n]) + [CtorSlot(cs[n])];
  }

  /** Both sides go through the code addresses in the same order. */
  lemma {:induction false} SameOrder(cs: seq<Class>)
    ensures Slots(AllRecords(cs)) == ClassesSlots(cs)
  {
    if cs != [] {
      var n := |cs| - 1;
      SameOrder(cs[..n]);
      SlotsAppend(AllRecords(cs[..n]), RecordsOf(cs[n]));
      ClassOrder(cs[n]);
    }
  }

  // ---------------------------------------------------------------------------
  // The message
  // ---------------------------------------------------------------------------

  function OffsetsText(offs: seq<nat>): string
  {
    if offs == [] then "" else PrintPtr(offs[0]) + ";" + OffsetsText(offs[1..])
  }

  lemma {:induction false} OffsetsAppend(a: seq<nat>, o: nat)
    ensures OffsetsText(a + [o]) == OffsetsText(a) + (PrintPtr(o) + ";")
  {
    if a == [] {
      assert [] + [o] == [o] && [o][1..] == [];
      assert OffsetsText([]) == "";
      assert PrintPtr(o) + ";" + "" == PrintPtr(o) + ";";
    } else {
      assert (a + [o])[1..] == a[1..] + [o];
      OffsetsAppend(a[1..], o);
      Group(PrintPtr(a[0]) + ";", OffsetsText(a[1..]), PrintPtr(o) + ";");
    }
  }

  function SlotOffsets(slots: seq<Slot>, exeOffs: nat, find: string -> nat): (r: seq<nat>)
    ensures |r| == |slots|
  {
    seq(|slots|, i requires 0 <= i < |slots| => OffsetOf(slots[i].lib, exeOffs, find))
  }

  // ---------------------------------------------------------------------------
  // Reading it in the game
  // ---------------------------------------------------------------------------

  /** An offset and what is left; 0 and everything when there is none. */
  datatype Taken = Taken(offs: nat, rest: string)

  function Take(s: string): Taken
  {
    match ScanPtr(s) case None => Taken(0, s) case Some(n) => Taken(n.value, Rest(s))
  }

  function Shift(code: nat, offs: nat): nat
  {
    if code != 0 then Add(code, offs) else 0
  }

  /** Such records take no offset from the message. */
  predicate Skipped(r: Record)
  {
    r.ess.size == 0 && r.grow.None?
  }

  function TakeOne(r: Record, s: string): (Record, string)
  {
    if Skipped(r) then (r, s)
    else
      var a := Take(s);
      var e := r.ess.(code := Shift(r.ess.code, a.offs));
      if r.grow.None? then (Record(e, None), a.rest)
      else
        var b := Take(a.rest);
        (Record(e, Some(r.grow.value.(code := Shift(r.grow.value.code, b.offs)))), b.rest)
  }

  function TakeAll(rs: seq<Record>, s: string): (r: seq<Record>)
    ensures |r| == |rs|
  {
    if rs == [] then []
    else
      var (r, rest) := TakeOne(rs[0], s);
      [r] + TakeAll(rs[1..], rest)
  }

  /** What memhack_init() makes of the message; a single stack value does not wait for one. */
  function Received(rs: seq<Record>, s: string): seq<Record>
  {
    if |rs| == 1 && Skipped(rs[0]) then rs else TakeAll(rs, s)
  }

  lemma {:induction false} TakeFirst(offs: seq<nat>)
    requires offs != []
    ensures Take(OffsetsText(offs)) == Taken(offs[0], OffsetsText(offs[1..]))
  {
    PtrField(offs[0], OffsetsText(offs[1..]));
  }

  /** How many offsets the game has taken before record i. */
  function TakenBefore(rs: seq<Record>, i: nat): (n: nat)
    requires i <= |rs|
  {
    if i == 0 then 0 else (if Skipped(rs[0]) then 0 else |RecordSlots(rs[0])|) + TakenBefore(rs[1..], i - 1)
  }

  /** How many offsets the trainer has written before record i. */
  function WrittenBefore(rs: seq<Record>, i: nat): (n: nat)
    requires i <= |rs|
    ensures i < |rs| ==> n + |RecordSlots(rs[i])| <= |Slots(rs)|
    ensures n <= |Slots(rs)|
  {
    if i == 0 then 0 else |RecordSlots(rs[0])| + WrittenBefore(rs[1..], i - 1)
  }

  lemma {:induction false} TakenIsWritten(rs: seq<Record>, i: nat)
    requires i <= |rs|
    ensures TakenBefore(rs, i) <= WrittenBefore(rs, i)
    ensures TakenBefore(rs, i) == WrittenBefore(rs, i) <==> forall k :: 0 <= k < i ==> !Skipped(rs[k])
  {
    if i > 0 {
      TakenIsWritten(rs[1..], i - 1);
      if forall k :: 0 <= k < i ==> !Skipped(rs[k]) {
        assert forall k :: 0 <= k < i - 1 ==> rs[1..][k] == rs[k+1];
      } else if !Skipped(rs[0]) {
        var k :| 0 <= k < i && Skipped(rs[k]);
        assert rs[1..][k-1] == rs[k];
      }
    }
  }

  // ---------------------------------------------------------------------------
  // Which offset goes where
  // ---------------------------------------------------------------------------

  /** A record that took its offsets from position n on. */
  function Shifted(r: Record, offs: seq<nat>, n: nat): Record
    requires n + |RecordSlots(r)| <= |offs|
  {
    var e := r.ess.(code := Shift(r.ess.code, offs[n]));
    match r.grow
    case None => Record(e, None)
    case Some(g) => Record(e, Some(g.(code := Shift(g.code, offs[n+1]))))
  }

  lemma {:induction false} TakeOneIs(r: Record, offs: seq<nat>)
    requires !Skipped(r) && |RecordSlots(r)| <= |offs|
    ensures TakeOne(r, OffsetsText(offs)) == (Shifted(r, offs, 0), OffsetsText(offs[|RecordSlots(r)|..]))
  {
    TakeFirst(offs);
    if r.grow.Some? {
      TakeFirst(offs[1..]);
      assert offs[1..][1..] == offs[2..];
    }
  }

  lemma {:induction false} TakenFits(rs: seq<Record>, i: nat)
    requires i < |rs|
    ensures TakenBefore(rs, i) + |RecordSlots(rs[i])| <= |Slots(rs)|
  {
    TakenIsWritten(rs, i);
  }

  /** Offsets the first record takes. */
  function TakenByFirst(rs: seq<Record>): (k: nat)
    requires rs != []
    ensures k <= |Slots(rs)| && |Slots(rs[1..])| + k <= |Slots(rs)|
  {
    if Skipped(rs[0]) then 0 else |RecordSlots(rs[0])|
  }

  lemma {:induction false} TakeAllStep(rs: seq<Record>, offs: seq<nat>)
    requires rs != [] && |Slots(rs)| <= |offs|
    ensures |RecordSlots(rs[0])| <= |offs|
    ensures TakeAll(rs, OffsetsText(offs)) ==
      [if Skipped(rs[0]) then rs[0] else Shifted(rs[0], offs, 0)] +
      TakeAll(rs[1..], OffsetsText(offs[TakenByFirst(rs)..]))
  {
    FirstTaken(rs[0], offs, TakenByFirst(rs));
  }

  /** Record i, shifted by the offsets at its turn. */
  function RecordServed(rs: seq<Record>, offs: seq<nat>, i: nat): Record
    requires i < |rs| && |Slots(rs)| <= |offs|
  {
    TakenFits(rs, i);
    if Skipped(rs[i]) then rs[i] else Shifted(rs[i], offs, TakenBefore(rs, i))
  }

  lemma {:induction false} ServedStep(rs: seq<Record>, offs: seq<nat>, i: nat)
    requires 0 < i < |rs| && |Slots(rs)| <= |offs|
    ensures RecordServed(rs, offs, i) == RecordServed(rs[1..], offs[TakenByFirst(rs)..], i - 1)
  {
    TakenFits(rs, i);
    TakenFits(rs[1..], i - 1);
    if !Skipped(rs[i]) { ShiftedBehind(rs[i], offs, TakenByFirst(rs), TakenBefore(rs[1..], i - 1)); }
  }

  /** Record i takes the offsets behind those taken by the records before it; a skipped record
      stays as it is. */
  lemma {:induction false} TakeAllAt(rs: seq<Record>, offs: seq<nat>, i: nat)
    requires i < |rs| && |Slots(rs)| <= |offs|
    ensures TakeAll(rs, OffsetsText(offs))[i] == RecordServed(rs, offs, i)
  {
    TakeAllStep(rs, offs);
    if i > 0 {
      ServedStep(rs, offs, i);
      TakeAllAt(rs[1..], offs[TakenByFirst(rs)..], i - 1);
    }
  }

  lemma {:induction false} FirstTaken(r: Record, offs: seq<nat>, k: nat)
    requires k == (if Skipped(r) then 0 else |RecordSlots(r)|) && k <= |offs|
    ensures TakeOne(r, OffsetsText(offs)) == (if Skipped(r) then r else Shifted(r, offs, 0), OffsetsText(offs[k..]))
  {
    if Skipped(r) {
      assert offs[0..] == offs;
    } else {
      TakeOneIs(r, offs);
    }
  }

  lemma {:induction false} ShiftedBehind(r: Record, offs: seq<nat>, k: nat, n: nat)
    requires k + n + |RecordSlots(r)| <= |offs|
    ensures Shifted(r, offs[k..], n) == Shifted(r, offs, k + n)
  {}

  /** The two code addresses of a record. */
  datatype Part = Main | Growth

  predicate HasPart(r: Record, part: Part) { part.Main? || r.grow.Some? }

  function CodeOf(r: Record, part: Part): nat
    requires HasPart(r, part)
  {
    if part.Main? then r.ess.code else r.grow.value.code
  }

  /** Position of the part in the record. */
  function PartAt(part: Part): nat { if part.Main? then 0 else 1 }

  /** The offset the trainer wrote for this address. */
  function OwnOffset(rs: seq<Record>, offs: seq<nat>, i: nat, part: Part): nat
    requires i < |rs| && HasPart(rs[i], part) && |offs| == |Slots(rs)|
  {
    offs[WrittenBefore(rs, i) + PartAt(part)]
  }

  /** The offset the game finds at this address's turn. */
  function FoundOffset(rs: seq<Record>, offs: seq<nat>, i: nat, part: Part): nat
    requires i < |rs| && HasPart(rs[i], part) && |offs| == |Slots(rs)|
  {
    TakenFits(rs, i);
    offs[TakenBefore(rs, i) + PartAt(part)]
  }

  /** Game and trainer agree on an address of record i. */
  predicate Agree(rs: seq<Record>, offs: seq<nat>, i: nat, part: Part)
    requires i < |rs| && HasPart(rs[i], part) && |offs| == |Slots(rs)|
  {
    var game := TakeAll(rs, OffsetsText(offs))[i];
    HasPart(game, part) && CodeOf(game, part) == Add(CodeOf(rs[i], part), OwnOffset(rs, offs, i, part))
  }

  lemma {:induction false} AddSame(code: nat, a: nat, b: nat)
    ensures Add(code, a) == Add(code, b) <==> a % PTR_RANGE == b % PTR_RANGE
  {
    var c, x, y := code % PTR_RANGE, a % PTR_RANGE, b % PTR_RANGE;
    AddReduced(code, a);
    AddReduced(code, b);
    assert (c + x) % PTR_RANGE == if c + x < PTR_RANGE then c + x else c + x - PTR_RANGE;
    assert (c + y) % PTR_RANGE == if c + y < PTR_RANGE then c + y else c + y - PTR_RANGE;
  }

  lemma {:induction false} AddReduced(a: nat, b: nat)
    ensures Add(a, b) == (a % PTR_RANGE + b % PTR_RANGE) % PTR_RANGE
  {
    var p, q := a / PTR_RANGE, b / PTR_RANGE;
    assert a + b == (a % PTR_RANGE + b % PTR_RANGE) + PTR_RANGE * (p + q);
  }

  /** What the agreement of an address depends on: one that the game leaves alone agrees when
      nothing was to be added; any other when the offset found is the one written for it. */
  predicate Served(rs: seq<Record>, offs: seq<nat>, i: nat, part: Part)
    requires i < |rs| && HasPart(rs[i], part) && |offs| == |Slots(rs)|
  {
    var own := OwnOffset(rs, offs, i, part);
    if Skipped(rs[i]) || CodeOf(rs[i], part) == 0 then own % PTR_RANGE == 0
    else FoundOffset(rs, offs, i, part) % PTR_RANGE == own % PTR_RANGE
  }

  lemma {:induction false} GameCode(rs: seq<Record>, offs: seq<nat>, i: nat, part: Part)
    requires i < |rs| && HasPart(rs[i], part) && |offs| == |Slots(rs)|
    ensures
      var game, code := TakeAll(rs, OffsetsText(offs))[i], CodeOf(rs[i], part);
      && HasPart(game, part)
      && CodeOf(game, part) == if Skipped(rs[i]) then code else Shift(code, FoundOffset(rs, offs, i, part))
  {
    TakeAllAt(rs, offs, i);
  }

  lemma {:induction false} ShiftAgrees(code: nat, found: nat, own: nat)
    requires code < PTR_RANGE
    ensures code == Add(code, own) <==> own % PTR_RANGE == 0
    ensures Shift(code, found) == Add(code, own) <==>
      if code == 0 then own % PTR_RANGE == 0 else found % PTR_RANGE == own % PTR_RANGE
  {
    AddSame(code, own, 0);
    AddSame(code, own, found);
  }

  /** For any configuration, message and address. */
  lemma {:induction false} AgreeIffServed(rs: seq<Record>, offs: seq<nat>, i: nat, part: Part)
    requires i < |rs| && HasPart(rs[i], part) && |offs| == |Slots(rs)| && CodeOf(rs[i], part) < PTR_RANGE
    ensures Agree(rs, offs, i, part) <==> Served(rs, offs, i, part)
  {
    GameCode(rs, offs, i, part);
    ShiftAgrees(CodeOf(rs[i], part), FoundOffset(rs, offs, i, part), OwnOffset(rs, offs, i, part));
  }

  /** While nothing was skipped before it, an address agrees exactly when its record is not
      skipped and it is known, or the offset is none. */
  lemma {:induction false} AgreeInStep(rs: seq<Record>, offs: seq<nat>, i: nat, part: Part)
    requires i < |rs| && HasPart(rs[i], part) && |offs| == |Slots(rs)| && CodeOf(rs[i], part) < PTR_RANGE
    requires forall k :: 0 <= k < i ==> !Skipped(rs[k])
    ensures Agree(rs, offs, i, part) <==>
      (!Skipped(rs[i]) && CodeOf(rs[i], part) != 0) || OwnOffset(rs, offs, i, part) % PTR_RANGE == 0
  {
    AgreeIffServed(rs, offs, i, part);
    TakenIsWritten(rs, i);
  }

  /** A message that is zero except for one offset. */
  function OneOffset(n: nat, k: nat): (r: seq<nat>)
    requires k < n
    ensures |r| == n
  {
    seq(n, i requires 0 <= i < n => if i == k then 1 else 0)
  }

  ghost predicate AlwaysAgree(rs: seq<Record>, i: nat, part: Part)
    requires i < |rs| && HasPart(rs[i], part)
  {
    forall offs: seq<nat> :: |offs| == |Slots(rs)| ==> Agree(rs, offs, i, part)
  }

  /** Whatever the offsets are, a known address of a record that takes any agrees: exactly
      when no record before it is skipped. */
  lemma {:induction false} AgreeIffNothingSkipped(rs: seq<Record>, i: nat, part: Part)
    requires i < |rs| && HasPart(rs[i], part) && !Skipped(rs[i]) && 0 < CodeOf(rs[i], part) < PTR_RANGE
    ensures AlwaysAgree(rs, i, part) <==> forall k :: 0 <= k < i ==> !Skipped(rs[k])
  {
    if forall k :: 0 <= k < i ==> !Skipped(rs[k]) {
      forall offs: seq<nat> | |offs| == |Slots(rs)| ensures Agree(rs, offs, i, part) { AgreeInStep(rs, offs, i, part); }
    } else {
      var offs := Unserved(rs, i, part);
    }
  }

  lemma {:induction false} Unserved(rs: seq<Record>, i: nat, part: Part) returns (offs: seq<nat>)
    requires i < |rs| && HasPart(rs[i], part) && !Skipped(rs[i]) && 0 < CodeOf(rs[i], part) < PTR_RANGE
    requires exists k :: 0 <= k < i && Skipped(rs[k])
    ensures |offs| == |Slots(rs)| && !Agree(rs, offs, i, part)
  {
    offs := OneOffset(|Slots(rs)|, WrittenBefore(rs, i) + PartAt(part));
    OtherIsFound(rs, offs, i, part);
    AgreeIffServed(rs, offs, i, part);
  }

  lemma {:induction false} OtherIsFound(rs: seq<Record>, offs: seq<nat>, i: nat, part: Part)
    requires i < |rs| && HasPart(rs[i], part) && exists k :: 0 <= k < i && Skipped(rs[k])
    requires WrittenBefore(rs, i) + PartAt(part) < |Slots(rs)|
    requires offs == OneOffset(|Slots(rs)|, WrittenBefore(rs, i) + PartAt(part))
    ensures FoundOffset(rs, offs, i, part) == 0 && OwnOffset(rs, offs, i, part) == 1
  {
    TakenIsWritten(rs, i);
  }

  /** A class that is known by its growth rule only, with further constructors, is such a
      case: the growth goes with the last constructor, so the first record is skipped. */
  lemma {:induction false} GrowOnlyWithConstructors(c: Class)
    requires c.main.size == 0 && c.grow.Some? && c.consts != []
    ensures Skipped(RecordsOf(c)[0])
  {}

  // ---------------------------------------------------------------------------
  // Both sides
  // ---------------------------------------------------------------------------

  function MoveCtor(c: Ctor, exeOffs: nat, find: string -> nat): Ctor
  {
    c.(code := Add(c.code, OffsetOf(NameOf(c.lib), exeOffs, find)))
  }

  function MoveCtors(cs: seq<Ctor>, exeOffs: nat, find: string -> nat): (r: seq<Ctor>)
    ensures |r| == |cs|
  {
    seq(|cs|, i requires 0 <= i < |cs| => MoveCtor(cs[i], exeOffs, find))
  }

  function MoveRule(g: Rule, exeOffs: nat, find: string -> nat): Rule
  {
    g.(code := Add(g.code, OffsetOf(NameOf(g.lib), exeOffs, find)))
  }

  /** What the trainer makes of a class. */
  function MoveClass(c: Class, exeOffs: nat, find: string -> nat): Class
  {
    Class(MoveCtor(c.main, exeOffs, find), MoveCtors(c.consts, exeOffs, find),
          match c.grow case None => None case Some(g) => Some(MoveRule(g, exeOffs, find)))
  }

  function MoveClasses(cs: seq<Class>, exeOffs: nat, find: string -> nat): (r: seq<Class>)
    ensures |r| == |cs|
  {
    seq(|cs|, i requires 0 <= i < |cs| => MoveClass(cs[i], exeOffs, find))
  }

  function MoveRecord(r: Record, exeOffs: nat, find: string -> nat): Record
  {
    Record(r.ess.(code := Add(r.ess.code, OffsetOf(r.ess.lib, exeOffs, find))),
           match r.grow case None => None case Some(g) => Some(g.(code := Add(g.code, OffsetOf(g.lib, exeOffs, find)))))
  }

  function MoveRecords(rs: seq<Record>, exeOffs: nat, find: string -> nat): (r: seq<Record>)
    ensures |r| == |rs|
  {
    seq(|rs|, i requires 0 <= i < |rs| => MoveRecord(rs[i], exeOffs, find))
  }

  lemma {:induction false} RecordsOfMoved(c: Class, exeOffs: nat, find: string -> nat)
    ensures RecordsOf(MoveClass(c, exeOffs, find)) == MoveRecords(RecordsOf(c), exeOffs, find)
  {
    var cs, ms := Ctors(c), Ctors(MoveClass(c, exeOffs, find));
    forall i | 0 <= i < |cs| ensures ms[i] == MoveCtor(cs[i], exeOffs, find) {}
  }

  lemma {:induction false} AllRecordsMoved(cs: seq<Class>, exeOffs: nat, find: string -> nat)
    ensures AllRecords(MoveClasses(cs, exeOffs, find)) == MoveRecords(AllRecords(cs), exeOffs, find)
  {
    if cs != [] {
      var n := |cs| - 1;
      AllRecordsMoved(cs[..n], exeOffs, find);
      RecordsOfMoved(cs[n], exeOffs, find);
      assert MoveClasses(cs, exeOffs, find)[..n] == MoveClasses(cs[..n], exeOffs, find);
    }
  }

  /** Where the addresses of record i stand. */
  lemma {:induction false} SlotAt(rs: seq<Record>, i: nat, part: Part)
    requires i < |rs| && HasPart(rs[i], part)
    ensures
      var own := Slots(rs)[WrittenBefore(rs, i) + PartAt(part)];
      own.code == CodeOf(rs[i], part) && own.lib == if part.Main? then rs[i].ess.lib else rs[i].grow.value.lib
  {
    if i > 0 { SlotAt(rs[1..], i - 1, part); }
  }

  /** The message of the trainer. */
  function OffsetsFor(cs: seq<Class>, exeOffs: nat, find: string -> nat): (r: seq<nat>)
    ensures |r| == |Slots(AllRecords(cs))|
  {
    SameOrder(cs);
    SlotOffsets(ClassesSlots(cs), exeOffs, find)
  }

  lemma {:induction false} TrainerCode(cs: seq<Class>, exeOffs: nat, find: string -> nat, i: nat, part: Part)
    requires i < |AllRecords(cs)| && HasPart(AllRecords(cs)[i], part)
    ensures
      var rs, moved := AllRecords(cs), AllRecords(MoveClasses(cs, exeOffs, find));
      && |moved| == |rs| && HasPart(moved[i], part)
      && CodeOf(moved[i], part) == Add(CodeOf(rs[i], part), OwnOffset(rs, OffsetsFor(cs, exeOffs, find), i, part))
  {
    SameOrder(cs);
    AllRecordsMoved(cs, exeOffs, find);
    SlotAt(AllRecords(cs), i, part);
  }

  lemma {:induction false} ReceivedIsTaken(rs: seq<Record>, s: string)
    ensures Received(rs, s) == TakeAll(rs, s)
  {
    if |rs| == 1 && Skipped(rs[0]) {
      assert rs[1..] == [];
      assert TakeAll(rs, s) == [rs[0]] + [];
    }
  }

  /** After the exchange, the game holds the trainer's code address if and only if the address
      was served.  With no record skipped up to here, every known one is; an address of 0, as the
      main one of a class that is known by its growth rule only, agrees exactly when its
      offset is 0. */
  lemma {:induction false} ExchangeAgrees(cs: seq<Class>, exeOffs: nat, find: string -> nat, i: nat, part: Part)
    requires i < |AllRecords(cs)| && HasPart(AllRecords(cs)[i], part) && CodeOf(AllRecords(cs)[i], part) < PTR_RANGE
    ensures
      var rs, offs := AllRecords(cs), OffsetsFor(cs, exeOffs, find);
      var game, trainer := Received(rs, OffsetsText(offs)), AllRecords(MoveClasses(cs, exeOffs, find));
      && |game| == |trainer| == |rs| && HasPart(game[i], part) && HasPart(trainer[i], part)
      && (CodeOf(game[i], part) == CodeOf(trainer[i], part) <==> Served(rs, offs, i, part))
      && ((forall k :: 0 <= k <= i ==> !Skipped(rs[k])) ==>
           (Served(rs, offs, i, part) <==> CodeOf(rs[i], part) != 0 || OwnOffset(rs, offs, i, part) % PTR_RANGE == 0))
  {
    var rs, offs := AllRecords(cs), OffsetsFor(cs, exeOffs, find);
    ReceivedIsTaken(rs, OffsetsText(offs));
    TrainerCode(cs, exeOffs, find, i, part);
    GameCode(rs, offs, i, part);
    AgreeIffServed(rs, offs, i, part);
    TakenIsWritten(rs, i);
  }

  /** A class known by its growth rule and one further constructor, both in a library. */
  function GrowingClass(): Class
  {
    var lib := Some(LibRef(1, "libgame.so"));
    Class(Ctor(0, 0, 0, None), [Ctor(8, 0x100, 0x28, lib)], Some(Rule(16, 4096, true, 2, 0x200, 0x48, lib)))
  }

  lemma {:induction false} GrowingRecords()
    ensures
      var c := GrowingClass();
      AllRecords([c]) == [Record(EssOf(c.main), None), Record(EssOf(c.consts[0]), Some(GrowOf(c.grow.value)))]
  {
    var c := GrowingClass();
    assert [c][..0] == [];
    assert AllRecords([c]) == AllRecords([]) + RecordsOf(c);
    assert Ctors(c) == [c.main, c.consts[0]];
  }

  /** Its constructor is moved with the offset of the binary in the game, and with the offset of
      its library in the trainer. */
  lemma {:induction false} ConstructorsDiffer(find: string -> nat)
    requires find("libgame.so") == 0x7fff0000
    ensures
      var cs, exeOffs := [GrowingClass()], 0x55550000;
      var rs, offs := AllRecords(cs), OffsetsFor(cs, exeOffs, find);
      var game, trainer := Received(rs, OffsetsText(offs)), AllRecords(MoveClasses(cs, exeOffs, find));
      && |game| == |trainer| == 2 && game != trainer
      && game[1].ess.code == 0x55550100 && trainer[1].ess.code == 0x7fff0100
  {
    var cs, exeOffs := [GrowingClass()], 0x55550000;
    var rs, offs := AllRecords(cs), OffsetsFor(cs, exeOffs, find);
    GrowingRecords();
    ReceivedIsTaken(rs, OffsetsText(offs));
    TakeAllAt(rs, offs, 1);
    assert TakenBefore(rs, 1) == 0;
    SlotAt(rs, 0, Main);
    assert offs[0] == exeOffs;
    AllRecordsMoved(cs, exeOffs, find);
  }

  /** Records but for their code addresses. */
  function Uncoded(r: Record): Record
  {
    Record(r.ess.(code := 0), match r.grow case None => None case Some(g) => Some(g.(code := 0)))
  }

  predicate AllServed(rs: seq<Record>, offs: seq<nat>)
    requires |offs| == |Slots(rs)|
  {
    forall i, part :: 0 <= i < |rs| && HasPart(rs[i], part) ==> Served(rs, offs, i, part)
  }

  predicate AllInRange(rs: seq<Record>)
  {
    forall i, part :: 0 <= i < |rs| && HasPart(rs[i], part) ==> CodeOf(rs[i], part) < PTR_RANGE
  }

  lemma {:induction false} OnlyCodesChange(cs: seq<Class>, exeOffs: nat, find: string -> nat, i: nat)
    requires i < |AllRecords(cs)|
    ensures
      var rs, moved := AllRecords(cs), AllRecords(MoveClasses(cs, exeOffs, find));
      var game := TakeAll(rs, OffsetsText(OffsetsFor(cs, exeOffs, find)));
      |moved| == |rs| && Uncoded(game[i]) == Uncoded(rs[i]) == Uncoded(moved[i])
  {
    AllRecordsMoved(cs, exeOffs, find);
    TakeAllAt(AllRecords(cs), OffsetsFor(cs, exeOffs, find), i);
  }

  lemma {:induction false} SameRecord(a: Record, b: Record)
    requires Uncoded(a) == Uncoded(b)
    ensures a == b <==> forall part :: HasPart(a, part) ==> CodeOf(a, part) == CodeOf(b, part)
  {
    assert HasPart(a, Main) && (a.grow.Some? ==> HasPart(a, Growth));
    if forall part :: HasPart(a, part) ==> CodeOf(a, part) == CodeOf(b, part) {
      assert CodeOf(a, Main) == CodeOf(b, Main);
      assert a.grow.Some? ==> CodeOf(a, Growth) == CodeOf(b, Growth);
    }
  }

  /** The configuration of the game is the trainer's, record by record, if and only if every
      address was served. */
  lemma {:induction false} WholeExchangeAgrees(cs: seq<Class>, exeOffs: nat, find: string -> nat)
    requires AllInRange(AllRecords(cs))
    ensures
      var offs := OffsetsFor(cs, exeOffs, find);
      Received(AllRecords(cs), OffsetsText(offs)) == AllRecords(MoveClasses(cs, exeOffs, find)) <==>
        AllServed(AllRecords(cs), offs)
  {
    var rs, offs := AllRecords(cs), OffsetsFor(cs, exeOffs, find);
    var game, trainer := Received(rs, OffsetsText(offs)), AllRecords(MoveClasses(cs, exeOffs, find));
    ReceivedIsTaken(rs, OffsetsText(offs));
    AllRecordsMoved(cs, exeOffs, find);
    forall i | 0 <= i < |rs|
      ensures game[i] == trainer[i] <==> forall part :: HasPart(rs[i], part) ==> Served(rs, offs, i, part)
    {
      RecordAgrees(cs, exeOffs, find, i);
    }
  }

  lemma {:induction false} RecordAgrees(cs: seq<Class>, exeOffs: nat, find: string -> nat, i: nat)
    requires AllInRange(AllRecords(cs)) && i < |AllRecords(cs)|
    ensures
      var rs, offs := AllRecords(cs), OffsetsFor(cs, exeOffs, find);
      var game, trainer := Received(rs, OffsetsText(offs)), AllRecords(MoveClasses(cs, exeOffs, find));
      && |game| == |trainer| == |rs|
      && (game[i] == trainer[i] <==> forall part :: HasPart(rs[i], part) ==> Served(rs, offs, i, part))
  {
    var rs, offs := AllRecords(cs), OffsetsFor(cs, exeOffs, find);
    var game, trainer := Received(rs, OffsetsText(offs)), AllRecords(MoveClasses(cs, exeOffs, find));
    ReceivedIsTaken(rs, OffsetsText(offs));
    OnlyCodesChange(cs, exeOffs, find, i);
    SameRecord(game[i], trainer[i]);
    forall part | HasPart(rs[i], part)
      ensures HasPart(game[i], part)
      ensures CodeOf(game[i], part) == CodeOf(trainer[i], part) <==> Served(rs, offs, i, part)
    {
      ExchangeAgrees(cs, exeOffs, find, i, part);
    }
  }

  // ---------------------------------------------------------------------------
  // Configurations as users write them
  // ---------------------------------------------------------------------------

  /** The address has been moved by where its library, or else the binary, was loaded. */
  ghost predicate MovedTo(code: nat, lib: Option<string>, exeOffs: nat, find: string -> nat, code': nat)
  {
    var start := if lib.Some? && lib.value != "" then find(lib.value) else exeOffs;
    code' == (code + start) % PTR_RANGE
  }

  /** Both code addresses of the record have been moved, and nothing else has changed. */
  ghost predicate RecordMoved(r: Record, exeOffs: nat, find: string -> nat, r': Record)
  {
    && MovedTo(r.ess.code, r.ess.lib, exeOffs, find, r'.ess.code)
    && r'.ess.size == r.ess.size && r'.ess.stack == r.ess.stack && r'.ess.lib == r.ess.lib
    && match r.grow
       case None => r'.grow.None?
       case Some(g) =>
         && r'.grow.Some? && MovedTo(g.code, g.lib, exeOffs, find, r'.grow.value.code)
         && r'.grow.value == g.(code := r'.grow.value.code)
  }

  /** The code addresses of the record are known, and objects are recognised by their size. */
  ghost predicate Ordinary(r: Record)
  {
    r.ess.size != 0 && 0 < r.ess.code < PTR_RANGE && (r.grow.Some? ==> 0 < r.grow.value.code < PTR_RANGE)
  }

  lemma {:induction false} TrainerMoves(cs: seq<Class>, exeOffs: nat, find: string -> nat, i: nat)
    requires i < |AllRecords(cs)|
    ensures
      var rs, trainer := AllRecords(cs), AllRecords(MoveClasses(cs, exeOffs, find));
      |trainer| == |rs| && RecordMoved(rs[i], exeOffs, find, trainer[i])
  {
    AllRecordsMoved(cs, exeOffs, find);
  }

  lemma {:induction false} OrdinaryAreServed(rs: seq<Record>, offs: seq<nat>)
    requires |offs| == |Slots(rs)| && forall i :: 0 <= i < |rs| ==> Ordinary(rs[i])
    ensures AllInRange(rs) && AllServed(rs, offs)
  {
    forall i, part | 0 <= i < |rs| && HasPart(rs[i], part)
      ensures CodeOf(rs[i], part) < PTR_RANGE && Served(rs, offs, i, part)
    {
      TakenIsWritten(rs, i);
      assert forall k :: 0 <= k <= i ==> Ordinary(rs[k]);
    }
  }

  /** When all constructors have a size and all code addresses are known, game and trainer end
      up with the same configuration: every code address moved to where it was loaded. */
  lemma {:induction false} OrdinaryExchange(cs: seq<Class>, exeOffs: nat, find: string -> nat)
    requires forall i :: 0 <= i < |AllRecords(cs)| ==> Ordinary(AllRecords(cs)[i])
    ensures
      var rs, offs := AllRecords(cs), OffsetsFor(cs, exeOffs, find);
      var game := Received(rs, OffsetsText(offs));
      && game == AllRecords(MoveClasses(cs, exeOffs, find)) && |game| == |rs|
      && forall i :: 0 <= i < |rs| ==> RecordMoved(rs[i], exeOffs, find, game[i])
  {
    var rs, offs := AllRecords(cs), OffsetsFor(cs, exeOffs, find);
    OrdinaryAreServed(rs, offs);
    WholeExchangeAgrees(cs, exeOffs, find);
    AllRecordsMoved(cs, exeOffs, find);
    forall i | 0 <= i < |rs| ensures RecordMoved(rs[i], exeOffs, find, Received(rs, OffsetsText(offs))[i]) {
      TrainerMoves(cs, exeOffs, find, i);
    }
  }

  /** The same for the classes: all constructors with a size and a known code address. */
  ghost predicate OrdinaryClass(c: Class)
  {
    && c.main.size != 0 && 0 < c.main.code < PTR_RANGE
    && (forall i :: 0 <= i < |c.consts| ==> c.consts[i].size != 0 && 0 < c.consts[i].code < PTR_RANGE)
    && (c.grow.Some? ==> 0 < c.grow.value.code < PTR_RANGE)
  }

  lemma {:induction false} OrdinaryRecords(cs: seq<Class>)
    requires forall k :: 0 <= k < |cs| ==> OrdinaryClass(cs[k])
    ensures forall i :: 0 <= i < |AllRecords(cs)| ==> Ordinary(AllRecords(cs)[i])
  {
    if cs != [] {
      var n := |cs| - 1;
      OrdinaryRecords(cs[..n]);
      var c := cs[n];
      forall i | 0 <= i < |RecordsOf(c)| ensures Ordinary(RecordsOf(c)[i]) {
        if i > 0 { assert Ctors(c)[i] == c.consts[i-1]; }
      }
    }
  }

  lemma {:induction false} OrdinaryClassesAgree(cs: seq<Class>, exeOffs: nat, find: string -> nat)
    requires forall k :: 0 <= k < |cs| ==> OrdinaryClass(cs[k])
    ensures
      var game := Received(AllRecords(cs), OffsetsText(OffsetsFor(cs, exeOffs, find)));
      && game == AllRecords(MoveClasses(cs, exeOffs, find)) && |game| == |AllRecords(cs)|
      && forall i :: 0 <= i < |game| ==> RecordMoved(AllRecords(cs)[i], exeOffs, find, game[i])
  {
    OrdinaryRecords(cs);
    OrdinaryExchange(cs, exeOffs, find);
  }

  /** A known address is moved by the offset, an unknown one stays. */
  ghost predicate CodeMoved(code: nat, o: nat, code': nat)
  {
    code' == if code == 0 then 0 else (code + o) % PTR_RANGE
  }

  /** A record without size and growth keeps its code address, and leaves the text to those
      behind it. */
  lemma {:induction false} SkippedRecord(r: Record, rs: seq<Record>, text: string)
    requires r.ess.size == 0 && r.grow.None?
    ensures TakeAll([r] + rs, text) == [r] + TakeAll(rs, text)
  {
    assert ([r] + rs)[1..] == rs;
  }

  /** One with a size takes an offset for its code address. */
  lemma {:induction false} SizedRecord(r: Record, rs: seq<Record>, o: nat, text: string)
    requires r.ess.size != 0 && r.grow.None?
    ensures
      var game := TakeAll([r] + rs, PrintPtr(o) + ";" + text);
      && game[1..] == TakeAll(rs, text)
      && game[0] == r.(ess := r.ess.(code := game[0].ess.code)) && CodeMoved(r.ess.code, o, game[0].ess.code)
  {
    assert ([r] + rs)[1..] == rs;
    PtrField(o, text);
  }

  /** And one with growth takes another one for growth. */
  lemma {:induction false} GrowingRecord(r: Record, rs: seq<Record>, o: nat, g: nat, text: string)
    requires r.grow.Some?
    ensures
      var game := TakeAll([r] + rs, PrintPtr(o) + ";" + (PrintPtr(g) + ";" + text));
      && game[1..] == TakeAll(rs, text) && game[0].grow.Some?
      && game[0].ess == r.ess.(code := game[0].ess.code) && CodeMoved(r.ess.code, o, game[0].ess.code)
      && game[0].grow.value == r.grow.value.(code := game[0].grow.value.code)
      && CodeMoved(r.grow.value.code, g, game[0].grow.value.code)
  {
    assert ([r] + rs)[1..] == rs;
    PtrField(o, PrintPtr(g) + ";" + text);
    PtrField(g, text);
  }

  // ---------------------------------------------------------------------------
  // The loops
  // ---------------------------------------------------------------------------

  lemma {:induction false} OffsetsConcat(a: seq<nat>, b: seq<nat>)
    ensures OffsetsText(a + b) == OffsetsText(a) + OffsetsText(b)
  {
    if b == [] {
      assert a + b == a && OffsetsText(b) == "";
    } else {
      var n := |b| - 1;
      assert b == b[..n] + [b[n]] && a + b == (a + b[..n]) + [b[n]];
      OffsetsConcat(a, b[..n]);
      OffsetsAppend(a + b[..n], b[n]);
      OffsetsAppend(b[..n], b[n]);
      Group(OffsetsText(a), OffsetsText(b[..n]), PrintPtr(b[n]) + ";");
    }
  }

  class DynMemEntry {
    var c: Class

    constructor (c: Class)
      ensures this.c == c
    {
      this.c := c;
    }

    /** HANDLE_DYNMEM_ESSENTIALS for each constructor, and the same for the growth rule. */
    method HandleClass(obuf: string, exeOffs: nat, find: string -> nat) returns (r: string)
      modifies this
      ensures c == MoveClass(old(c), exeOffs, find)
      ensures r == obuf + OffsetsText(SlotOffsets(ClassSlots(old(c)), exeOffs, find))
    {
      ghost var slots, was := ClassSlots(c), c;
      var offs := OffsetOf(NameOf(c.main.lib), exeOffs, find);
      r := obuf + (PrintPtr(offs) + ";");
      var main := c.main.(code := Add(c.main.code, offs));
      NextOffset(obuf, slots, 0, exeOffs, find);
      var consts := c.consts;
      for i := 0 to |consts|
        invariant |consts| == |was.consts| && c == was
        invariant forall k :: 0 <= k < i ==> consts[k] == MoveCtor(was.consts[k], exeOffs, find)
        invariant forall k :: i <= k < |consts| ==> consts[k] == was.consts[k]
        invariant r == Sent(obuf, slots, i + 1, exeOffs, find)
      {
        offs := OffsetOf(NameOf(consts[i].lib), exeOffs, find);
        NextOffset(obuf, slots, i + 1, exeOffs, find);
        assert slots[i+1] == CtorSlot(was.consts[i]);
        r := r + (PrintPtr(offs) + ";");
        consts := consts[i := consts[i].(code := Add(consts[i].code, offs))];
      }
      var grow := c.grow;
      if grow.Some? {
        offs := OffsetOf(NameOf(grow.value.lib), exeOffs, find);
        NextOffset(obuf, slots, |slots| - 1, exeOffs, find);
        r := r + (PrintPtr(offs) + ";");
        grow := Some(grow.value.(code := Add(grow.value.code, offs)));
      }
      assert consts == MoveCtors(was.consts, exeOffs, find);
      c := Class(main, consts, grow);
      assert slots[..|slots|] == slots;
    }
  }

  /** The buffer behind the offsets of the first n addresses. */
  function Sent(obuf: string, slots: seq<Slot>, n: nat, exeOffs: nat, find: string -> nat): string
    requires n <= |slots|
  {
    obuf + OffsetsText(SlotOffsets(slots[..n], exeOffs, find))
  }

  lemma {:induction false} NextOffset(obuf: string, slots: seq<Slot>, n: nat, exeOffs: nat, find: string -> nat)
    requires n < |slots|
    ensures Sent(obuf, slots, n + 1, exeOffs, find) ==
      Sent(obuf, slots, n, exeOffs, find) + (PrintPtr(OffsetOf(slots[n].lib, exeOffs, find)) + ";")
    ensures Sent(obuf, slots, 0, exeOffs, find) == obuf
  {
    var offs := SlotOffsets(slots[..n], exeOffs, find);
    assert SlotOffsets(slots[..n+1], exeOffs, find) == offs + [OffsetOf(slots[n].lib, exeOffs, find)];
    OffsetsAppend(offs, OffsetOf(slots[n].lib, exeOffs, find));
    Group(obuf, OffsetsText(offs), PrintPtr(OffsetOf(slots[n].lib, exeOffs, find)) + ";");
    assert SlotOffsets(slots[..0], exeOffs, find) == [];
    assert obuf + "" == obuf;
  }

  /** The objects of the configured values, each once per run of values. */
  function ObjectsOf(entries: seq<DynMemEntry?>): seq<DynMemEntry>
  {
    if entries == [] then []
    else
      var os, e := ObjectsOf(entries[..|entries|-1]), entries[|entries|-1];
      if e == null || (os != [] && os[|os|-1] == e) then os else os + [e]
  }

  ghost function ClassesNow(os: seq<DynMemEntry>): (r: seq<Class>)
    reads os
    ensures |r| == |os| && forall i :: 0 <= i < |os| ==> r[i] == os[i].c
  {
    if os == [] then [] else ClassesNow(os[..|os|-1]) + [os[|os|-1].c]
  }

  predicate Distinct(os: seq<DynMemEntry>)
  {
    forall i, j :: 0 <= i < j < |os| ==> os[i] != os[j]
  }

  /** The values of one class follow each other. */
  predicate Grouped(entries: seq<DynMemEntry?>)
  {
    Distinct(ObjectsOf(entries))
  }

  lemma {:induction false} ObjectsPrefix(entries: seq<DynMemEntry?>, n: nat)
    requires n <= |entries|
    ensures ObjectsOf(entries[..n]) <= ObjectsOf(entries)
  {
    if n < |entries| {
      ObjectsPrefix(entries[..|entries|-1], n);
      assert entries[..|entries|-1][..n] == entries[..n];
    } else {
      assert entries[..n] == entries;
    }
  }

  /** A value of another class than the one before brings a new object. */
  lemma {:induction false} NextObject(entries: seq<DynMemEntry?>, n: nat, old_: DynMemEntry?)
    requires Grouped(entries) && n < |entries|
    requires var os := ObjectsOf(entries[..n]); old_ == if os == [] then null else os[|os|-1]
    ensures var os, o := ObjectsOf(entries[..n]), entries[n];
      ObjectsOf(entries[..n+1]) == (if o == null || o == old_ then os else os + [o])
    ensures entries[n] != null && entries[n] != old_ ==>
      entries[n] !in ObjectsOf(entries[..n]) && entries[n] in ObjectsOf(entries)
  {
    assert entries[..n+1][..n] == entries[..n];
    ObjectsPrefix(entries, n + 1);
    var os := ObjectsOf(entries[..n]);
    if entries[n] != null && entries[n] != old_ {
      assert ObjectsOf(entries)[|os|] == entries[n];
      forall i | 0 <= i < |os| ensures os[i] != entries[n] { assert ObjectsOf(entries)[i] == os[i]; }
    }
  }

  lemma {:induction false} ClassesSlotsAppend(cs: seq<Class>, c: Class, exeOffs: nat, find: string -> nat)
    ensures ClassesSlots(cs + [c]) == ClassesSlots(cs) + ClassSlots(c)
    ensures OffsetsText(SlotOffsets(ClassesSlots(cs + [c]), exeOffs, find)) ==
      OffsetsText(SlotOffsets(ClassesSlots(cs), exeOffs, find)) + OffsetsText(SlotOffsets(ClassSlots(c), exeOffs, find))
  {
    assert (cs + [c])[..|cs|] == cs;
    assert SlotOffsets(ClassesSlots(cs) + ClassSlots(c), exeOffs, find) ==
      SlotOffsets(ClassesSlots(cs), exeOffs, find) + SlotOffsets(ClassSlots(c), exeOffs, find);
    OffsetsConcat(SlotOffsets(ClassesSlots(cs), exeOffs, find), SlotOffsets(ClassSlots(c), exeOffs, find));
  }

  /** The part of handle_aslr() for the hooking library: every class is moved once, and the
      message holds one offset per code address. */
  method HandleAslr(entries: seq<DynMemEntry?>, exeOffs: nat, find: string -> nat) returns (obuf: string)
    requires Grouped(entries)
    modifies ObjectsOf(entries)
    ensures ClassesNow(ObjectsOf(entries)) == MoveClasses(old(ClassesNow(ObjectsOf(entries))), exeOffs, find)
    ensures obuf == OffsetsText(SlotOffsets(ClassesSlots(old(ClassesNow(ObjectsOf(entries)))), exeOffs, find))
  {
    ghost var all := ObjectsOf(entries);
    ghost var was := ClassesNow(all);
    ghost var n := 0;      // objects done
    obuf := "";
    var oldDynmem: DynMemEntry? := null;
    NothingSent(was, exeOffs, find);
    for i := 0 to |entries|
      invariant |all| == |was| && At(entries, i, all, n, oldDynmem)
      invariant MovedUpTo(all, was, n, exeOffs, find)
      invariant obuf == SentFor(was, n, exeOffs, find)
    {
      var dynmem := entries[i];
      ObjectStep(entries, i, all, n, oldDynmem);
      if dynmem == null || dynmem == oldDynmem { continue; }
      oldDynmem := dynmem;
      obuf := HandleNext(dynmem, obuf, exeOffs, find, all, was, n);
      n := n + 1;
    }
    assert entries[..|entries|] == entries && was[..|was|] == was;
    AllMoved(all, was, exeOffs, find);
  }

  /** n objects belong to the first i values; old_ is the last of them. */
  ghost predicate At(entries: seq<DynMemEntry?>, i: nat, all: seq<DynMemEntry>, n: nat, old_: DynMemEntry?)
    requires i <= |entries|
  {
    n <= |all| && ObjectsOf(entries[..i]) == all[..n] && old_ == if n == 0 then null else all[n-1]
  }

  lemma {:induction false} ObjectStep(entries: seq<DynMemEntry?>, i: nat, all: seq<DynMemEntry>, n: nat,
        old_: DynMemEntry?)
    requires Grouped(entries) && i < |entries| && all == ObjectsOf(entries) && At(entries, i, all, n, old_)
    ensures var o := entries[i];
      if o == null || o == old_ then At(entries, i + 1, all, n, old_)
      else n < |all| && all[n] == o && At(entries, i + 1, all, n + 1, o)
  {
    NextObject(entries, i, old_);
    ObjectsPrefix(entries, i + 1);
    if entries[i] != null && entries[i] != old_ { assert all[..n+1] == all[..n] + [entries[i]]; }
  }

  lemma {:induction false} NothingSent(was: seq<Class>, exeOffs: nat, find: string -> nat)
    ensures SentFor(was, 0, exeOffs, find) == ""
  {
    assert SlotOffsets(ClassesSlots(was[..0]), exeOffs, find) == [];
  }

  lemma {:induction false} AllMoved(all: seq<DynMemEntry>, was: seq<Class>, exeOffs: nat, find: string -> nat)
    requires |all| == |was| && MovedUpTo(all, was, |all|, exeOffs, find)
    ensures ClassesNow(all) == MoveClasses(was, exeOffs, find)
  {}

  /** The first n objects are moved, the others are as they were. */
  ghost predicate MovedUpTo(all: seq<DynMemEntry>, was: seq<Class>, n: nat, exeOffs: nat, find: string -> nat)
    requires |all| == |was|
    reads all
  {
    forall k :: 0 <= k < |all| ==> all[k].c == if k < n then MoveClass(was[k], exeOffs, find) else was[k]
  }

  /** The message behind the offsets of the first n classes. */
  function SentFor(was: seq<Class>, n: nat, exeOffs: nat, find: string -> nat): string
    requires n <= |was|
  {
    OffsetsText(SlotOffsets(ClassesSlots(was[..n]), exeOffs, find))
  }

  method HandleNext(dynmem: DynMemEntry, obuf: string, exeOffs: nat,
        find: string -> nat, ghost all: seq<DynMemEntry>, ghost was: seq<Class>, ghost n: nat)
    returns (r: string)
    requires Distinct(all) && |was| == |all| && n < |all| && all[n] == dynmem
    requires MovedUpTo(all, was, n, exeOffs, find) && obuf == SentFor(was, n, exeOffs, find)
    modifies dynmem
    ensures MovedUpTo(all, was, n + 1, exeOffs, find) && r == SentFor(was, n + 1, exeOffs, find)
  {
    assert was[..n+1] == was[..n] + [was[n]];
    ClassesSlotsAppend(was[..n], was[n], exeOffs, find);
    r := dynmem.HandleClass(obuf, exeOffs, find);
    forall k | 0 <= k < |all| && k != n ensures all[k].c == old(all[k].c) { assert all[k] != dynmem; }
  }

  lemma {:induction false} TakeAllNext(rs: seq<Record>, s: string, r: Record, rest: string)
    requires rs != [] && TakeOne(rs[0], s) == (r, rest)
    ensures TakeAll(rs, s) == [r] + TakeAll(rs[1..], rest)
  {}

  lemma {:induction false} JoinOne(done: seq<Record>, r: Record, rest: seq<Record>)
    ensures (done + [r]) + rest == done + ([r] + rest)
  {}

  /** The offsets part of memhack_init(): code addresses are updated in the configuration
      array, a cursor moves over the message. */
  method ReadOffsets(config: array<Record>, ibuf: string)
    modifies config
    ensures config[..] == Received(old(config[..]), ibuf)
  {
    ghost var rs := config[..];
    if config.Length == 1 && config[0].ess.size == 0 && config[0].grow.None? { return; }
    var start := ibuf;
    for i := 0 to config.Length
      invariant config[i..] == rs[i..] && config[..i] + TakeAll(rs[i..], start) == TakeAll(rs, ibuf)
    {
      ghost var done, left, was := config[..i], rs[i..], start;
      assert config[i] == left[0] && left[1..] == rs[i+1..];
      start := ReadOne(config, i, start);
      TakeAllNext(left, was, config[i], start);
      assert config[..i+1] == done + [config[i]];
      JoinOne(done, config[i], TakeAll(left[1..], start));
    }
    assert config[..config.Length] + [] == config[..];
  }

  method ReadOne(config: array<Record>, i: nat, start: string) returns (rest: string)
    requires i < config.Length
    modifies config
    ensures config[..i] == old(config[..i]) && config[i+1..] == old(config[i+1..])
    ensures (config[i], rest) == TakeOne(old(config[i]), start)
  {
    rest := start;
    var r := config[i];
    if r.ess.size == 0 && r.grow.None? { return; }
    var codeOffs: nat;
    codeOffs, rest := ReadOffset(rest);
    if r.ess.code != 0 { r := r.(ess := r.ess.(code := Add(r.ess.code, codeOffs))); }
    if r.grow.Some? {
      var g := r.grow.value;
      codeOffs, rest := ReadOffset(rest);
      if g.code != 0 { g := g.(code := Add(g.code, codeOffs)); }
      r := r.(grow := Some(g));
    }
    config[i] := r;
  }

  /** sscanf() and the move behind the next semicolon; nothing moves when there is no number. */
  method ReadOffset(start: string) returns (codeOffs: nat, rest: string)
    ensures Taken(codeOffs, rest) == Take(start)
  {
    codeOffs, rest := 0, start;
    var scanned := ScanPtr(start);
    if scanned.Some? {
      codeOffs := scanned.value.value;
      rest := Rest(start);
    }
  }
}
