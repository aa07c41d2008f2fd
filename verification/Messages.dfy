/** Text of the messages between the hooks and the trainer: written in
    src/linuxhooking/libmemhack.c, parsed in src/fifoparser.cpp with sizes and code addresses
    switched on. */
module Messages {
  import opened Common
  import opened FifoText
  import opened Numbers
  import MallocQueue

  datatype Message = Malloc(addr: nat, size: nat, code: nat) | Free(addr: nat)

  /** One line, without its newline. */
  function Encode(m: Message): seq<char>
  {
    match m
    case Malloc(addr, size, code) => "m" + PrintPtr(addr) + ";s" + Print(size, 10) + ";c" + PrintPtr(code)
    case Free(addr) => "f" + PrintPtr(addr)
  }

  /** Skips to the field behind the next ';' and checks its letter. */
  function Field(s: seq<char>, letter: char): Option<seq<char>>
  {
    var i := IndexOf(s, ';');
    if i + 1 < |s| && s[i+1] == letter then Some(s[i+2..]) else None
  }

  function Decode(line: seq<char>): Option<Message>
  {
    if line == [] then None
    else if line[0] == 'f' then
      match ScanPtr(line[1..])
      case None => None
      case Some(a) => Some(Free(a.value))
    else if line[0] == 'm' then
      match ScanPtr(line[1..])
      case None => None
      case Some(a) =>
        match Field(line[1..], 's')
        case None => None
        case Some(s) =>
          match Scan(s, 10)
          case None => None
          case Some(n) =>
            match Field(s, 'c')
            case None => None
            case Some(c) =>
              match ScanPtr(c)
              case None => None
              case Some(code) => Some(Malloc(a.value, n.value, code.value))
    else None
  }

  predicate Plain(s: seq<char>)
  {
    forall i :: 0 <= i < |s| ==> s[i] != ';' && s[i] != NL && s[i] != NUL
  }

  lemma {:induction false} PrintedIsPlain(n: nat, base: Base)
    ensures Plain(Print(n, base))
  {
    PrintDigits(n, base);
    assert forall i :: 0 <= i < |Print(n, base)| ==> IsDigit(Print(n, base)[i], base);
  }

  lemma {:induction false} PrintedPtrIsPlain(p: nat)
    ensures Plain(PrintPtr(p))
  {
    PrintedIsPlain(p, 16);
  }

  lemma {:induction false} IndexBehindPlain(s: seq<char>, rest: seq<char>)
    requires Plain(s) && rest != [] && rest[0] == ';'
    ensures IndexOf(s + rest, ';') == |s|
    decreases |s|
  {
    if s == [] {
      assert s + rest == rest;
    } else {
      assert (s + rest)[1..] == s[1..] + rest;
      IndexBehindPlain(s[1..], rest);
    }
  }

  /** The field behind a plain one. */
  lemma {:induction false} NextField(s: seq<char>, letter: char, rest: seq<char>)
    requires Plain(s)
    ensures Field(s + ([';', letter] + rest), letter) == Some(rest)
  {
    var t := [';', letter] + rest;
    IndexBehindPlain(s, t);
    assert (s + t)[|s|+1] == t[1];
    assert (s + t)[|s|+2..] == rest;
  }

  lemma {:induction false} SizeField(addr: nat, s: seq<char>)
    ensures ScanPtr(PrintPtr(addr) + ([';', 's'] + s)).Some? &&
      ScanPtr(PrintPtr(addr) + ([';', 's'] + s)).value.value == addr
    ensures Field(PrintPtr(addr) + ([';', 's'] + s), 's') == Some(s)
  {
    ScanPrintedPtr(addr, [';', 's'] + s);
    PrintedPtrIsPlain(addr);
    NextField(PrintPtr(addr), 's', s);
  }

  lemma {:induction false} CodeField(size: nat, c: seq<char>)
    ensures Scan(Print(size, 10) + ([';', 'c'] + c), 10).Some? &&
      Scan(Print(size, 10) + ([';', 'c'] + c), 10).value.value == size
    ensures Field(Print(size, 10) + ([';', 'c'] + c), 'c') == Some(c)
  {
    ScanPrinted(size, 10, [';', 'c'] + c);
    PrintedIsPlain(size, 10);
    NextField(Print(size, 10), 'c', c);
  }

  lemma {:induction false} DecodeMalloc(line: seq<char>, m: Message, s: seq<char>, c: seq<char>)
    requires m.Malloc? && line != [] && line[0] == 'm'
    requires ScanPtr(line[1..]).Some? && ScanPtr(line[1..]).value.value == m.addr && Field(line[1..], 's') == Some(s)
    requires Scan(s, 10).Some? && Scan(s, 10).value.value == m.size && Field(s, 'c') == Some(c)
    requires ScanPtr(c).Some? && ScanPtr(c).value.value == m.code
    ensures Decode(line) == Some(m)
  {}

  lemma {:induction false} DecodeFree(addr: nat)
    ensures Decode(Encode(Free(addr))) == Some(Free(addr))
  {
    assert Encode(Free(addr))[1..] == PrintPtr(addr) + [];
    ScanPrintedPtr(addr, []);
  }

  /** Decoding a message line yields the message. */
  lemma {:induction false} DecodeEncode(m: Message)
    ensures Decode(Encode(m)) == Some(m)
  {
    match m
    case Free(addr) => DecodeFree(addr);
    case Malloc(addr, size, code) =>
      var c := PrintPtr(code);
      var s := Print(size, 10) + ([';', 'c'] + c);
      MallocText(addr, size, code);
      SizeField(addr, s);
      CodeField(size, c);
      assert c + [] == c;
      ScanPrintedPtr(code, []);
      DecodeMalloc(Encode(m), m, s, c);
  }

  lemma {:induction false} MallocText(addr: nat, size: nat, code: nat)
    ensures Encode(Malloc(addr, size, code))[1..] ==
      PrintPtr(addr) + ([';', 's'] + (Print(size, 10) + ([';', 'c'] + PrintPtr(code))))
  {}

  /** A malloc line can be queued, and the queue finds it by its address alone. */
  lemma {:induction false} MallocLineIsQueueable(addr: nat, size: nat, code: nat)
    ensures var l := Encode(Malloc(addr, size, code));
      MallocQueue.WellFormed(l) && forall a :: MallocQueue.HasAddr(l, a) <==> a == addr
  {
    var l := Encode(Malloc(addr, size, code));
    var rest := ";s" + Print(size, 10) + ";c" + PrintPtr(code);
    assert l[1..] == PrintPtr(addr) + rest;
    ScanPrintedPtr(addr, rest);
    EncodeIsLine(Malloc(addr, size, code));
  }

  lemma {:induction false} EncodeIsLine(m: Message)
    ensures NL !in Encode(m) && NUL !in Encode(m)
  {
    PrintedPtrIsPlain(m.addr);
    if m.Malloc? {
      PrintedIsPlain(m.size, 10);
      PrintedPtrIsPlain(m.code);
    }
  }

  function EncodeAll(ms: seq<Message>): (ls: seq<seq<char>>)
    ensures |ls| == |ms| && forall i :: 0 <= i < |ms| ==> ls[i] == Encode(ms[i])
  {
    seq(|ms|, i requires 0 <= i < |ms| => Encode(ms[i]))
  }

  /** The lines of a stream of messages decode to exactly the messages, in order. */
  lemma {:induction false} StreamDecodes(ms: seq<Message>)
    ensures var ls := Lines(Unlines(EncodeAll(ms)));
      && |ls| == |ms| && Tail(Unlines(EncodeAll(ms))) == []
      && forall i :: 0 <= i < |ms| ==> Decode(ls[i]) == Some(ms[i])
  {
    var ls := EncodeAll(ms);
    forall i | 0 <= i < |ms| ensures NL !in ls[i] && Decode(ls[i]) == Some(ms[i]) {
      EncodeIsLine(ms[i]);
      DecodeEncode(ms[i]);
    }
    LinesOfUnlines(ls);
  }

  /** The text of two messages, character by character. */
  lemma {:induction false} SampleMessages()
    ensures Encode(Malloc(0x7f5, 24, 0x4f)) == "m0x7f5;s24;c0x4f" && Encode(Free(0x7f5)) == "f0x7f5"
  {
    assert Print(0x7f5, 16) == "7f5" && Print(24, 10) == "24" && Print(0x4f, 16) == "4f";
  }
}
