/** The stream parser reading a file backwards (src/fifoparser.cpp, reverse mode). */
module ReverseReader {
  import opened FifoText
  import opened FifoParser

  // ---------------------------------------------------------------------------
  // Text
  // ---------------------------------------------------------------------------

  predicate Terminated(s: seq<char>) { s == [] || s[|s|-1] == NL }

  /** All lines but the first, last one first: what a backward pass hands over. */
  function LaterReversed(s: seq<char>): seq<seq<char>>
  {
    var ls := Lines(s);
    if ls == [] then [] else Reverse(ls[1..])
  }

  /** The first line with its newline: what a backward pass keeps. */
  function FirstKept(s: seq<char>): seq<char>
  {
    var ls := Lines(s);
    if ls == [] then [] else ls[0] + [NL]
  }

  lemma {:induction false} ReverseAppend<T>(a: seq<T>, b: seq<T>)
    ensures Reverse(a + b) == Reverse(b) + Reverse(a)
  {}

  /** The first line of a terminated text, and the text behind it. */
  lemma {:induction false} SplitFirst(s: seq<char>)
    requires Terminated(s) && s != []
    ensures var i := FirstNl(s);
      && i < |s| && Terminated(s[i+1..])
      && Lines(s) == [s[..i]] + Lines(s[i+1..]) && FirstKept(s) == s[..i+1]
  {
    var i := FirstNl(s);
    assert s[..i] + [NL] == s[..i+1];
  }

  /** Handing over the last line of two or more. */
  lemma {:induction false} LastHandedOver(s: seq<char>, l: seq<char>)
    requires NL !in l && Terminated(s) && s != []
    ensures LaterReversed(s + l + [NL]) == [l] + LaterReversed(s) && FirstKept(s + l + [NL]) == FirstKept(s)
  {
    LastLine(s, l);
    NoTail(s);
    var ls := Lines(s);
    assert (ls + [l])[1..] == ls[1..] + [l];
    ReverseAppend(ls[1..], [l]);
  }

  /** Text behind a terminated one: its lines are handed over first. */
  lemma {:induction false} TextBehind(c: seq<char>, rest: seq<char>)
    requires Terminated(c) && c != []
    ensures FirstKept(c + rest) == FirstKept(c)
    ensures LaterReversed(c + rest) == Reverse(Lines(rest)) + LaterReversed(c)
  {
    NoTail(c);
    LinesAppend(c, rest);
    assert [] + rest == rest;
    var m, r := Lines(c), Lines(rest);
    assert (m + r)[1..] == m[1..] + r;
    ReverseAppend(m[1..], r);
  }

  /** A block put in front of a text: only the lines that become complete with the block are
      new. */
  lemma {:induction false} BlockInFront(b: seq<char>, s: seq<char>)
    requires Terminated(s) && (s == [] ==> Terminated(b))
    ensures var c := b + FirstKept(s);
      && Terminated(c) && FirstKept(b + s) == FirstKept(c)
      && LaterReversed(b + s) == LaterReversed(s) + LaterReversed(c)
  {
    if s == [] {
      assert b + s == b && b + FirstKept(s) == b;
    } else {
      var i := FirstNl(s);
      SplitFirst(s);
      assert s[..i+1] + s[i+1..] == s;
      Assoc(b, s[..i+1], s[i+1..]);
      TextBehind(b + s[..i+1], s[i+1..]);
      assert Lines(s)[1..] == Lines(s[i+1..]);
    }
  }

  // ---------------------------------------------------------------------------
  // The parser
  // ---------------------------------------------------------------------------

  const FST := -2  // REVERSE_FST
  const EOF := -3  // REVERSE_EOF

  class Reader {
    const ibuf: array<char>
    var ilen: nat
    var fdOffs: int
    var calls: seq<seq<char>>
    var sawStackEnd: bool         // the first byte of the file announced the stack end
    ghost var content: seq<char>

    ghost predicate Valid()
      reads this`ilen, this`content, ibuf
    {
      Shows(ibuf[..], content) && ilen == |content| && Terminated(content)
    }

    constructor (size: nat)
      requires size >= 1
      ensures Valid() && fresh(ibuf) && ibuf.Length == size
      ensures content == [] && calls == [] && fdOffs == FST
    {
      ibuf := new char[size](_ => NUL);
      ilen, fdOffs, calls, sawStackEnd, content := 0, FST, [], false, [];
    }

    /** strrchr(ibuf, '\n'): the last newline before the terminating zero, or -1. */
    method StrRChr(ghost text: seq<char>) returns (pos: int)
      requires Shows(ibuf[..], text)
      ensures pos == PastLastNl(text) - 1
    {
      var i := 0;
      pos := -1;
      while ibuf[i] != NUL
        invariant 0 <= i <= |text| && pos == PastLastNl(text[..i]) - 1
        decreases |text| - i
      {
        assert text[i] == ibuf[..][i];
        assert text[..i+1] == text[..i] + [text[i]];
        if ibuf[i] == NL { pos := i; }
        i := i + 1;
      }
      assert text[..i] == text;
    }

    /** One round of parse_dynmem_buf() backwards: hands over the last line, if the line
        before it is known to end, and zeroes it. */
    method TakeLast() returns (taken: bool)
      requires Valid()
      modifies this`ilen, this`content, this`calls, ibuf
      ensures Valid()
      ensures calls + LaterReversed(content) == old(calls) + LaterReversed(old(content))
      ensures FirstKept(content) == FirstKept(old(content))
      ensures if taken then |content| < |old(content)|
        else content == FirstKept(content) && LaterReversed(content) == []
    {
      var msgEnd := StrRChr(content);
      if msgEnd < 0 { return false; }
      ibuf[msgEnd] := NUL;
      ghost var text := content[..msgEnd];
      assert Shows(ibuf[..], text);
      var msgStart := StrRChr(text);
      if msgStart < 0 {
        ibuf[msgEnd] := NL;
        OneLine(text);
        assert content == text + [NL];
        return false;
      }
      msgStart := msgStart + 1;
      assert content == text + [NL];
      HandOverLast(text, msgStart);
      return true;
    }

    /** There is a line before the last one: the last one is handed over. */
    method HandOverLast(ghost text: seq<char>, msgStart: nat)
      requires Shows(ibuf[..], text) && ilen == |content| && content == text + [NL]
      requires 0 < msgStart == PastLastNl(text)
      modifies this`ilen, this`content, this`calls, ibuf
      ensures Valid() && |content| < |old(content)|
      ensures calls + LaterReversed(content) == old(calls) + LaterReversed(old(content))
      ensures FirstKept(content) == FirstKept(old(content))
    {
      ghost var first, line := text[..msgStart], text[msgStart..];
      assert text == first + line;
      HandOver(text, msgStart);
      LastHandedOver(first, line);
      Assoc(old(calls), [line], LaterReversed(first));
      content := first;
    }

    /** The callback for the last line, whose newline is already overwritten; the line is
        zeroed. */
    method HandOver(ghost text: seq<char>, msgStart: nat)
      requires Shows(ibuf[..], text) && ilen == |text| + 1 && msgStart <= |text|
      modifies this`ilen, this`calls, ibuf
      ensures Shows(ibuf[..], text[..msgStart]) && ilen == msgStart
      ensures calls == old(calls) + [text[msgStart..]]
    {
      var msgEnd := ilen - 1;
      assert ibuf[msgStart..msgEnd] == text[msgStart..];
      calls := calls + [ibuf[msgStart..msgEnd]];
      var n := msgEnd - msgStart + 1;
      forall i | msgStart <= i < msgStart + n { ibuf[i] := NUL; }
      ilen := ilen - n;
    }

    /** parse_dynmem_buf() backwards: hands over every line but the first, last one first. */
    method ParseReverse()
      requires Valid()
      modifies this`ilen, this`content, this`calls, ibuf
      ensures Valid() && content == FirstKept(old(content)) && calls == old(calls) + LaterReversed(old(content))
    {
      var taken := true;
      while taken
        invariant Valid()
        invariant calls + LaterReversed(content) == old(calls) + LaterReversed(old(content))
        invariant FirstKept(content) == FirstKept(old(content))
        invariant !taken ==> content == FirstKept(content) && LaterReversed(content) == []
        decreases taken, |content|
      {
        taken := TakeLast();
      }
    }

    /** How much of the file, from its start, has not been read yet. */
    function Unread(file: seq<char>): nat
      reads this`fdOffs
    {
      if fdOffs == FST then |file| else if 0 < fdOffs then fdOffs else 0
    }

    /** What the reader has made of the file from `pos` on: everything behind the first line
        of that part has been handed over, that line is kept. */
    ghost predicate HasReadFrom(file: seq<char>, pos: nat)
      reads this`ilen, this`content, this`calls, ibuf
    {
      Valid() && pos <= |file| && MadeOf(ibuf.Length, file[pos..], content, calls)
    }

    ghost predicate HasReadBack(file: seq<char>)
      reads this, ibuf
    {
      HasReadFrom(file, Unread(file))
    }

    /** First call: looks at the start of the file for the stack end, then goes to its end. */
    method LookAtStart(file: seq<char>) returns (ok: bool)
      requires HasReadFrom(file, |file|) && fdOffs == FST && NUL !in file
      modifies this`fdOffs, this`sawStackEnd, ibuf
      ensures HasReadFrom(file, |file|)
      ensures ok <==> file != [] && ibuf.Length > 1
      ensures fdOffs == if ok then |file| else FST
      ensures ok ==> sawStackEnd == (file[0] == 'S')
    {
      assert file[|file|..] == [];
      var n := if |file| < ibuf.Length - 1 then |file| else ibuf.Length - 1;
      if n <= 0 { return false; }
      forall i | 0 <= i < n { ibuf[i] := file[i]; }
      sawStackEnd := ibuf[0] == 'S';
      forall i | 0 <= i < n { ibuf[i] := NUL; }
      fdOffs := |file|;
      return true;
    }

    /** read_dynmem_buf() backwards: one block in front of what is kept, then the parser.
        Returns false when there is nothing to read, or no room to read it into. */
    method ReadReverse(file: seq<char>) returns (ok: bool)
      requires HasReadBack(file) && Terminated(file) && NUL !in file
      modifies this`ilen, this`fdOffs, this`content, this`calls, this`sawStackEnd, ibuf
      ensures HasReadBack(file)
      ensures ok ==> Unread(file) < old(Unread(file))
      ensures !ok ==> Unread(file) == 0 || |content| == ibuf.Length - 1
    {
      ok := Prepare(file);
      if ok { ok := NextBlock(file); }
    }

    method NextBlock(file: seq<char>) returns (ok: bool)
      requires HasReadBack(file) && fdOffs > 0 && Terminated(file) && NUL !in file
      modifies this`ilen, this`fdOffs, this`content, this`calls, ibuf
      ensures HasReadBack(file)
      ensures if ok then Unread(file) < old(Unread(file)) else |content| == ibuf.Length - 1
    {
      assert ilen == |content| < ibuf.Length;
      var at, n := SeekBlock();
      assert Unread(file) == at;
      ok := ReadBlock(file, at, n);
    }

    /** The loop of the discovery: reads until the reader gives up.  Every line except the
        first is delivered exactly once and in reverse order, wherever the blocks begin, if
        and only if each of them fits into the buffer with the newlines around it. */
    method ReadAll(file: seq<char>)
      requires HasReadBack(file) && Terminated(file) && NUL !in file && ibuf.Length >= 2
      modifies this`ilen, this`fdOffs, this`content, this`calls, this`sawStackEnd, ibuf
      ensures calls == LaterReversed(file) <==> AllFit(ibuf.Length, LaterReversed(file))
    {
      var ok := true;
      while ok
        invariant HasReadBack(file)
        invariant !ok ==> Unread(file) == 0 || |content| == ibuf.Length - 1
        decreases ok, Unread(file)
      {
        ok := ReadReverse(file);
      }
      GivesUpWhenDone(ibuf.Length, file, Unread(file));
    }

    /** The checks in front of lseek(). */
    method Prepare(file: seq<char>) returns (ok: bool)
      requires HasReadBack(file) && NUL !in file
      modifies this`fdOffs, this`sawStackEnd, ibuf
      ensures HasReadBack(file) && Unread(file) == old(Unread(file))
      ensures ok ==> fdOffs > 0
      ensures !ok ==> Unread(file) == 0 || |content| == ibuf.Length - 1
    {
      if fdOffs == FST {
        ok := LookAtStart(file);
        if !ok { return; }
      }
      return fdOffs > 0;
    }

    /** Sets the file offset: the next block fills the buffer, or is what is left. */
    method SeekBlock() returns (at: nat, n: nat)
      requires 0 < fdOffs && ilen < ibuf.Length
      modifies this`fdOffs
      ensures at + n == old(fdOffs) && n + ilen < ibuf.Length
      ensures fdOffs == if at == 0 then EOF else at
      ensures n == 0 ==> ilen == ibuf.Length - 1 && at > 0
    {
      n := ibuf.Length - 1 - ilen;
      if fdOffs > n {
        at := fdOffs - n;
        fdOffs := at;
      } else {
        at, n := 0, fdOffs;
        fdOffs := EOF;
      }
    }

    /** The part behind lseek(): moves the rest, reads the block, parses. */
    method ReadBlock(file: seq<char>, at: nat, n: nat) returns (ok: bool)
      requires at + n <= |file| && HasReadFrom(file, at + n) && Terminated(file) && NUL !in file
      requires n + ilen < ibuf.Length
      modifies this`ilen, this`content, this`calls, ibuf
      ensures HasReadFrom(file, at) && ok == (n > 0)
      ensures n == 0 ==> content == old(content)
    {
      ghost var kept, made := content, calls;
      BlockStep(ibuf.Length, file, at, at + n);
      PrependBlock(file[at..at + n]);
      if n == 0 {
        assert content == [] + kept == kept;
        return false;
      }
      ParseBlock(made, content);
      return true;
    }

    /** The parser, on a buffer whose lines fit. */
    method ParseBlock(ghost made: seq<seq<char>>, ghost c: seq<char>)
      requires Valid() && content == c && calls == made && AllFit(ibuf.Length, made) &&
        AllFit(ibuf.Length, LaterReversed(c))
      modifies this`ilen, this`content, this`calls, ibuf
      ensures Valid() && content == FirstKept(c) && calls == made + LaterReversed(c) && AllFit(ibuf.Length, calls)
    {
      ParseReverse();
      AllFitAppend(ibuf.Length, made, LaterReversed(c));
    }

    /** memmove() the kept rest behind the block, and read the block in front of it. */
    method PrependBlock(block: seq<char>)
      requires Valid() && |block| + ilen < ibuf.Length && NUL !in block && (content == [] ==> Terminated(block))
      modifies this`ilen, this`content, ibuf
      ensures Valid() && content == block + old(content)
    {
      var n := |block|;
      MoveUp(n);
      PutBlock(block);
      ilen := ilen + n;
      content := block + content;
      assert ibuf[..|content|] == ibuf[..n] + ibuf[n..|content|];
    }

    /** memmove(ibuf + n, ibuf, ilen) */
    method MoveUp(n: nat)
      requires Shows(ibuf[..], content) && ilen == |content| && n + ilen < ibuf.Length
      modifies ibuf
      ensures ibuf[n..n+ilen] == content && forall i :: n + ilen <= i < ibuf.Length ==> ibuf[i] == NUL
    {
      assert ibuf[..ilen] == ibuf[..][..ilen];
      forall i | n + ilen <= i < ibuf.Length ensures ibuf[i] == NUL { assert ibuf[..][i] == NUL; }
      if ilen != 0 {
        forall i | 0 <= i < ilen { ibuf[n + i] := ibuf[i]; }
      }
    }

    /** read() to the start of the buffer */
    method PutBlock(block: seq<char>)
      requires |block| <= ibuf.Length
      modifies ibuf
      ensures ibuf[..|block|] == block && forall i :: |block| <= i < ibuf.Length ==> ibuf[i] == old(ibuf[i])
    {
      forall i | 0 <= i < |block| { ibuf[i] := block[i]; }
    }
  }

  ghost predicate MadeOf(size: nat, s: seq<char>, content: seq<char>, calls: seq<seq<char>>)
  {
    content == FirstKept(s) && calls == LaterReversed(s) && AllFit(size, calls)
  }

  /** A line handed over was in the buffer together with its newline and the one before. */
  ghost predicate AllFit(size: nat, ls: seq<seq<char>>)
  {
    forall l :: l in ls ==> |l| + 2 <= size - 1
  }

  lemma {:induction false} AllFitAppend(size: nat, a: seq<seq<char>>, b: seq<seq<char>>)
    requires AllFit(size, a) && AllFit(size, b)
    ensures AllFit(size, a + b)
  {}

  lemma {:induction false} LaterFit(size: nat, c: seq<char>)
    requires Terminated(c) && |c| <= size - 1
    ensures AllFit(size, LaterReversed(c))
  {
    if c != [] {
      SplitFirst(c);
      var rest := c[FirstNl(c)+1..];
      assert Lines(c)[1..] == Lines(rest);
      forall l | l in LaterReversed(c) ensures |l| + 2 <= size - 1 {
        assert l in Lines(rest);
        LineLength(rest, l);
      }
    }
  }

  /** Reading the block [at, pos) in front of what is kept of file[pos..]. */
  lemma {:induction false} BlockStep(size: nat, file: seq<char>, at: nat, pos: nat)
    requires Terminated(file) && at <= pos <= |file|
    ensures var b, s := file[at..pos], file[pos..]; var c := b + FirstKept(s);
      && (FirstKept(s) == [] ==> Terminated(b)) && Terminated(c)
      && FirstKept(file[at..]) == FirstKept(c)
      && LaterReversed(file[at..]) == LaterReversed(s) + LaterReversed(c)
      && (|c| <= size - 1 ==> AllFit(size, LaterReversed(c)))
  {
    var b, s := file[at..pos], file[pos..];
    assert file[at..] == b + s;
    if s != [] { SplitFirst(s); }
    BlockInFront(b, s);
    if |b + FirstKept(s)| <= size - 1 { LaterFit(size, b + FirstKept(s)); }
  }

  lemma {:induction false} KeptMeansText(file: seq<char>, pos: nat)
    requires Terminated(file) && pos <= |file| && FirstKept(file[pos..]) != []
    ensures Terminated(file[pos..]) && file[pos..] != []
  {}

  /** Where a backward pass ends: at the start of the file, or with a full buffer. */
  lemma {:induction false} GivesUpWhenDone(size: nat, file: seq<char>, pos: nat)
    requires Terminated(file) && pos <= |file| && size >= 2
    requires AllFit(size, LaterReversed(file[pos..]))
    requires pos == 0 || |FirstKept(file[pos..])| == size - 1
    ensures LaterReversed(file[pos..]) == LaterReversed(file) <==> AllFit(size, LaterReversed(file))
  {
    if pos == 0 {
      assert file[pos..] == file;
    } else {
      var p, s := file[..pos], file[pos..];
      assert file == p + s;
      KeptMeansText(file, pos);
      FullBuffer(size, p, s);
    }
  }

  lemma {:induction false} FullBuffer(size: nat, p: seq<char>, s: seq<char>)
    requires Terminated(s) && s != [] && |FirstKept(s)| == size - 1 && AllFit(size, LaterReversed(s))
    ensures LaterReversed(s) == LaterReversed(p + s) <==> AllFit(size, LaterReversed(p + s))
  {
    var l, rest := FirstPart(s);
    if Lines(p) == [] {
      OnlyFirstLeft(p, l, rest);
    } else {
      StuckInLine(size, p, l, rest);
    }
  }

  lemma {:induction false} Regroup(a: seq<char>, l: seq<char>, rest: seq<char>)
    ensures a + (l + [NL] + rest) == a + l + [NL] + rest
  {}

  lemma {:induction false} SplitAt<T>(s: seq<T>, i: nat)
    requires i < |s|
    ensures s == s[..i] + [s[i]] + s[i+1..] && s[..i+1] == s[..i] + [s[i]]
  {}

  lemma {:induction false} FirstPart(s: seq<char>) returns (l: seq<char>, rest: seq<char>)
    requires Terminated(s) && s != []
    ensures NL !in l && s == l + [NL] + rest && FirstKept(s) == l + [NL]
  {
    var i := FirstNl(s);
    NoTail(s);
    SplitAt(s, i);
    l, rest := s[..i], s[i+1..];
  }

  /** Nothing but a part of the first line is unread: all others have been delivered. */
  lemma {:induction false} OnlyFirstLeft(p: seq<char>, l: seq<char>, rest: seq<char>)
    requires Lines(p) == [] && NL !in l
    ensures LaterReversed(p + (l + [NL] + rest)) == LaterReversed(l + [NL] + rest)
  {
    LinesAndTail(p);
    assert [] + Tail(p) == Tail(p);
    ConsLine(l, rest);
    ConsLine(p + l, rest);
    Regroup(p, l, rest);
    assert ([l] + Lines(rest))[1..] == ([p + l] + Lines(rest))[1..];
  }

  /** The buffer is full with the end of a line that is not the first: the line is too long,
      and it and everything before it stay undelivered. */
  lemma {:induction false} StuckInLine(size: nat, p: seq<char>, l: seq<char>, rest: seq<char>)
    requires Lines(p) != [] && NL !in l && |l| + 1 == size - 1
    ensures !AllFit(size, LaterReversed(p + (l + [NL] + rest)))
    ensures LaterReversed(p + (l + [NL] + rest)) != LaterReversed(l + [NL] + rest)
  {
    var s := l + [NL] + rest;
    var long := Tail(p) + l;
    LinesAppend(p, s);
    ConsLine(l, rest);
    ConsLine(long, rest);
    Regroup(Tail(p), l, rest);
    var ls, m := Lines(p + s), |Lines(p)|;
    assert ls == Lines(p) + ([long] + Lines(rest));
    assert ls[m] == long;
    assert LaterReversed(p + s)[|ls| - 1 - m] == long;
    assert |LaterReversed(s)| == |Lines(rest)|;
  }

  lemma {:induction false} OneLine(l: seq<char>)
    requires NL !in l
    ensures FirstKept(l + [NL]) == l + [NL] && LaterReversed(l + [NL]) == []
  {
    ConsLine(l, []);
    assert l + [NL] + [] == l + [NL];
  }
}
