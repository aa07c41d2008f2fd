/** The stream parser (src/fifoparser.cpp): one static buffer, filled forwards from a FIFO in
    reads of any size, or backwards from a file block by block. */
module FifoParser {
  import opened FifoText

  /** The buffer is a C string: the content, then zeros to the end. */
  ghost predicate Shows(buf: seq<char>, content: seq<char>)
  {
    && |content| < |buf| && buf[..|content|] == content && NUL !in content
    && forall i :: |content| <= i < |buf| ==> buf[i] == NUL
  }

  class Parser {
    const ibuf: array<char>
    var ilen: nat
    var calls: seq<seq<char>>        // lines handed to the callbacks, in order
    ghost var content: seq<char>     // the buffered text

    ghost predicate Valid()
      reads this, ibuf
    {
      Shows(ibuf[..], content) && ilen == |content|
    }

    constructor (size: nat)
      requires size >= 1
      ensures Valid() && fresh(ibuf) && ibuf.Length == size && content == [] && calls == []
    {
      ibuf := new char[size](_ => NUL);
      ilen, calls, content := 0, [], [];
    }

    /** strchr(ibuf, '\n'): the first newline before the terminating zero, or -1. */
    method StrChr() returns (pos: int)
      requires Valid()
      ensures pos == if FirstNl(content) < |content| then FirstNl(content) else -1
    {
      var i := 0;
      while ibuf[i] != NUL
        invariant 0 <= i <= |content|
        invariant forall k :: 0 <= k < i ==> content[k] != NL
        decreases |content| - i
      {
        assert content[i] == ibuf[..][i];
        if ibuf[i] == NL { return i; }
        i := i + 1;
      }
      return -1;
    }

    /** The tail of the loop body forwards: memmove() the rest to the front, memset() zeros
        behind it. */
    method RemoveFront(n: nat)
      requires Valid() && n <= |content|
      modifies this`ilen, this`content, ibuf
      ensures Valid() && content == old(content)[n..]
    {
      var rest := ilen - n;
      forall i | 0 <= i < rest { ibuf[i] := ibuf[n + i]; }
      forall i | rest <= i < ilen { ibuf[i] := NUL; }
      ilen := rest;
      content := content[n..];
    }

    /** The callback for the message between two positions of the buffer. */
    method HandOver(start: nat, end: nat)
      requires Valid() && start <= end <= |content|
      modifies this`calls
      ensures calls == old(calls) + [content[start..end]]
    {
      calls := calls + [ibuf[start..end]];
      assert ibuf[start..end] == ibuf[..][start..end] == content[start..end];
    }

    /** parse_dynmem_buf() forwards: hands over every complete line and keeps the rest. */
    method ParseForward()
      requires Valid()
      modifies this`ilen, this`content, this`calls, ibuf
      ensures Valid() && content == Tail(old(content)) && calls == old(calls) + Lines(old(content))
    {
      ghost var all, tail := calls + Lines(content), Tail(content);
      while true
        invariant Valid()
        invariant calls + Lines(content) == all && Tail(content) == tail
        decreases |content|
      {
        var msgEnd := StrChr();
        if msgEnd < 0 { return; }  // incomplete message: Lines(content) == [], Tail(content) == content
        FirstHandedOver(calls, content);
        TailBehindFirst(content);
        HandOver(0, msgEnd);
        RemoveFront(msgEnd + 1);
      }
    }

    /** read_dynmem_buf() forwards, when the kernel hands out `data`: at most as much as fits
        in front of the last byte. */
    method ReadForward(data: seq<char>)
      requires Valid() && 0 < |data| <= ibuf.Length - 1 - ilen && NUL !in data
      modifies this`ilen, this`content, this`calls, ibuf
      ensures Valid()
      ensures content == Tail(old(content) + data) && calls == old(calls) + Lines(old(content) + data)
    {
      forall i | 0 <= i < |data| { ibuf[ilen + i] := data[i]; }
      ilen := ilen + |data|;
      content := content + data;
      assert Shows(ibuf[..], content);
      ParseForward();
    }

    /** What the parser has made of the text received so far. */
    ghost predicate HasParsed(received: seq<char>)
      reads this, ibuf
    {
      Valid() && calls == Lines(received) && content == Tail(received) && FitForward(ibuf.Length, received)
    }

    /** One read continues the text received. */
    method Receive(ghost got: seq<char>, data: seq<char>)
      requires HasParsed(got) && 0 < |data| <= ibuf.Length - 1 - ilen && NUL !in data
      modifies this`ilen, this`content, this`calls, ibuf
      ensures HasParsed(got + data)
    {
      LinesAppend(got, data);
      ReadKeepsFit(ibuf.Length, got, data);
      ReadForward(data);
    }

    /** read_dynmem_fifo(): reads until the stream is drained.  Each read returns any
        non-empty part of what is there.  However the stream is split, the callbacks made are
        those of its complete lines, and the buffer keeps exactly the incomplete rest. */
    method Drain(ghost received: seq<char>, input: seq<char>)
      requires HasParsed(received) && NUL !in input
      requires FitForward(ibuf.Length, received + input)
      modifies this`ilen, this`content, this`calls, ibuf
      ensures HasParsed(received + input)
    {
      var rest := input;
      ghost var got := received;
      while rest != []
        invariant HasParsed(got) && got + rest == received + input && NUL !in rest
        decreases |rest|
      {
        RoomForMore(ibuf.Length, got, rest);
        var n :| 0 < n <= |rest| && n <= ibuf.Length - 1 - ilen;
        var part := rest[..n];
        Receive(got, part);
        Assoc(got, part, rest[n..]);
        assert part + rest[n..] == rest;
        got, rest := got + part, rest[n..];
      }
      assert got + [] == got;
    }
  }

  /** Every line with its newline, and the incomplete rest, fit in front of the buffer's last
      byte.  HasParsed() shows that no other stream is ever received completely. */
  ghost predicate FitForward(size: nat, s: seq<char>)
  {
    (forall l :: l in Lines(s) ==> |l| + 1 <= size - 1) && |Tail(s)| <= size - 1
  }

  /** While more of a fitting stream is to come, there is room for its next byte. */
  lemma {:induction false} RoomForMore(size: nat, got: seq<char>, rest: seq<char>)
    requires FitForward(size, got + rest) && rest != []
    ensures |Tail(got)| + 1 <= size - 1
  {
    LinesAppend(got, rest);
    var t := Tail(got) + rest;
    var i := FirstNl(t);
    if i < |t| {
      assert t[..i] in Lines(t) && t[..i] in Lines(got + rest);
      assert |Tail(got)| <= i;
    }
  }

  lemma {:induction false} ReadKeepsFit(size: nat, got: seq<char>, data: seq<char>)
    requires FitForward(size, got) && |Tail(got)| + |data| <= size - 1
    ensures FitForward(size, got + data)
  {
    LinesAppend(got, data);
    forall l | l in Lines(Tail(got) + data) ensures |l| + 1 <= size - 1 {
      LineLength(Tail(got) + data, l);
    }
  }
}
