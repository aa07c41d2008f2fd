/** The queue that delays malloc messages by a cycle (src/memmgmt.cpp, src/ugtrain.cpp): raw
    message text in one buffer, edited in place. */
module MallocQueue {
  import opened Common
  import opened FifoText
  import opened Numbers
  import opened QueueHistory

  // ---------------------------------------------------------------------------
  // Queued messages
  // ---------------------------------------------------------------------------

  /** A malloc message without its newline: 'm', the address, anything else. */
  ghost predicate WellFormed(m: seq<char>)
  {
    m != [] && m[0] == 'm' && ScanPtr(m[1..]).Some? && NL !in m && NUL !in m
  }

  ghost predicate AllWellFormed(msgs: seq<seq<char>>)
  {
    forall i :: 0 <= i < |msgs| ==> WellFormed(msgs[i])
  }

  predicate HasAddr(m: seq<char>, addr: nat)
  {
    m != [] && ScanPtr(m[1..]).Some? && ScanPtr(m[1..]).value.value == addr
  }

  /** Index of the first queued message with this address, or the length. */
  function FindAddr(msgs: seq<seq<char>>, addr: nat): (k: nat)
    ensures k <= |msgs| && (k < |msgs| ==> HasAddr(msgs[k], addr))
    ensures forall j :: 0 <= j < k ==> !HasAddr(msgs[j], addr)
  {
    if msgs == [] || HasAddr(msgs[0], addr) then 0 else 1 + FindAddr(msgs[1..], addr)
  }

  lemma {:induction false} UnlinesAppend(a: seq<seq<char>>, b: seq<seq<char>>)
    ensures Unlines(a + b) == Unlines(a) + Unlines(b)
  {
    if a == [] {
      assert a + b == b;
    } else {
      UnlinesAppend(a[1..], b);
      assert (a + b)[0] == a[0] && (a + b)[1..] == a[1..] + b;
      Assoc(a[0] + [NL], Unlines(a[1..]), Unlines(b));
    }
  }

  /** Where message k stands in the text. */
  lemma {:induction false} MessageAt(msgs: seq<seq<char>>, k: nat)
    requires k < |msgs|
    ensures Unlines(msgs) == Unlines(msgs[..k]) + (msgs[k] + [NL]) + Unlines(msgs[k+1..])
  {
    assert msgs == msgs[..k] + msgs[k..];
    UnlinesAppend(msgs[..k], msgs[k..]);
    assert msgs[k..][0] == msgs[k] && msgs[k..][1..] == msgs[k+1..];
    Assoc(Unlines(msgs[..k]), msgs[k] + [NL], Unlines(msgs[k+1..]));
  }

  /** What the text is from message k on. */
  lemma {:induction false} TextBehind(msgs: seq<seq<char>>, k: nat)
    requires k < |msgs|
    ensures
      var o := |Unlines(msgs[..k])|;
      o + |msgs[k]| < |Unlines(msgs)| && Unlines(msgs)[o..] == msgs[k] + ([NL] + Unlines(msgs[k+1..]))
  {
    MessageAt(msgs, k);
    Assoc(Unlines(msgs[..k]), msgs[k] + [NL], Unlines(msgs[k+1..]));
    Assoc(msgs[k], [NL], Unlines(msgs[k+1..]));
  }

  // ---------------------------------------------------------------------------
  // The buffer
  // ---------------------------------------------------------------------------

  class Queue {
    const data: array<char>
    var end: nat
    ghost var msgs: seq<seq<char>>            // the messages queued
    ghost var behind: Behind<seq<char>>       // what stands behind them
    ghost var hist: seq<Op<seq<char>>>        // what was done since the queue was last processed

    /** data[..end] is exactly the queued messages, whole and in order. */
    ghost predicate WholeText()
      reads this, data
    {
      end < data.Length && AllWellFormed(msgs) && data[..end] == Unlines(msgs)
    }

    /** The queue is as the history left it, with what stands behind it. */
    ghost predicate Valid()
      reads this, data
    {
      WholeText() && TailIs(behind) && After(hist) == Line(msgs, behind)
    }

    ghost predicate TailIs(b: Behind<seq<char>>)
      reads this, data
    {
      match b
      case Nothing => end < data.Length && data[end] == NUL
      case FirstChar => end + 1 < data.Length && data[end] == 'm' && (end == 0 ==> data[1] == NUL)
      case StaleLine(m) => end == 0 && WellFormed(m) && |m| + 1 < data.Length && data[..|m| + 1] == m + [NL]
    }

    constructor (size: nat)
      requires size >= 1
      ensures Valid() && fresh(data) && data.Length == size && hist == []
    {
      data := new char[size];
      end, msgs, behind, hist := 0, [], Nothing, [];
      new;
      data[0] := NUL;
      data[size - 1] := NUL;
    }

    /** queue_dynmem_addr(): snprintf() the message behind the others.  If it does not fit, its
        first character stays behind, followed by a zero.  That zero lies inside the buffer if
        and only if two bytes were left; a single one is left when a message has filled the
        buffer up to its last byte. */
    method QueueMessage(m: seq<char>) returns (queued: bool, inside: bool)
      requires Valid() && WellFormed(m)
      modifies this, data
      ensures Valid() && hist == old(hist) + [Append(m, FitFor(data.Length, old(end), |m|))]
      ensures queued == FitFor(data.Length, old(end), |m|).Fits? && (inside <==> old(end) + 2 <= data.Length)
      ensures msgs == (if queued then old(msgs) + [m] else old(msgs)) && end == old(end) + if queued then |m| + 1 else 0
    {
      var text := m + [NL];
      var n := data.Length - end;
      ghost var op := Append(m, FitFor(data.Length, end, |m|));
      PrintText(text);
      queued, inside := |text| <= n - 1, true;
      if queued {
        Extend(m);
      } else {
        inside := end + 1 < data.Length;
        if inside {
          data[end + 1] := NUL;
          behind := FirstChar;
        }
        assert data[..end] == old(data[..end]);
      }
      AfterOneMore(hist, op);
      hist := hist + [op];
    }

    /** The text of the message has been printed behind the others. */
    method Extend(m: seq<char>)
      requires WholeText() && WellFormed(m) && end + |m| + 1 < data.Length
      requires data[end..end + |m| + 1] == m + [NL] && data[end + |m| + 1] == NUL
      modifies this`end, this`msgs, this`behind
      ensures end == old(end) + |m| + 1 && msgs == old(msgs) + [m] && behind == Nothing
      ensures WholeText() && data[end] == NUL
    {
      UnlinesAppend(msgs, [m]);
      assert Unlines([m]) == m + [NL] + [];
      assert data[..end + |m| + 1] == data[..end] + data[end..end + |m| + 1];
      end, msgs, behind := end + |m| + 1, msgs + [m], Nothing;
    }

    /** snprintf(): as much of the text as fits, and a zero. */
    method PrintText(text: seq<char>)
      requires end < data.Length && text != []
      modifies data
      ensures data[..end] == old(data[..end])
      ensures |text| < data.Length - end ==> data[end..end+|text|] == text && data[end + |text|] == NUL
      ensures |text| >= data.Length - end ==> data[end] == if data.Length - end > 1 then text[0] else NUL
    {
      var n := data.Length - end;
      var written := if |text| < n - 1 then |text| else n - 1;
      forall i | 0 <= i < written { data[end + i] := text[i]; }
      data[end + written] := NUL;
    }

    /** strchr(data + from, '\n'), where `stop` is the first newline or zero. */
    method StrChr(from: nat, ghost stop: nat) returns (pos: int)
      requires from <= stop < data.Length && (data[stop] == NL || data[stop] == NUL)
      requires forall i :: from <= i < stop ==> data[i] != NL && data[i] != NUL
      ensures pos == if data[stop] == NL then stop else -1
    {
      var i := from;
      while data[i] != NUL
        invariant from <= i <= stop
        decreases stop - i
      {
        if data[i] == NL { return i; }
        i := i + 1;
      }
      return -1;
    }

    /** The message at `start` in the text is number k. */
    ghost predicate AtMessage(start: nat, k: nat)
      reads this, data
    {
      && WholeText() && k < |msgs| && start == |Unlines(msgs[..k])|
      && start + |msgs[k]| < end
      && data[start..end] == msgs[k] + ([NL] + Unlines(msgs[k+1..]))
    }

    lemma {:induction false} Reaches(k: nat)
      requires WholeText() && k < |msgs|
      ensures AtMessage(|Unlines(msgs[..k])|, k)
    {
      TextBehind(msgs, k);
      assert data[|Unlines(msgs[..k])|..end] == data[..end][|Unlines(msgs[..k])|..];
    }

    /** Scanning behind the 'm': where the message ends, and whether it has the address. */
    method Inspect(start: nat, addr: nat, ghost k: nat) returns (msgEnd: nat, has: bool)
      requires AtMessage(start, k)
      ensures msgEnd == start + |msgs[k]| + 1 <= end && has == HasAddr(msgs[k], addr)
    {
      var pstart := start + 1;
      ghost var m := msgs[k];
      assert WellFormed(m);
      forall i | start <= i < end ensures data[i] == data[start..end][i - start] {}
      var pos := StrChr(pstart, start + |m|);
      msgEnd := pos + 1;
      var text := data[pstart..end];
      assert text == data[start..end][1..];
      TailOfConcat(m, [NL] + Unlines(msgs[k+1..]));
      ScanPtrStops(m[1..], [NL] + Unlines(msgs[k+1..]));
      has := ScanPtr(text).value.value == addr;
    }

    /** Looks for the first message with the address. */
    method FindMessage(freeAddr: nat) returns (found: bool, start: nat, msgEnd: nat, ghost k: nat)
      requires WholeText()
      ensures k == FindAddr(msgs, freeAddr) && found == (k < |msgs|)
      ensures found ==> AtMessage(start, k) && msgEnd == start + |msgs[k]| + 1
    {
      start, k, msgEnd := 0, 0, 0;
      assert Unlines(msgs[..0]) == [];
      while start < end
        invariant k <= |msgs| && start == |Unlines(msgs[..k])|
        invariant forall j :: 0 <= j < k ==> !HasAddr(msgs[j], freeAddr)
        invariant start < end <==> k < |msgs|
        decreases |msgs| - k
      {
        Reaches(k);
        var has;
        msgEnd, has := Inspect(start, freeAddr, k);
        if has { return true, start, msgEnd, k; }
        NextMessage(k);
        start, k := msgEnd, k + 1;
      }
      return false, start, msgEnd, k;
    }

    /** remove_malloc_from_queue(): takes out the first queued message with the address, and
        says whether there was one.  (Its guard against a message shorter than two characters
        never fires for whole messages.) */
    method RemoveMalloc(freeAddr: nat) returns (removed: bool)
      requires Valid()
      modifies this, data
      ensures Valid() && hist == old(hist) + [Cancel(FindAddr(old(msgs), freeAddr))]
      ensures removed == (FindAddr(old(msgs), freeAddr) < |old(msgs)|)
      ensures msgs == Without(old(msgs), FindAddr(old(msgs), freeAddr))
    {
      ghost var before := Line(msgs, behind);
      var start, msgEnd;
      ghost var k;
      removed, start, msgEnd, k := FindMessage(freeAddr);
      if removed { CutOut(start, msgEnd, k); }
      assert Line(msgs, behind) == Next(before, Cancel(k));
      AfterOneMore(hist, Cancel(k));
      hist := hist + [Cancel(k)];
    }

    lemma {:induction false} NextMessage(k: nat)
      requires WholeText() && k < |msgs|
      ensures |Unlines(msgs[..k+1])| == |Unlines(msgs[..k])| + |msgs[k]| + 1 <= end
      ensures |Unlines(msgs[..k+1])| < end <==> k + 1 < |msgs|
    {
      assert msgs[..k+1] == msgs[..k] + [msgs[k]];
      UnlinesAppend(msgs[..k], [msgs[k]]);
      Reaches(k);
      if k + 1 < |msgs| { Reaches(k + 1); } else { assert msgs[..k+1] == msgs; }
    }

    /** What stands behind the queue once message k is gone. */
    ghost function BehindAfter(k: nat): Behind<seq<char>>
      reads this
    {
      if k < |msgs| == 1 && behind.FirstChar? then StaleLine(msgs[0]) else behind
    }

    /** The memmove() over a found message. */
    method CutOut(start: nat, msgEnd: nat, ghost k: nat)
      requires AtMessage(start, k) && TailIs(behind) && msgEnd == start + |msgs[k]| + 1
      modifies this`end, this`msgs, this`behind, data
      ensures WholeText() && TailIs(behind)
      ensures msgs == Without(old(msgs), k) && behind == old(BehindAfter(k))
    {
      ghost var text, m, b, single := data[..end], msgs[k], BehindAfter(k), |msgs| == 1;
      if single { OnlyMessage(); }
      CutMessage(start, msgEnd, k);
      if single && b.StaleLine? { StaleNow(m, text); }
      behind := b;
    }

    method CutMessage(start: nat, msgEnd: nat, ghost k: nat)
      requires AtMessage(start, k) && msgEnd == start + |msgs[k]| + 1
      modifies this`end, this`msgs, data
      ensures WholeText() && msgs == Without(old(msgs), k) && end == old(end) - (msgEnd - start) &&
        data[end] == old(data[end])
      ensures msgs == [] ==> end == 0
      ensures msgs != [] ==> end > 0
      ensures forall i :: end < i < data.Length ==> data[i] == old(data[i])
    {
      ghost var text := data[..end];
      CutText(text, msgs, k);
      CloseGap(start, msgEnd);
      msgs := Without(msgs, k);
    }

    lemma {:induction false} OnlyMessage()
      requires WholeText() && |msgs| == 1
      ensures data[..end] == msgs[0] + [NL] && end == |msgs[0]| + 1
    {
      assert msgs[1..] == [];
      assert Unlines(msgs) == msgs[0] + [NL] + [];
    }

    /** The leftover character replaces the first one of the cancelled message. */
    lemma {:induction false} StaleNow(m: seq<char>, text: seq<char>)
      requires end == 0 && WellFormed(m) && text == m + [NL] && |text| < data.Length
      requires data[0] == 'm' && forall i :: 0 < i < |text| ==> data[i] == text[i]
      ensures TailIs(StaleLine(m))
    {
      assert data[..|text|] == text;
    }

    /** memmove(data + to, data + from, len) to the left */
    method MoveChars(to: nat, from: nat, len: nat)
      requires to <= from && from + len <= data.Length
      modifies data
      ensures data[..to] == old(data[..to]) && data[to..to+len] == old(data[from..from+len])
      ensures forall i :: to + len <= i < data.Length ==> data[i] == old(data[i])
      ensures forall i :: to <= i < to + len ==> data[i] == old(data[i - to + from])
    {
      forall i | 0 <= i < len { data[to + i] := data[from + i]; }
    }

    /** memmove(data + to, data + from, end - from + 1): the zero or leftover character at
        the end moves along. */
    method CloseGap(to: nat, from: nat)
      requires to <= from <= end < data.Length
      modifies this`end, data
      ensures end == old(end) - (from - to) && data[end] == old(data[end])
      ensures data[..end] == old(data[..to]) + old(data[from..end])
      ensures forall i :: end < i < data.Length ==> data[i] == old(data[i])
    {
      ghost var kept, moved := data[..to], data[from..end];
      var len := end - from + 1;
      assert data[from..from+len] == moved + [data[end]];
      MoveChars(to, from, len);
      end := end - (from - to);
      assert data[to..end+1] == moved + [old(data[end])];
      assert data[to..end] == moved && data[end] == data[to..end+1][end-to];
      assert data[..end] == data[..to] + data[to..end];
    }

    /** The first line of an emptied buffer, if it has one. */
    method LineInEmptied() returns (stale: bool, line: seq<char>)
      requires end == 0 && TailIs(behind)
      ensures stale <==> behind.StaleLine?
      ensures stale ==> line == behind.line
    {
      ghost var stop := if behind.Nothing? then 0 else if behind.FirstChar? then 1 else |behind.line|;
      forall i | 0 <= i < stop ensures data[i] != NL && data[i] != NUL {
        if behind.StaleLine? { assert data[i] == data[..stop + 1][i]; }
      }
      if behind.StaleLine? { assert data[stop] == data[..stop + 1][stop]; }
      var pos := StrChr(0, stop);
      stale, line := pos >= 0, [];
      if stale { line := data[..pos]; }
    }

    /** process_mallocs(): the parser of the FIFO run over the queue, then everything is
        cleared.  What it hands over is what the history left.  With a stale line the parser
        then moves memory by a length below zero (wild): this is so if and only if the queue is
        empty and neither of the first two characters is zero. */
    method ProcessMallocs() returns (handed: seq<seq<char>>, wild: bool)
      requires Valid()
      modifies this, data
      ensures handed == old(Handed(After(hist)))
      ensures wild <==> old(end == 0 && data[0] != NUL && data[1] != NUL)
      ensures wild <==> handed != old(msgs)
      ensures wild <==> old(msgs) == [] && old(SomeLeftBehind(hist))
      ensures !wild ==> Valid() && hist == [] && forall i :: 0 <= i < data.Length ==> data[i] == NUL
    {
      Guard();
      HandedIff(hist);
      CharBehindIff(hist);
      handed := HandOverAll();
      var stale, line := LineInEmptied();
      if stale {
        return handed + [line], true;
      }
      forall i | 0 <= i < data.Length { data[i] := NUL; }
      end, msgs, behind, hist, wild := 0, [], Nothing, [], false;
    }

    /** The messages of the queue, one by one. */
    method HandOverAll() returns (handed: seq<seq<char>>)
      requires WholeText() && TailIs(behind)
      modifies this`end, this`msgs, this`behind, data
      ensures handed == old(msgs) && end == 0 && TailIs(behind)
      ensures behind == if old(msgs) == [] then old(behind) else Nothing
    {
      handed := [];
      ghost var all := msgs;
      while end > 0
        invariant WholeText() && TailIs(behind) && handed + msgs == all
        invariant behind == if handed == [] then old(behind) else Nothing
        decreases end
      {
        var m := HandOverFirst();
        handed := handed + [m];
      }
      if msgs != [] { RestOf(msgs); }
    }

    /** The stale line shows in the first two characters. */
    lemma {:induction false} Guard()
      requires Valid()
      ensures behind.StaleLine? ==> end == 0 && msgs == []
      ensures behind.StaleLine? <==> end == 0 && data[0] != NUL && data[1] != NUL
    {
      if behind.StaleLine? {
        var m := behind.line;
        assert data[0] == data[..|m| + 1][0] && data[1] == data[..|m| + 1][1];
      }
    }

    /** The memmove() and the memset() of the parser. */
    method MoveDown(n: nat)
      requires n <= end <= data.Length
      modifies data
      ensures data[..end - n] == old(data[n..end]) && forall i :: end - n <= i < end ==> data[i] == NUL
      ensures forall i :: end <= i < data.Length ==> data[i] == old(data[i])
    {
      forall i | 0 <= i < end - n { data[i] := data[n + i]; }
      forall i | end - n <= i < end { data[i] := NUL; }
    }

    /** The message at the front, up to its newline. */
    method FirstMessage() returns (m: seq<char>)
      requires WholeText() && end > 0
      ensures msgs != [] && m == msgs[0]
    {
      assert Unlines(msgs[..0]) == [];
      Reaches(0);
      assert WellFormed(msgs[0]);
      forall i | 0 <= i < end ensures data[i] == data[0..end][i] {}
      var pos := StrChr(0, |msgs[0]|);
      m := data[..pos];
    }

    /** One round of the parser: callback, memmove() of the rest, memset() behind it. */
    method HandOverFirst() returns (m: seq<char>)
      requires WholeText() && end > 0
      modifies this`end, this`msgs, this`behind, data
      ensures WholeText() && TailIs(behind) && behind.Nothing?
      ensures old(msgs) == [m] + msgs && end < old(end)
    {
      m := FirstMessage();
      var n := |m| + 1;
      RestOf(msgs);
      assert data[n..end] == data[..end][n..];
      MoveDown(n);
      end, msgs, behind := end - n, msgs[1..], Nothing;
    }
  }

  lemma {:induction false} RestOf(msgs: seq<seq<char>>)
    requires msgs != []
    ensures |msgs[0]| + 1 <= |Unlines(msgs)| && Unlines(msgs)[|msgs[0]| + 1..] == Unlines(msgs[1..])
  {
    assert Unlines(msgs) == msgs[0] + [NL] + Unlines(msgs[1..]);
  }

  lemma {:induction false} TailOfConcat(a: seq<char>, b: seq<char>)
    requires a != []
    ensures (a + b)[1..] == a[1..] + b
  {}

  lemma {:induction false} CutText(text: seq<char>, msgs: seq<seq<char>>, k: nat)
    requires k < |msgs| && text == Unlines(msgs) && AllWellFormed(msgs)
    ensures var o := |Unlines(msgs[..k])|; var n := o + |msgs[k]| + 1;
      n <= |text| && text[..o] + text[n..] == Unlines(Without(msgs, k)) && AllWellFormed(Without(msgs, k))
  {
    MessageAt(msgs, k);
    UnlinesAppend(msgs[..k], msgs[k+1..]);
    ThreeParts(Unlines(msgs[..k]), msgs[k] + [NL], Unlines(msgs[k+1..]));
    WithoutWellFormed(msgs, k);
  }

  lemma {:induction false} ThreeParts(a: seq<char>, b: seq<char>, c: seq<char>)
    ensures (a + b + c)[..|a|] == a && (a + b + c)[|a|+|b|..] == c
  {}

  lemma {:induction false} WithoutWellFormed(msgs: seq<seq<char>>, k: nat)
    requires k < |msgs| && AllWellFormed(msgs)
    ensures AllWellFormed(Without(msgs, k))
  {
    forall i | 0 <= i < |msgs| - 1 ensures WellFormed(Without(msgs, k)[i]) {
      WithoutAt(msgs, k, i);
    }
  }

  lemma {:induction false} WithoutAt(msgs: seq<seq<char>>, k: nat, i: nat)
    requires k < |msgs| && i < |msgs| - 1
    ensures |Without(msgs, k)| == |msgs| - 1 && Without(msgs, k)[i] == if i < k then msgs[i] else msgs[i+1]
  {}
}
