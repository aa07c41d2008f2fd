/** Newline-terminated text: the complete lines of a stream and the rest behind them. */
module FifoText {

  const NL := '\n'
  const NUL := '\0'

  /** Index of the first newline, or the length. */
  function FirstNl(s: seq<char>): (i: nat)
    ensures i <= |s| && (i < |s| ==> s[i] == NL)
    ensures forall k :: 0 <= k < i ==> s[k] != NL
  {
    if s == [] || s[0] == NL then 0 else 1 + FirstNl(s[1..])
  }

  /** Index behind the last newline, or 0. */
  function PastLastNl(s: seq<char>): (i: nat)
    ensures i <= |s| && (i > 0 ==> s[i-1] == NL)
    ensures forall k :: i <= k < |s| ==> s[k] != NL
  {
    if s == [] then 0 else if s[|s|-1] == NL then |s| else PastLastNl(s[..|s|-1])
  }

  /** The complete lines, without their newlines. */
  function Lines(s: seq<char>): seq<seq<char>>
    decreases |s|
  {
    var i := FirstNl(s);
    if i == |s| then [] else [s[..i]] + Lines(s[i+1..])
  }

  /** What follows the last newline. */
  function Tail(s: seq<char>): (t: seq<char>)
    ensures |t| <= |s| && NL !in t
    decreases |s|
  {
    var i := FirstNl(s);
    if i == |s| then s else Tail(s[i+1..])
  }

  function Unlines(ls: seq<seq<char>>): seq<char>
  {
    if ls == [] then [] else ls[0] + [NL] + Unlines(ls[1..])
  }

  function Reverse<T>(s: seq<T>): (r: seq<T>)
    ensures |r| == |s| && forall i :: 0 <= i < |s| ==> r[i] == s[|s|-1-i]
  {
    if s == [] then [] else Reverse(s[1..]) + [s[0]]
  }

  lemma {:induction false} FirstNlIs(s: seq<char>, i: nat)
    requires i < |s| && s[i] == NL && NL !in s[..i]
    ensures FirstNl(s) == i
  {
    assert forall k :: 0 <= k < i ==> s[k] == s[..i][k];
  }

  /** A stream is its lines and its tail: nothing is lost or invented. */
  lemma {:induction false} LinesAndTail(s: seq<char>)
    ensures Unlines(Lines(s)) + Tail(s) == s
    ensures forall l :: l in Lines(s) ==> NL !in l
    decreases |s|
  {
    var i := FirstNl(s);
    if i < |s| {
      var head, rest := s[..i], s[i+1..];
      LinesAndTail(rest);
      SplitAtNl(s);
      UnlinesCons(head, Lines(rest));
      Assoc(head + [NL], Unlines(Lines(rest)), Tail(rest));
    } else {
      assert Unlines([]) == [] && [] + s == s;
    }
  }

  lemma {:induction false} UnlinesCons(l: seq<char>, ls: seq<seq<char>>)
    ensures Unlines([l] + ls) == l + [NL] + Unlines(ls)
  {
    assert ([l] + ls)[1..] == ls;
  }

  /** Splitting a stream after its first line. */
  lemma {:induction false} ConsLine(l: seq<char>, s: seq<char>)
    requires NL !in l
    ensures Lines(l + [NL] + s) == [l] + Lines(s) && Tail(l + [NL] + s) == Tail(s)
  {
    var t := l + [NL] + s;
    assert t[..|l|] == l && t[|l|+1..] == s;
    FirstNlIs(t, |l|);
  }

  /** The lines of a stream that arrives in two parts: the second part only continues the
      tail of the first. */
  lemma {:induction false} LinesAppend(a: seq<char>, b: seq<char>)
    ensures Lines(a + b) == Lines(a) + Lines(Tail(a) + b)
    ensures Tail(a + b) == Tail(Tail(a) + b)
    decreases |a|
  {
    var i := FirstNl(a);
    if i < |a| {
      var head, rest := a[..i], a[i+1..];
      LinesAppend(rest, b);
      TwoParts(head, rest, b);
      SplitAtNl(a);
    } else {
      NoLine(a, b);
    }
  }

  lemma {:induction false} SplitAtNl(a: seq<char>)
    requires FirstNl(a) < |a|
    ensures a == a[..FirstNl(a)] + [NL] + a[FirstNl(a)+1..]
  {}

  lemma {:induction false} NoLine(a: seq<char>, b: seq<char>)
    requires FirstNl(a) == |a|
    ensures Lines(a + b) == Lines(a) + Lines(Tail(a) + b) && Tail(a + b) == Tail(Tail(a) + b)
  {
    assert Lines(a) == [] && Tail(a) == a;
  }

  lemma {:induction false} TwoParts(head: seq<char>, rest: seq<char>, b: seq<char>)
    requires NL !in head
    requires Lines(rest + b) == Lines(rest) + Lines(Tail(rest) + b) && Tail(rest + b) == Tail(Tail(rest) + b)
    ensures var a := head + [NL] + rest;
      Lines(a + b) == Lines(a) + Lines(Tail(a) + b) && Tail(a + b) == Tail(Tail(a) + b)
  {
    ConsLine(head, rest);
    Assoc(head + [NL], rest, b);
    ConsLine(head, rest + b);
    Assoc([head], Lines(rest), Lines(Tail(rest) + b));
  }

  /** A line with its newline is no longer than the text it is in. */
  lemma {:induction false} LineLength(s: seq<char>, l: seq<char>)
    requires l in Lines(s)
    ensures |l| + 1 <= |s|
    decreases |s|
  {
    var i := FirstNl(s);
    if l != s[..i] { LineLength(s[i+1..], l); }
  }

  /** A newline-terminated text has no tail. */
  lemma {:induction false} NoTail(s: seq<char>)
    requires s == [] || s[|s|-1] == NL
    ensures Tail(s) == [] && (s != [] ==> Lines(s) != [])
    decreases |s|
  {
    var i := FirstNl(s);
    if s != [] { NoTail(s[i+1..]); }
  }

  /** The last line of a newline-terminated text. */
  lemma {:induction false} LastLine(s: seq<char>, l: seq<char>)
    requires NL !in l && (s == [] || s[|s|-1] == NL)
    ensures Lines(s + l + [NL]) == Lines(s) + [l]
    decreases |s|
  {
    if s == [] {
      ConsLine(l, []);
      assert s + l + [NL] == l + [NL] + [];
    } else {
      var i := FirstNl(s);
      var head, rest := s[..i], s[i+1..];
      assert s == head + [NL] + rest;
      LastLine(rest, l);
      ConsLine(head, rest);
      ConsLine(head, rest + l + [NL]);
      Assoc(head + [NL], rest, l);
      Assoc(head + [NL], rest + l, [NL]);
      Assoc([head], Lines(rest), [l]);
    }
  }

  lemma {:induction false} LinesOfUnlines(ls: seq<seq<char>>)
    requires forall l :: l in ls ==> NL !in l
    ensures Lines(Unlines(ls)) == ls && Tail(Unlines(ls)) == []
  {
    if ls != [] {
      LinesOfUnlines(ls[1..]);
      ConsLine(ls[0], Unlines(ls[1..]));
    }
  }

  /** Handing over the first line moves it from the text to the calls made. */
  lemma {:induction false} FirstHandedOver(calls: seq<seq<char>>, s: seq<char>)
    requires FirstNl(s) < |s|
    ensures calls + [s[0..FirstNl(s)]] + Lines(s[FirstNl(s)+1..]) == calls + Lines(s)
  {
    assert s[0..FirstNl(s)] == s[..FirstNl(s)];
    Assoc(calls, [s[..FirstNl(s)]], Lines(s[FirstNl(s)+1..]));
  }

  lemma {:induction false} TailBehindFirst(s: seq<char>)
    requires FirstNl(s) < |s|
    ensures Tail(s[FirstNl(s)+1..]) == Tail(s)
  {}

  lemma {:induction false} Assoc<T>(a: seq<T>, b: seq<T>, c: seq<T>)
    ensures a + b + c == a + (b + c)
  {}
}
