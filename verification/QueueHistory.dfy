/** The queue that delays malloc messages by a cycle, as a list of messages and what stays
    behind them in the buffer; and what a history of appending and cancelling leaves there.
    (src/memmgmt.cpp, src/ugtrain.cpp) */
module QueueHistory {

  /** Whether a message fits behind the others: not when it is too long; and when a single byte
      is left, not even its first character does. */
  datatype Fit = Fits | TooLong | NoByteLeft

  /** How a message of that length fits behind `end` characters; its newline and a zero must
      follow. */
  function FitFor(size: nat, end: nat, length: nat): Fit
  {
    if end + length + 1 < size then Fits else if end + 2 <= size then TooLong else NoByteLeft
  }

  /** What stands behind the queued messages: nothing, the first character of a message that
      was too long, or, when the queue is empty, a whole cancelled message. */
  datatype Behind<T> = Nothing | FirstChar | StaleLine(line: T)

  datatype Line<T> = Line(items: seq<T>, behind: Behind<T>)

  datatype Op<T> = Append(item: T, fit: Fit) | Cancel(index: nat)

  /** The items without number k. */
  function Without<T>(items: seq<T>, k: nat): seq<T>
  {
    if k < |items| then items[..k] + items[k+1..] else items
  }

  /** Cancelling moves the character behind the queue along.  It takes the place of the first
      one of the last message cancelled, whose text thereby stays readable. */
  function Next<T>(l: Line<T>, op: Op<T>): Line<T>
  {
    match op
    case Append(x, Fits) => Line(l.items + [x], Nothing)
    case Append(_, TooLong) => Line(l.items, FirstChar)
    case Append(_, NoByteLeft) => l
    case Cancel(k) =>
      Line(Without(l.items, k), if k < |l.items| == 1 && l.behind.FirstChar? then StaleLine(l.items[0]) else l.behind)
  }

  /** Where the text of the items ends, each with a newline behind it. */
  function EndOf<T>(items: seq<T>, length: T -> nat): nat
  {
    if items == [] then 0 else EndOf(items[..|items|-1], length) + length(items[|items|-1]) + 1
  }

  lemma {:induction false} EndOneMore<T>(items: seq<T>, x: T, length: T -> nat)
    ensures EndOf(items + [x], length) == EndOf(items, length) + length(x) + 1
  {
    assert (items + [x])[..|items|] == items;
  }

  lemma {:induction false} WithoutOneMore<T>(items: seq<T>, x: T, k: nat)
    ensures Without(items + [x], k) == if k < |items| then Without(items, k) + [x] else if k == |items| then items
      else items + [x]
  {}

  lemma {:induction false} EndWithout<T>(items: seq<T>, k: nat, length: T -> nat)
    requires k < |items|
    ensures EndOf(Without(items, k), length) + length(items[k]) + 1 == EndOf(items, length)
  {
    var init, x := items[..|items|-1], items[|items|-1];
    assert items == init + [x];
    WithoutOneMore(init, x, k);
    if k < |init| {
      EndWithout(init, k, length);
      EndOneMore(Without(init, k), x, length);
    }
  }

  /** The text and a zero stay inside the buffer. */
  lemma {:induction false} NextInside<T>(l: Line<T>, op: Op<T>, length: T -> nat, size: nat)
    requires EndOf(l.items, length) < size
    requires op.Append? ==> op.fit == FitFor(size, EndOf(l.items, length), length(op.item))
    ensures EndOf(Next(l, op).items, length) < size
  {
    match op
    case Append(x, _) => EndOneMore(l.items, x, length);
    case Cancel(k) => if k < |l.items| { EndWithout(l.items, k, length); }
  }

  /** A history since the queue was last processed. */
  function After<T>(h: seq<Op<T>>): Line<T>
  {
    if h == [] then Line([], Nothing) else Next(After(h[..|h|-1]), h[|h|-1])
  }

  lemma {:induction false} AfterOneMore<T>(h: seq<Op<T>>, op: Op<T>)
    ensures After(h + [op]) == Next(After(h), op)
  {
    assert (h + [op])[..|h|] == h;
  }

  /** What the parser hands over: a stale line instead of an empty queue. */
  function Handed<T>(l: Line<T>): seq<T>
  {
    if l.items == [] && l.behind.StaleLine? then [l.behind.line] else l.items
  }

  /** Entry i of the history was too long behind other messages, and is the last that left a
      character. */
  ghost predicate LeftBehind<T>(h: seq<Op<T>>, i: nat)
  {
    && i < |h| && h[i].Append? && h[i].fit.TooLong? && After(h[..i]).items != []
    && forall j :: i < j < |h| && h[j].Append? ==> h[j].fit.NoByteLeft?
  }

  lemma {:induction false} OneLess<T>(h: seq<Op<T>>, i: nat)
    requires i + 1 < |h|
    ensures LeftBehind(h, i) <==> LeftBehind(h[..|h|-1], i) && (h[|h|-1].Append? ==> h[|h|-1].fit.NoByteLeft?)
  {
    var g := h[..|h|-1];
    assert g[..i] == h[..i];
    assert forall j :: i < j < |g| ==> g[j] == h[j];
  }

  lemma {:induction false} LastLeft<T>(h: seq<Op<T>>)
    requires h != []
    ensures LeftBehind(h, |h| - 1) <==> h[|h|-1].Append? && h[|h|-1].fit.TooLong? && After(h[..|h|-1]).items != []
  {}

  ghost predicate SomeLeftBehind<T>(h: seq<Op<T>>)
  {
    exists i: nat :: LeftBehind(h, i)
  }

  lemma {:induction false} StepLeft<T>(h: seq<Op<T>>)
    requires h != []
    ensures SomeLeftBehind(h) <==>
      match h[|h|-1]
      case Append(_, fit) =>
        (fit.TooLong? && After(h[..|h|-1]).items != []) || (fit.NoByteLeft? && SomeLeftBehind(h[..|h|-1]))
      case Cancel(_) => SomeLeftBehind(h[..|h|-1])
  {
    var n := |h| - 1;
    LastLeft(h);
    if i: nat :| LeftBehind(h, i) {
      if i < n { OneLess(h, i); }
    }
    if i: nat :| LeftBehind(h[..n], i) { OneLess(h, i); }
  }

  ghost predicate CharBehind<T>(l: Line<T>)
  {
    l.behind.StaleLine? || (l.behind.FirstChar? && l.items != [])
  }

  lemma {:induction false} CharBehindIff<T>(h: seq<Op<T>>)
    ensures CharBehind(After(h)) <==> SomeLeftBehind(h)
    ensures After(h).behind.StaleLine? ==> After(h).items == []
  {
    if h != [] {
      CharBehindIff(h[..|h|-1]);
      StepLeft(h);
    }
  }

  /** The parser hands over exactly the queued messages, unless the queue is empty and the last
      message to leave a character was too long for the room behind others, all of which have
      been cancelled since. */
  lemma {:induction false} HandedIff<T>(h: seq<Op<T>>)
    ensures Handed(After(h)) == After(h).items <==> !(After(h).items == [] && SomeLeftBehind(h))
  {
    CharBehindIff(h);
  }
}
