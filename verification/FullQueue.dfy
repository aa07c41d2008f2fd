/** What a game does to the malloc queue of 4 * PIPE_BUF bytes (src/util.h) when it allocates
    several hundred objects within a cycle: the messages are those of the hooks, in full. */
module FullQueue {
  import opened Common
  import opened Numbers
  import opened Messages
  import opened Lifetime
  import opened Compaction
  import opened Tracking
  import opened MallocQueue
  import Q = QueueHistory

  // ---------------------------------------------------------------------------
  // Objects and their messages
  // ---------------------------------------------------------------------------

  const Code := 0x400a3c

  /** Objects of 24 bytes, those from number `big` on of 128 bytes. */
  function Addr(i: nat): nat { 0x7f5a40000000 + 160 * i }

  function SizeOf(i: nat, big: nat): nat { if i < big then 24 else 128 }

  function Announcement(i: nat, big: nat): Message { Malloc(Addr(i), SizeOf(i, big), Code) }

  function Text(i: nat, big: nat): seq<char> { Encode(Announcement(i, big)) }

  /** Messages of the objects from `i` to `n`. */
  function Texts(i: nat, n: nat, big: nat): (r: seq<seq<char>>)
    requires i <= n
    ensures |r| == n - i
  {
    seq(n - i, k requires 0 <= k < n - i => Text(i + k, big))
  }

  /** Where the first n messages end. */
  function EndAt(n: nat, big: nat): nat { 30 * n + if n > big then n - big else 0 }

  lemma {:induction false} TextLength(i: nat, big: nat)
    requires i < 1000
    ensures |Text(i, big)| == if i < big then 29 else 30
  {
    assert Power(16, 11) == 0x100000000000 && Power(16, 12) == 0x1000000000000;
    assert Power(16, 5) == 0x100000 && Power(16, 6) == 0x1000000;
    assert Power(10, 1) == 10 && Power(10, 2) == 100 && Power(10, 3) == 1000;
    PrintedLength(Addr(i), 16, 12);
    PrintedLength(Code, 16, 6);
    PrintedLength(SizeOf(i, big), 10, if i < big then 2 else 3);
    PartsLength(Addr(i), SizeOf(i, big), Code);
  }

  lemma {:induction false} PartsLength(addr: nat, size: nat, code: nat)
    ensures |Encode(Malloc(addr, size, code))| == 9 + |Print(addr, 16)| + |Print(size, 10)| + |Print(code, 16)|
  {}

  lemma {:induction false} FirstText(i: nat, n: nat, big: nat)
    requires i < n
    ensures Texts(i, n, big)[0] == Text(i, big) && Q.Without(Texts(i, n, big), 0) == Texts(i + 1, n, big)
  {
    assert Texts(i, n, big)[0] == Text(i + 0, big);
    forall k | 0 <= k < n - i - 1 ensures Q.Without(Texts(i, n, big), 0)[k] == Texts(i + 1, n, big)[k] {
      assert Texts(i, n, big)[k + 1] == Text(i + (k + 1), big) && Texts(i + 1, n, big)[k] == Text(i + 1 + k, big);
      assert i + (k + 1) == i + 1 + k;
    }
  }

  lemma {:induction false} FirstIsFound(i: nat, n: nat, big: nat)
    requires i < n
    ensures FindAddr(Texts(i, n, big), Addr(i)) == 0 && Q.Without(Texts(i, n, big), 0) == Texts(i + 1, n, big)
  {
    FirstText(i, n, big);
    MallocLineIsQueueable(Addr(i), SizeOf(i, big), Code);
  }

  lemma {:induction false} OneMoreText(n: nat, big: nat)
    ensures Texts(0, n, big) + [Text(n, big)] == Texts(0, n + 1, big)
  {}

  // ---------------------------------------------------------------------------
  // The buffer
  // ---------------------------------------------------------------------------

  /** The queue holds the messages of the objects from `i` to `n`. */
  ghost predicate Holds(q: Queue, i: nat, n: nat, big: nat)
    reads q, q.data
  {
    q.Valid() && i <= n && q.msgs == Texts(i, n, big)
  }

  method QueueOne(q: Queue, n: nat, big: nat)
    requires Holds(q, 0, n, big) && n < 1000 && q.end == EndAt(n, big) && EndAt(n + 1, big) < q.data.Length
    modifies q, q.data
    ensures Holds(q, 0, n + 1, big) && q.end == EndAt(n + 1, big)
  {
    TextLength(n, big);
    MallocLineIsQueueable(Addr(n), SizeOf(n, big), Code);
    OneMoreText(n, big);
    var queued, inside := q.QueueMessage(Text(n, big));
  }

  lemma {:induction false} EndGrows(i: nat, n: nat, big: nat)
    requires i <= n
    ensures EndAt(i, big) <= EndAt(n, big)
  {}

  method Fill(q: Queue, big: nat, n: nat)
    requires Holds(q, 0, 0, big) && q.end == 0 && n < 1000 && EndAt(n, big) < q.data.Length
    modifies q, q.data
    ensures Holds(q, 0, n, big) && q.end == EndAt(n, big)
  {
    var i := 0;
    while i < n
      invariant i <= n && Holds(q, 0, i, big) && q.end == EndAt(i, big)
    {
      EndGrows(i + 1, n, big);
      QueueOne(q, i, big);
      i := i + 1;
    }
  }

  /** One more message that leaves its first character behind the others. */
  method Drop(q: Queue, n: nat, big: nat)
    requires Holds(q, 0, n, big) && n < 1000 && q.data.Length <= q.end + 30 && q.end + 2 <= q.data.Length
    modifies q, q.data
    ensures Holds(q, 0, n, big) && q.behind == Q.FirstChar
  {
    TextLength(n, big);
    MallocLineIsQueueable(Addr(n), SizeOf(n, big), Code);
    ghost var h, op := q.hist, Q.Append(Text(n, big), Q.FitFor(q.data.Length, q.end, |Text(n, big)|));
    var queued, inside := q.QueueMessage(Text(n, big));
    Q.AfterOneMore(h, op);
  }

  /** What stands behind when the objects up to `i` have been freed. */
  ghost function BehindAt(i: nat, n: nat, big: nat): Q.Behind<seq<char>>
  {
    if 0 < n <= i then Q.StaleLine(Text(n - 1, big)) else Q.FirstChar
  }

  method CancelOne(q: Queue, i: nat, n: nat, big: nat)
    requires i < n && Holds(q, i, n, big) && q.behind == Q.FirstChar
    modifies q, q.data
    ensures Holds(q, i + 1, n, big) && q.behind == BehindAt(i + 1, n, big)
  {
    FirstIsFound(i, n, big);
    ghost var h := q.hist;
    var removed := q.RemoveMalloc(Addr(i));
    Q.AfterOneMore(h, Q.Cancel(0));
  }

  /** The objects are freed, oldest first. */
  method CancelAll(q: Queue, n: nat, big: nat)
    requires 0 < n && Holds(q, 0, n, big) && q.behind == Q.FirstChar
    modifies q, q.data
    ensures Holds(q, n, n, big) && q.behind == Q.StaleLine(Text(n - 1, big))
  {
    var i := 0;
    while i < n
      invariant i <= n && Holds(q, i, n, big) && q.behind == BehindAt(i, n, big)
    {
      CancelOne(q, i, n, big);
      i := i + 1;
    }
  }

  /** 546 objects of 24 bytes are queued, another one is dropped, and all are freed again.  The
      queue is empty then, but the parser hands over the last one cancelled. */
  method CancelledIsHandedOver() returns (handed: seq<seq<char>>, wild: bool)
    ensures handed == [Encode(Malloc(Addr(545), 24, Code))] && wild
  {
    var q := new Queue(QueueSize);
    Fill(q, 547, 546);
    Drop(q, 546, 547);
    CancelAll(q, 546, 547);
    handed, wild := q.ProcessMallocs();
  }

  /** 543 objects of 24 bytes and three of 128 bytes: their messages fill the buffer up to its
      last byte.  The zero behind the first character of the next message is written behind the
      buffer. */
  method FilledToLastByte() returns (inside: bool)
    ensures !inside
  {
    var q := new Queue(QueueSize);
    Fill(q, 543, 546);
    MallocLineIsQueueable(Addr(546), 24, Code);
    var queued;
    queued, inside := q.QueueMessage(Encode(Malloc(Addr(546), 24, Code)));
  }

  // ---------------------------------------------------------------------------
  // Whole runs of game and trainer
  // ---------------------------------------------------------------------------

  /** One class, created from the code address. */
  function Class(): seq<ClassKey> { [ClassKey(Code, [], NoGrow)] }

  function Objects(i: nat, n: nat): set<nat> { set k | i <= k < n :: Addr(k) }

  function QueuedAt(i: nat, big: nat): Queued { Queued(Addr(i), SizeOf(i, big), Code) }

  function QueueOf(i: nat, n: nat, big: nat): (r: seq<Queued>)
    requires i <= n
    ensures |r| == n - i && forall k :: 0 <= k < |r| ==> r[k] == QueuedAt(i + k, big)
  {
    seq(n - i, k requires 0 <= k < n - i => QueuedAt(i + k, big))
  }

  /** The game runs with these objects, all announced, and the trainer has read everything. */
  function Running(objects: set<nat>, l: Q.Line<Queued>, dropped: multiset<nat>): State
  {
    State(objects, {}, {}, objects, [], false, DrainRunning, [[]], l.items, l.behind, dropped, multiset{})
  }

  /** The same with a message unread. */
  function Unread(objects: set<nat>, l: Q.Line<Queued>, dropped: multiset<nat>, m: Message): State
  {
    State(objects, {}, {}, objects, [m], false, DrainRunning, [[]], l.items, l.behind, dropped, multiset{})
  }

  lemma {:induction false} OneRead(run: seq<Step>, objects: set<nat>, l: Q.Line<Queued>, dropped: multiset<nat>,
        m: Message) returns (r: seq<Step>)
    requires Legal(Class(), run) && After(Class(), run) == Unread(objects, l, dropped, m)
    ensures
      var s := Running(objects, l, dropped);
      Legal(Class(), r) && After(Class(), r) == OnMsg(s, m, FitOf(s, m))
  {
    OneMore(Class(), run, Read);
    r := run + [Read];
    assert [m][1..] == [];
    assert Unread(objects, l, dropped, m).(fifo := []) == Running(objects, l, dropped);
  }

  /** An object is allocated and its message read. */
  lemma {:induction false} Allocated(run: seq<Step>, objects: set<nat>, l: Q.Line<Queued>, dropped: multiset<nat>,
        a: nat, size: nat) returns (r: seq<Step>)
    requires Legal(Class(), run) && After(Class(), run) == Running(objects, l, dropped) && a != 0 && a !in objects
    ensures
      var s, m := Running(objects + {a}, l, dropped), Malloc(a, size, Code);
      Legal(Class(), r) && After(Class(), r) == OnMsg(s, m, FitOf(s, m))
  {
    var k, hook := Class(), MallocHook(a, size, Some(Code));
    OneMore(k, run, RealMalloc(a));
    r := run + [RealMalloc(a)];
    OneMore(k, r, hook);
    r := r + [hook];
    assert {a} - {a} == {} && [] + [Malloc(a, size, Code)] == [Malloc(a, size, Code)];
    r := OneRead(r, objects + {a}, l, dropped, Malloc(a, size, Code));
  }

  /** An object is freed and its message read. */
  lemma {:induction false} Freed(run: seq<Step>, objects: set<nat>, l: Q.Line<Queued>, dropped: multiset<nat>, a: nat)
    returns (r: seq<Step>)
    requires Legal(Class(), run) && After(Class(), run) == Running(objects, l, dropped) && a in objects
    ensures
      var s := Running(objects - {a}, l, dropped);
      Legal(Class(), r) && After(Class(), r) == OnMsg(s, Free(a), FitOf(s, Free(a)))
  {
    var k := Class();
    OneMore(k, run, FreeHook(a));
    r := run + [FreeHook(a)];
    OneMore(k, r, RealFree(a));
    r := r + [RealFree(a)];
    assert {a} - {a} == {} && [] + [Free(a)] == [Free(a)];
    r := OneRead(r, objects - {a}, l, dropped, Free(a));
  }

  lemma {:induction false} ObjectsGrow(i: nat, n: nat)
    requires i <= n
    ensures Objects(i, n + 1) == Objects(i, n) + {Addr(n)} && Addr(n) !in Objects(i, n)
  {}

  lemma {:induction false} ObjectsShrink(i: nat, n: nat)
    requires i < n
    ensures Objects(i + 1, n) == Objects(i, n) - {Addr(i)} && Addr(i) in Objects(i, n)
  {}

  /** Text and length of the queued messages. */
  lemma {:induction false} QueueGrows(n: nat, big: nat)
    requires n < 1000 && EndOf(QueueOf(0, n, big)) == EndAt(n, big)
    ensures QueueOf(0, n + 1, big) == QueueOf(0, n, big) + [QueuedAt(n, big)]
    ensures EndOf(QueueOf(0, n + 1, big)) == EndAt(n + 1, big)
  {
    assert QueueOf(0, n + 1, big) == QueueOf(0, n, big) + [QueuedAt(n, big)];
    Q.EndOneMore(QueueOf(0, n, big), QueuedAt(n, big), LengthOf);
    TextLength(n, big);
  }

  lemma {:induction false} OneAppended(objects: set<nat>, l: Q.Line<Queued>, dropped: multiset<nat>, a: nat, size: nat)
    requires EndOf(l.items) + LengthOf(Queued(a, size, Code)) + 1 < QueueSize
    ensures
      var s, m := Running(objects, l, dropped), Malloc(a, size, Code);
      OnMsg(s, m, FitOf(s, m)) == Running(objects, Q.Line(l.items + [Queued(a, size, Code)], Q.Nothing), dropped)
  {}

  /** The first n objects are allocated and their messages queued. */
  lemma {:induction false} AllQueued(n: nat, big: nat) returns (run: seq<Step>)
    requires n < 1000 && EndAt(n, big) < QueueSize
    ensures EndOf(QueueOf(0, n, big)) == EndAt(n, big) && Legal(Class(), run)
    ensures
      After(Class(), run) == Running(Objects(0, n), Q.Line(QueueOf(0, n, big), Q.Nothing), multiset{})
  {
    if n == 0 {
      run := [];
      assert Objects(0, 0) == {} && Start(1).classes == [[]];
    } else {
      EndGrows(n - 1, n, big);
      run := AllQueued(n - 1, big);
      run := QueuedToo(run, n - 1, big);
    }
  }

  lemma {:induction false} QueuedToo(run: seq<Step>, n: nat, big: nat) returns (r: seq<Step>)
    requires n < 1000 && EndAt(n + 1, big) < QueueSize && EndOf(QueueOf(0, n, big)) == EndAt(n, big)
    requires Legal(Class(), run) &&
      After(Class(), run) == Running(Objects(0, n), Q.Line(QueueOf(0, n, big), Q.Nothing), multiset{})
    ensures EndOf(QueueOf(0, n + 1, big)) == EndAt(n + 1, big) && Legal(Class(), r)
    ensures
      After(Class(), r) == Running(Objects(0, n + 1), Q.Line(QueueOf(0, n + 1, big), Q.Nothing), multiset{})
  {
    var l := Q.Line(QueueOf(0, n, big), Q.Nothing);
    ObjectsGrow(0, n);
    r := Allocated(run, Objects(0, n), l, multiset{}, Addr(n), SizeOf(n, big));
    TextLength(n, big);
    OneAppended(Objects(0, n + 1), l, multiset{}, Addr(n), SizeOf(n, big));
    QueueGrows(n, big);
  }

  lemma {:induction false} OneLost(objects: set<nat>, l: Q.Line<Queued>, a: nat, size: nat)
    requires EndOf(l.items) + 2 <= QueueSize <= EndOf(l.items) + LengthOf(Queued(a, size, Code)) + 1
    ensures
      var s, m := Running(objects, l, multiset{}), Malloc(a, size, Code);
      OnMsg(s, m, FitOf(s, m)) == Running(objects, Q.Line(l.items, Q.FirstChar), multiset{a})
  {}

  /** The queue is filled and one more message dropped. */
  lemma {:induction false} OneDropped() returns (run: seq<Step>)
    ensures Legal(Class(), run)
    ensures
      After(Class(), run) == Running(Objects(0, 547), Q.Line(QueueOf(0, 546, 547), Q.FirstChar), multiset{Addr(546)})
  {
    run := AllQueued(546, 547);
    var l := Q.Line(QueueOf(0, 546, 547), Q.Nothing);
    ObjectsGrow(0, 546);
    run := Allocated(run, Objects(0, 546), l, multiset{}, Addr(546), 24);
    TextLength(546, 547);
    OneLost(Objects(0, 547), l, Addr(546), 24);
  }

  /** What stands behind when the objects up to `i` have been freed. */
  function QueuedBehind(i: nat): Q.Behind<Queued>
  {
    if i < 546 then Q.FirstChar else Q.StaleLine(QueuedAt(545, 547))
  }

  lemma {:induction false} OneCancelled(objects: set<nat>, i: nat, dropped: multiset<nat>)
    requires i < 546
    ensures
      var s := Running(objects, Q.Line(QueueOf(i, 546, 547), Q.FirstChar), dropped);
      OnMsg(s, Free(Addr(i)), FitOf(s, Free(Addr(i)))) ==
        Running(objects, Q.Line(QueueOf(i + 1, 546, 547), QueuedBehind(i + 1)), dropped)
  {
    assert QueueOf(i, 546, 547)[0].addr == Addr(i);
    assert Q.Without(QueueOf(i, 546, 547), 0) == QueueOf(i + 1, 546, 547);
  }

  /** The objects up to `i` are freed and their messages cancelled. */
  lemma {:induction false} Cancelled(i: nat) returns (run: seq<Step>)
    requires i <= 546
    ensures Legal(Class(), run)
    ensures
      After(Class(), run) ==
        Running(Objects(i, 547), Q.Line(QueueOf(i, 546, 547), QueuedBehind(i)), multiset{Addr(546)})
  {
    if i == 0 {
      run := OneDropped();
    } else {
      run := Cancelled(i - 1);
      ObjectsShrink(i - 1, 547);
      var l := Q.Line(QueueOf(i - 1, 546, 547), QueuedBehind(i - 1));
      run := Freed(run, Objects(i - 1, 547), l, multiset{Addr(546)}, Addr(i - 1));
      OneCancelled(Objects(i, 547), i - 1, multiset{Addr(546)});
    }
  }

  /** Nothing is queued, but the message of a freed object stands there. */
  lemma {:induction false} AllCancelled() returns (run: seq<Step>)
    ensures Legal(Class(), run)
    ensures
      After(Class(), run) ==
        Running({Addr(546)}, Q.Line([], Q.StaleLine(Queued(Addr(545), 24, Code))), multiset{Addr(546)})
  {
    run := Cancelled(546);
    assert Objects(546, 547) == {Addr(546)};
  }

  /** A cycle in which the queue overflows and is emptied again by frees ends with a freed
      object tracked. */
  lemma {:induction false} FreedIsTracked() returns (run: seq<Step>)
    ensures Legal(Class(), run) && SomeStalePromoted(Class(), run)
    ensures
      var s := After(Class(), run);
      s.phase.Wild? && s.classes == [[Addr(545)]] && Addr(545) !in s.heap
  {
    var k := Class();
    run := AllCancelled();
    assert Keep<nat>([], []) == [];
    assert CompactedAll([[]]) == [[]];
    run := UpToPromote(k, run);
    var s := After(k, run);
    assert ClassFor(k, Code) == 0;
    assert s.classes[0] + [Addr(545)] == [Addr(545)];
    OneMore(k, run, Promoted);
    assert (run + [Promoted])[..|run|] == run;
    assert StalePromoted(k, run + [Promoted], |run|);
    run := run + [Promoted];
  }

  lemma {:induction false} NoByteForIt(objects: set<nat>, l: Q.Line<Queued>, a: nat, size: nat)
    requires EndOf(l.items) + 1 == QueueSize
    ensures
      var s, m := Running(objects, l, multiset{}), Malloc(a, size, Code);
      OnMsg(s, m, FitOf(s, m)).phase.Wild?
  {}

  /** A cycle in which the messages fill the queue up to its last byte, and one more is read. */
  lemma {:induction false} WrittenBehindQueue() returns (run: seq<Step>)
    ensures Legal(Class(), run) && After(Class(), run).phase.Wild? && !SomeStalePromoted(Class(), run)
  {
    run := AllQueued(546, 543);
    var l := Q.Line(QueueOf(0, 546, 543), Q.Nothing);
    ObjectsGrow(0, 546);
    run := Allocated(run, Objects(0, 546), l, multiset{}, Addr(546), 24);
    NoByteForIt(Objects(0, 547), l, Addr(546), 24);
    InventedIff(Class(), run);
  }
}
