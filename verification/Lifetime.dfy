/** Object lifetimes across two processes.  The game's hooks announce each free before the
    real one and each malloc after the real one (src/linuxhooking/memhooks.c, libmemhack.c);
    the trainer drains the announcements, freezes the game, drains again and only then
    touches memory (src/ugtrain.cpp, main loop). */
module Lifetime {
  import opened Common
  import opened Compaction
  import opened Tracking
  import opened Messages
  import Q = QueueHistory

  datatype Queued = Queued(addr: nat, size: nat, code: nat)

  /** Where the trainer stands in its cycle.  Wild: it has written behind the malloc queue, or
      moved memory by a length below zero; nothing can be said about what it does then. */
  datatype Phase = DrainRunning | Compact | Attach | DrainFrozen | Process | Detach | CompactKicked | Promote | Wild

  datatype State = State(
    heap: set<nat>,              // really allocated
    entering: set<nat>,          // allocated, malloc hook not yet done
    leaving: set<nat>,           // free hook done, not yet really freed
    live: set<nat>,              // addresses libmemhack keeps track of
    fifo: seq<Message>,
    frozen: bool,
    phase: Phase,
    classes: seq<seq<nat>>,      // v_maddr of every class, 0 for a marked object
    queue: seq<Queued>,          // malloc queue
    behind: Q.Behind<Queued>,    // what stands behind the queue in its buffer
    dropped: multiset<nat>,      // announced as allocated, but kicked or never taken up
    invented: multiset<nat>)     // cancelled, but tracked nevertheless

  datatype Step =
    | RealMalloc(addr: nat)
    | MallocHook(addr: nat, size: nat, code: Option<nat>)   // Some for a configured size and code address
    | FreeHook(addr: nat)
    | RealFree(addr: nat)
    | Read                                       // one message
    | Drained
    | Compacted
    | Attached(ok: bool)
    | Kick(class_: nat, idx: nat)                // a failed object check
    | Processed
    | Detached(ok: bool, frozen: bool)
    | KickedCompacted
    | Promoted

  predicate GameStep(step: Step)
  {
    step.RealMalloc? || step.MallocHook? || step.FreeHook? || step.RealFree?
  }

  predicate Enabled(s: State, step: Step)
  {
    (GameStep(step) ==> !s.frozen) &&
    match step
    case RealMalloc(a) => a != 0 && a !in s.heap
    case MallocHook(a, _, _) => a in s.entering
    case FreeHook(a) => a in s.heap && a !in s.entering && a !in s.leaving
    case RealFree(a) => a in s.leaving
    case Read => (s.phase.DrainRunning? || s.phase.DrainFrozen?) && s.fifo != []
    case Drained => (s.phase.DrainRunning? || s.phase.DrainFrozen?) && s.fifo == []
    case Compacted => s.phase.Compact?
    case Attached(_) => s.phase.Attach?
    case Kick(c, i) => s.phase.Process? && c < |s.classes| && i < |s.classes[c]| && s.classes[c][i] != 0
    case Processed => s.phase.Process?
    case Detached(ok, frozen) => s.phase.Detach? && (ok ==> !frozen)
    case KickedCompacted => s.phase.CompactKicked?
    case Promoted => s.phase.Promote?
  }

  /** Index of the first queued malloc with this address, or the length. */
  function FindQueued(q: seq<Queued>, a: nat): (i: nat)
    ensures i <= |q| && (i < |q| ==> q[i].addr == a)
    ensures i == |q| ==> forall k :: 0 <= k < |q| ==> q[k].addr != a
  {
    if q == [] || q[0].addr == a then 0 else 1 + FindQueued(q[1..], a)
  }

  function WithQueue(s: State, op: Q.Op<Queued>): State
  {
    var l := Q.Next(Q.Line(s.queue, s.behind), op);
    s.(queue := l.items, behind := l.behind)
  }

  /** Bytes of the buffer of the queue: 4 * PIPE_BUF. */
  const QueueSize := 16384

  function LengthOf(q: Queued): nat { |Encode(Malloc(q.addr, q.size, q.code))| }

  /** Where the text of the queued messages ends. */
  function EndOf(q: seq<Queued>): nat { Q.EndOf(q, LengthOf) }

  /** Whether a malloc message fits into the queue. */
  function FitOf(s: State, m: Message): Q.Fit
  {
    Q.FitFor(QueueSize, EndOf(s.queue), if m.Malloc? then LengthOf(Queued(m.addr, m.size, m.code)) else 0)
  }

  /** What a message does: a malloc is queued, or dropped when it does not fit; a free cancels a
      queued malloc, or else marks the object. */
  function OnMsg(s: State, m: Message, fit: Q.Fit): State
  {
    match m
    case Malloc(a, size, code) =>
      var t := WithQueue(s, Q.Append(Queued(a, size, code), fit));
      if fit.Fits? then t
      else t.(dropped := s.dropped + multiset{a}, phase := if fit.NoByteLeft? then Wild else s.phase)
    case Free(a) =>
      var i := FindQueued(s.queue, a);
      if i < |s.queue| then WithQueue(s, Q.Cancel(i))
      else if a in KnownAll(s.classes) then s.(classes := Cleared(s.classes, a))
      else s.(dropped := s.dropped - multiset{a})
  }

  /** process_mallocs(): the queued mallocs go to the class that takes their code address. */
  function PromoteAll(keys: seq<ClassKey>, s: State): State
    decreases |s.queue|
  {
    if s.queue == [] then s
    else
      var q, c := s.queue[0], ClassFor(keys, s.queue[0].code);
      var t := if c < |s.classes| then s.(classes := Appended(s.classes, c, q.addr))
        else s.(dropped := s.dropped + multiset{q.addr});
      PromoteAll(keys, t.(queue := s.queue[1..]))
  }

  /** The parser finds a cancelled message instead of an empty queue. */
  predicate StaleQueue(s: State) { s.queue == [] && s.behind.StaleLine? }

  /** process_mallocs(), with the cancelled message handed over when there is one. */
  function Promotion(keys: seq<ClassKey>, s: State): State
  {
    if !StaleQueue(s) then PromoteAll(keys, s).(behind := Q.Nothing, phase := DrainRunning)
    else
      var q, c := s.behind.line, ClassFor(keys, s.behind.line.code);
      var t := s.(phase := Wild);
      if c < |s.classes| then
        t.(classes := Appended(s.classes, c, q.addr), invented := s.invented + multiset{q.addr})
      else t
  }

  function Next(keys: seq<ClassKey>, s: State, step: Step): State
  {
    match step
    case RealMalloc(a) => s.(heap := s.heap + {a}, entering := s.entering + {a})
    case MallocHook(a, _, None) => s.(entering := s.entering - {a})
    case MallocHook(a, size, Some(code)) =>
      s.(entering := s.entering - {a}, live := s.live + {a}, fifo := s.fifo + [Malloc(a, size, code)])
    case FreeHook(a) =>
      if a in s.live then s.(leaving := s.leaving + {a}, live := s.live - {a}, fifo := s.fifo + [Free(a)])
      else s.(leaving := s.leaving + {a})
    case RealFree(a) => s.(heap := s.heap - {a}, leaving := s.leaving - {a})
    case Read => if s.fifo == [] then s else OnMsg(s.(fifo := s.fifo[1..]), s.fifo[0], FitOf(s, s.fifo[0]))
    case Drained => s.(phase := if s.phase.DrainRunning? then Compact else Process)
    case Compacted => s.(classes := CompactedAll(s.classes), phase := Attach)
    case Attached(ok) => if ok then s.(frozen := true, phase := DrainFrozen) else s.(phase := DrainRunning)
    case Kick(c, i) =>
      if c < |s.classes| && i < |s.classes[c]| then
        s.(classes := s.classes[c := s.classes[c][i := 0]], dropped := s.dropped + multiset{s.classes[c][i]})
      else s
    case Processed => s.(phase := Detach)
    case Detached(ok, frozen) => s.(frozen := frozen, phase := if ok then CompactKicked else DrainRunning)
    case KickedCompacted => s.(classes := CompactedAll(s.classes), phase := Promote)
    case Promoted => Promotion(keys, s)
  }

  function Start(n: nat): State
  {
    State({}, {}, {}, {}, [], false, DrainRunning, seq(n, _ => []), [], Q.Nothing, multiset{}, multiset{})
  }

  function After(keys: seq<ClassKey>, run: seq<Step>): State
  {
    if run == [] then Start(|keys|) else Next(keys, After(keys, run[..|run|-1]), run[|run|-1])
  }

  /** Every step of the run was possible when it was taken. */
  predicate Legal(keys: seq<ClassKey>, run: seq<Step>)
  {
    run != [] ==> Legal(keys, run[..|run|-1]) && Enabled(After(keys, run[..|run|-1]), run[|run|-1])
  }

  // ---------------------------------------------------------------------------
  // Conservation
  // ---------------------------------------------------------------------------

  function QueuedAddrs(q: seq<Queued>): multiset<nat>
  {
    if q == [] then multiset{} else multiset{q[0].addr} + QueuedAddrs(q[1..])
  }

  /** Tracked and queued addresses. */
  function Tracked(s: State): multiset<nat>
  {
    KnownAll(s.classes) + QueuedAddrs(s.queue)
  }

  /** Every address the trainer keeps or has lost. */
  function Heard(s: State): multiset<nat>
  {
    Tracked(s) + s.dropped
  }

  /** Those it has been told of and not been told to forget. */
  function Honest(s: State): multiset<nat>
  {
    Heard(s) - s.invented
  }

  function Replay(msgs: seq<Message>, m: multiset<nat>): multiset<nat>
  {
    if msgs == [] then m
    else Replay(msgs[1..], if msgs[0].Malloc? then m + multiset{msgs[0].addr} else m - multiset{msgs[0].addr})
  }

  /** Messages make sense: only unknown addresses are allocated, only known ones freed. */
  ghost predicate Sensible(msgs: seq<Message>, m: multiset<nat>)
  {
    msgs != [] ==>
      && msgs[0].addr != 0
      && (if msgs[0].Malloc? then msgs[0].addr !in m && Sensible(msgs[1..], m + multiset{msgs[0].addr})
          else msgs[0].addr in m && Sensible(msgs[1..], m - multiset{msgs[0].addr}))
  }

  ghost predicate GameInv(s: State)
  {
    && 0 !in s.heap && s.entering <= s.heap && s.leaving <= s.heap && s.live <= s.heap
    && s.live !! s.entering && s.live !! s.leaving && s.entering !! s.leaving
  }

  ghost predicate PhaseInv(s: State)
  {
    && (s.phase.DrainFrozen? ==> s.frozen)
    && (s.phase.Process? || s.phase.Detach? ==> s.frozen && s.fifo == [])
  }

  /** Replaying the messages on what is known yields what lives. */
  ghost predicate Balanced(msgs: seq<Message>, known: multiset<nat>, live: set<nat>)
  {
    Sensible(msgs, known) && Replay(msgs, known) == multiset(live)
  }

  ghost predicate Once(m: multiset<nat>)
  {
    forall a :: m[a] <= 1
  }

  /** Replaying what is unread on what the trainer has heard yields libmemhack's live set;
      no address is known twice. */
  ghost predicate Conserved(s: State)
  {
    Balanced(s.fifo, Honest(s), s.live) && Once(Heard(s)) && 0 !in Heard(s)
  }

  /** Addresses are invented at the very end only; before that, a message behind the empty
      queue is about nothing the trainer knows. */
  ghost predicate QueueInv(s: State)
  {
    && s.invented <= Tracked(s) && (!s.phase.Wild? ==> s.invented == multiset{})
    && (!s.phase.Wild? && s.behind.StaleLine? ==> s.behind.line.addr != 0 && s.behind.line.addr !in Heard(s))
  }

  ghost predicate Inv(s: State)
  {
    GameInv(s) && PhaseInv(s) && Conserved(s) && QueueInv(s)
  }

  lemma {:induction false} SendMalloc(msgs: seq<Message>, m: multiset<nat>, a: nat, size: nat, code: nat)
    requires Sensible(msgs, m) && a !in Replay(msgs, m) && a != 0
    ensures Sensible(msgs + [Malloc(a, size, code)], m)
    ensures Replay(msgs + [Malloc(a, size, code)], m) == Replay(msgs, m) + multiset{a}
  {
    if msgs != [] {
      SendMalloc(msgs[1..], if msgs[0].Malloc? then m + multiset{msgs[0].addr} else
        m - multiset{msgs[0].addr}, a, size, code);
      assert (msgs + [Malloc(a, size, code)])[1..] == msgs[1..] + [Malloc(a, size, code)];
    }
  }

  lemma {:induction false} SendFree(msgs: seq<Message>, m: multiset<nat>, a: nat)
    requires Sensible(msgs, m) && a in Replay(msgs, m) && a != 0
    ensures Sensible(msgs + [Free(a)], m)
    ensures Replay(msgs + [Free(a)], m) == Replay(msgs, m) - multiset{a}
  {
    if msgs != [] {
      SendFree(msgs[1..], if msgs[0].Malloc? then m + multiset{msgs[0].addr} else m - multiset{msgs[0].addr}, a);
      assert (msgs + [Free(a)])[1..] == msgs[1..] + [Free(a)];
    }
  }

  lemma {:induction false} BalancedMalloc(msgs: seq<Message>, m: multiset<nat>, live: set<nat>, a: nat, size: nat,
        code: nat)
    requires Balanced(msgs, m, live) && a !in live && a != 0
    ensures Balanced(msgs + [Malloc(a, size, code)], m, live + {a})
  {
    SendMalloc(msgs, m, a, size, code);
    assert multiset(live + {a}) == multiset(live) + multiset{a};
  }

  lemma {:induction false} BalancedFree(msgs: seq<Message>, m: multiset<nat>, live: set<nat>, a: nat)
    requires Balanced(msgs, m, live) && a in live && a != 0
    ensures Balanced(msgs + [Free(a)], m, live - {a})
  {
    SendFree(msgs, m, a);
    assert multiset(live - {a}) == multiset(live) - multiset{a};
  }

  /** What a message makes of the known addresses. */
  function Told(known: multiset<nat>, m: Message): multiset<nat>
  {
    if m.Malloc? then known + multiset{m.addr} else known - multiset{m.addr}
  }

  lemma {:induction false} BalancedRead(msgs: seq<Message>, known: multiset<nat>, live: set<nat>)
    requires Balanced(msgs, known, live) && msgs != [] && Once(known) && 0 !in known
    ensures var t := Told(known, msgs[0]); Balanced(msgs[1..], t, live) && Once(t) && 0 !in t
    ensures msgs[0].addr != 0 && (msgs[0].Free? ==> msgs[0].addr in known && msgs[0].addr !in Told(known, msgs[0]))
  {}

  lemma {:induction false} LessNothing(m: multiset<nat>)
    ensures m - multiset{} == m
  {}

  lemma {:induction false} LessAdded(m: multiset<nat>, x: multiset<nat>)
    ensures m + x - x == m
  {}

  lemma {:induction false} QueuedAppend(q: seq<Queued>, x: Queued)
    ensures QueuedAddrs(q + [x]) == QueuedAddrs(q) + multiset{x.addr}
  {
    if q != [] {
      QueuedAppend(q[1..], x);
      assert (q + [x])[1..] == q[1..] + [x];
    }
  }

  lemma {:induction false} RemovedTail(q: seq<Queued>, i: nat)
    requires 0 < i < |q|
    ensures (q[..i] + q[i+1..])[1..] == q[1..][..i-1] + q[1..][i..]
  {}

  lemma {:induction false} QueuedRemove(q: seq<Queued>, i: nat)
    requires i < |q|
    ensures QueuedAddrs(q[..i] + q[i+1..]) == QueuedAddrs(q) - multiset{q[i].addr}
    ensures q[i].addr in QueuedAddrs(q)
  {
    if i > 0 {
      QueuedRemove(q[1..], i - 1);
      RemovedTail(q, i);
    } else {
      assert q[..0] + q[1..] == q[1..];
    }
  }

  lemma {:induction false} NotQueued(q: seq<Queued>, a: nat)
    requires forall k :: 0 <= k < |q| ==> q[k].addr != a
    ensures a !in QueuedAddrs(q)
  {
    if q != [] { NotQueued(q[1..], a); }
  }

  lemma {:induction false} TakeFromMiddle(a: multiset<nat>, b: multiset<nat>, c: multiset<nat>, x: nat)
    requires x in b
    ensures a + (b - multiset{x}) + c == a + b + c - multiset{x}
  {}

  lemma {:induction false} TakeFromFirst(a: multiset<nat>, b: multiset<nat>, c: multiset<nat>, x: nat)
    requires x in a
    ensures a - multiset{x} + b + c == a + b + c - multiset{x}
  {}

  lemma {:induction false} TakeFromLast(a: multiset<nat>, b: multiset<nat>, c: multiset<nat>, x: nat)
    requires x in c
    ensures a + b + (c - multiset{x}) == a + b + c - multiset{x}
  {}

  lemma {:induction false} MallocHeard(s: State, a: nat, size: nat, code: nat, fit: Q.Fit)
    ensures Heard(OnMsg(s, Malloc(a, size, code), fit)) == Heard(s) + multiset{a}
  {
    QueuedAppend(s.queue, Queued(a, size, code));
  }

  lemma {:induction false} QueuedFreeHeard(s: State, a: nat, i: nat)
    requires i == FindQueued(s.queue, a) < |s.queue|
    ensures Heard(OnMsg(s, Free(a), Q.Fits)) == Heard(s) - multiset{a}
  {
    var rest := s.queue[..i] + s.queue[i+1..];
    assert OnMsg(s, Free(a), Q.Fits) == s.(queue := rest, behind := OnMsg(s, Free(a), Q.Fits).behind);
    QueuedRemove(s.queue, i);
    HeardIs(OnMsg(s, Free(a), Q.Fits), QueuedAddrs(rest));
    TakeFromMiddle(KnownAll(s.classes), QueuedAddrs(s.queue), s.dropped, a);
  }

  lemma {:induction false} HeardIs(s: State, q: multiset<nat>)
    requires q == QueuedAddrs(s.queue)
    ensures Heard(s) == KnownAll(s.classes) + q + s.dropped
  {}

  lemma {:induction false} KnownFreeHeard(s: State, a: nat)
    requires a != 0 && FindQueued(s.queue, a) == |s.queue| && a in KnownAll(s.classes)
    ensures Heard(OnMsg(s, Free(a), Q.Fits)) == Heard(s) - multiset{a}
  {
    ClearedKnown(s.classes, a);
    TakeFromFirst(KnownAll(s.classes), QueuedAddrs(s.queue), s.dropped, a);
  }

  lemma {:induction false} FreeHeard(s: State, a: nat)
    requires a != 0 && a in Heard(s)
    ensures Heard(OnMsg(s, Free(a), Q.Fits)) == Heard(s) - multiset{a}
  {
    var i := FindQueued(s.queue, a);
    if i < |s.queue| {
      QueuedFreeHeard(s, a, i);
    } else if a in KnownAll(s.classes) {
      KnownFreeHeard(s, a);
    } else {
      NotQueued(s.queue, a);
      TakeFromLast(KnownAll(s.classes), QueuedAddrs(s.queue), s.dropped, a);
    }
  }

  /** A malloc message adds its address to what the trainer has heard, a free message takes
      it away, wherever it is. */
  lemma {:induction false} OnMsgHeard(s: State, m: Message, fit: Q.Fit)
    requires m.addr != 0 && (m.Free? ==> m.addr in Heard(s))
    ensures Heard(OnMsg(s, m, fit)) == Told(Heard(s), m)
  {
    match m
    case Malloc(a, size, code) => MallocHeard(s, a, size, code, fit);
    case Free(a) => FreeHeard(s, a);
  }

  /** Reading a message only touches the trainer's bookkeeping, and ends its defined behaviour
      if and only if a malloc message finds no byte left. */
  lemma {:induction false} OnMsgFrame(s: State, m: Message, fit: Q.Fit)
    ensures
      var t := OnMsg(s, m, fit);
      && t == s.(classes := t.classes, queue := t.queue, behind := t.behind, dropped := t.dropped, phase := t.phase)
      && t.phase == if m.Malloc? && fit.NoByteLeft? then Wild else s.phase
  {}

  /** A message becomes stale when the last queued one is cancelled: its object is known no
      more then. */
  lemma {:induction false} OnMsgBehind(s: State, m: Message, fit: Q.Fit)
    requires !(m.Malloc? && fit.NoByteLeft?)
    ensures
      var t := OnMsg(s, m, fit);
      t.behind.StaleLine? ==> m.Free? && (t.behind == s.behind || t.behind.line.addr == m.addr)
  {}

  lemma {:induction false} KickKnown(classes: seq<seq<nat>>, c: nat, i: nat)
    requires c < |classes| && i < |classes[c]| && classes[c][i] != 0
    ensures KnownAll(classes[c := classes[c][i := 0]]) == KnownAll(classes) - multiset{classes[c][i]}
    ensures classes[c][i] in KnownAll(classes)
  {
    var a := classes[c][i];
    var r := classes[c := classes[c][i := 0]];
    if c > 0 {
      KickKnown(classes[1..], c - 1, i);
      assert r[1..] == classes[1..][c-1 := classes[1..][c-1][i := 0]] && r[0] == classes[0];
      TakeFromRest(Known(classes[0]), KnownAll(classes[1..]), a);
    } else {
      KnownMark(classes[c], i);
      assert r[1..] == classes[1..] && r[0] == classes[0][i := 0];
      TakeFromFirst(Known(classes[0]), KnownAll(classes[1..]), multiset{}, a);
    }
  }

  lemma {:induction false} TakeFromRest(a: multiset<nat>, b: multiset<nat>, x: nat)
    requires x in b
    ensures a + (b - multiset{x}) == a + b - multiset{x}
  {}

  lemma {:induction false} PromoteFrame(keys: seq<ClassKey>, s: State)
    ensures
      var t := PromoteAll(keys, s);
      t == s.(classes := t.classes, queue := [], dropped := t.dropped)
    decreases |s.queue|
  {
    if s.queue != [] {
      var q, c := s.queue[0], ClassFor(keys, s.queue[0].code);
      var t := if c < |s.classes| then s.(classes := Appended(s.classes, c, q.addr))
        else s.(dropped := s.dropped + multiset{q.addr});
      PromoteFrame(keys, t.(queue := s.queue[1..]));
    }
  }

  /** Promoting the queue changes nothing but where the addresses are kept. */
  lemma {:induction false} PromoteKeeps(keys: seq<ClassKey>, s: State)
    requires 0 !in QueuedAddrs(s.queue)
    ensures Heard(PromoteAll(keys, s)) == Heard(s)
    decreases |s.queue|
  {
    if s.queue != [] {
      var q, c := s.queue[0], ClassFor(keys, s.queue[0].code);
      assert q.addr in QueuedAddrs(s.queue);
      if c < |s.classes| {
        AppendedKnown(s.classes, c, q.addr);
        var t := s.(classes := Appended(s.classes, c, q.addr), queue := s.queue[1..]);
        FirstMoved(KnownAll(s.classes), multiset{q.addr}, QueuedAddrs(s.queue[1..]), s.dropped);
        PromoteKeeps(keys, t);
      } else {
        var t := s.(dropped := s.dropped + multiset{q.addr}, queue := s.queue[1..]);
        FirstLost(KnownAll(s.classes), multiset{q.addr}, QueuedAddrs(s.queue[1..]), s.dropped);
        PromoteKeeps(keys, t);
      }
    }
  }

  /** Addresses of the queued messages that class c takes up, in order. */
  ghost function TakenUp(keys: seq<ClassKey>, q: seq<Queued>, c: nat): seq<nat>
  {
    if q == [] then []
    else (if Finds(keys, q[0].code, c) then [q[0].addr] else []) + TakenUp(keys, q[1..], c)
  }

  /** Addresses of those that no class takes up. */
  ghost function TakenByNone(keys: seq<ClassKey>, q: seq<Queued>): multiset<nat>
  {
    if q == [] then multiset{}
    else (if FindsNone(keys, q[0].code) then multiset{q[0].addr} else multiset{}) + TakenByNone(keys, q[1..])
  }

  /** The state once the first queued message has been promoted. */
  lemma {:induction false} PromoteFirst(keys: seq<ClassKey>, s: State, d: nat) returns (t: State)
    requires |keys| == |s.classes| && d < |keys| && s.queue != []
    ensures PromoteAll(keys, t) == PromoteAll(keys, s) && t.queue == s.queue[1..] && |t.classes| == |keys|
    ensures t.classes[d] == s.classes[d] + if Finds(keys, s.queue[0].code, d) then [s.queue[0].addr] else []
  {
    var q, c := s.queue[0], ClassFor(keys, s.queue[0].code);
    ClassForFinds(keys, q.code);
    t := if c < |s.classes| then s.(classes := Appended(s.classes, c, q.addr))
      else s.(dropped := s.dropped + multiset{q.addr});
    t := t.(queue := s.queue[1..]);
  }

  lemma {:induction false} InFront(a: seq<nat>, b: seq<nat>, c: seq<nat>)
    ensures (a + b) + c == a + (b + c)
  {}

  /** Every queued object goes, behind those known before, to the first class that has its code
      address. */
  lemma {:induction false} PromoteWhere(keys: seq<ClassKey>, s: State, d: nat)
    requires |keys| == |s.classes| && d < |keys|
    ensures |PromoteAll(keys, s).classes| == |keys|
    ensures PromoteAll(keys, s).classes[d] == s.classes[d] + TakenUp(keys, s.queue, d)
    decreases |s.queue|
  {
    if s.queue == [] {
      assert s.classes[d] + [] == s.classes[d];
    } else {
      var t := PromoteFirst(keys, s, d);
      PromoteWhere(keys, t, d);
      InFront(s.classes[d], if Finds(keys, s.queue[0].code, d) then [s.queue[0].addr] else [],
        TakenUp(keys, s.queue[1..], d));
    }
  }

  /** And is dropped when there is none. */
  lemma {:induction false} PromoteDrops(keys: seq<ClassKey>, s: State)
    requires |keys| == |s.classes|
    ensures PromoteAll(keys, s).dropped == s.dropped + TakenByNone(keys, s.queue)
    decreases |s.queue|
  {
    if s.queue != [] {
      var q, c := s.queue[0], ClassFor(keys, s.queue[0].code);
      ClassForFinds(keys, q.code);
      var t := if c < |s.classes| then s.(classes := Appended(s.classes, c, q.addr))
        else s.(dropped := s.dropped + multiset{q.addr});
      PromoteDrops(keys, t.(queue := s.queue[1..]));
    }
  }

  lemma {:induction false} FirstMoved(known: multiset<nat>, x: multiset<nat>, rest: multiset<nat>,
        dropped: multiset<nat>)
    ensures known + x + rest + dropped == known + (x + rest) + dropped
  {}

  lemma {:induction false} FirstLost(known: multiset<nat>, x: multiset<nat>, rest: multiset<nat>,
        dropped: multiset<nat>)
    ensures known + rest + (dropped + x) == known + (x + rest) + dropped
  {}

  // ---------------------------------------------------------------------------
  // Every step, every run
  // ---------------------------------------------------------------------------

  lemma {:induction false} GameStepConserves(keys: seq<ClassKey>, s: State, step: Step)
    requires GameInv(s) && Conserved(s) && Enabled(s, step) && GameStep(step)
    ensures Conserved(Next(keys, s, step))
  {
    match step
    case RealMalloc(a) =>
    case MallocHook(a, size, code) => if code.Some? { MallocSent(keys, s, a, size, code.value); }
    case FreeHook(a) => if a in s.live { FreeSent(keys, s, a); }
    case RealFree(a) =>
  }

  lemma {:induction false} MallocSent(keys: seq<ClassKey>, s: State, a: nat, size: nat, code: nat)
    requires GameInv(s) && Conserved(s) && a in s.entering
    ensures Conserved(Next(keys, s, MallocHook(a, size, Some(code))))
  {
    BalancedMalloc(s.fifo, Honest(s), s.live, a, size, code);
  }

  lemma {:induction false} FreeSent(keys: seq<ClassKey>, s: State, a: nat)
    requires GameInv(s) && Conserved(s) && a in s.live
    ensures Conserved(Next(keys, s, FreeHook(a)))
  {
    BalancedFree(s.fifo, Honest(s), s.live, a);
  }

  lemma {:induction false} GameStepKeepsHeap(keys: seq<ClassKey>, s: State, step: Step)
    requires GameInv(s) && Enabled(s, step) && GameStep(step)
    ensures GameInv(Next(keys, s, step))
  {}

  /** The game changes nothing of the trainer. */
  lemma {:induction false} GameStepFrame(keys: seq<ClassKey>, s: State, step: Step)
    requires GameStep(step)
    ensures
      var t := Next(keys, s, step);
      t == s.(heap := t.heap, entering := t.entering, leaving := t.leaving, live := t.live, fifo := t.fifo)
  {}

  lemma {:induction false} GameStepKeepsPhase(keys: seq<ClassKey>, s: State, step: Step)
    requires PhaseInv(s) && Enabled(s, step) && GameStep(step)
    ensures PhaseInv(Next(keys, s, step))
  {
    GameStepFrame(keys, s, step);
  }

  lemma {:induction false} QueueInvSame(s: State, t: State)
    requires QueueInv(s)
    requires t.phase == s.phase && t.classes == s.classes && t.queue == s.queue && t.behind == s.behind
    requires t.dropped == s.dropped && t.invented == s.invented
    ensures QueueInv(t)
  {
    assert Tracked(t) == Tracked(s) && Heard(t) == Heard(s);
  }

  lemma {:induction false} GameStepInv(keys: seq<ClassKey>, s: State, step: Step)
    requires Inv(s) && Enabled(s, step) && GameStep(step)
    ensures Inv(Next(keys, s, step))
  {
    GameStepConserves(keys, s, step);
    GameStepKeepsHeap(keys, s, step);
    GameStepKeepsPhase(keys, s, step);
    GameStepFrame(keys, s, step);
    QueueInvSame(s, Next(keys, s, step));
  }

  lemma {:induction false} ReadConserved(s: State, fit: Q.Fit)
    requires Conserved(s) && s.invented == multiset{} && s.fifo != []
    ensures Conserved(OnMsg(s.(fifo := s.fifo[1..]), s.fifo[0], fit))
  {
    var t, m := s.(fifo := s.fifo[1..]), s.fifo[0];
    LessNothing(Heard(s));
    BalancedRead(s.fifo, Heard(s), s.live);
    assert Heard(t) == Heard(s);
    OnMsgHeard(t, m, fit);
    OnMsgFrame(t, m, fit);
    LessNothing(Told(Heard(s), m));
  }

  lemma {:induction false} ReadBehind(s: State, fit: Q.Fit)
    requires Conserved(s) && QueueInv(s) && s.invented == multiset{} && s.fifo != []
    ensures QueueInv(OnMsg(s.(fifo := s.fifo[1..]), s.fifo[0], fit))
  {
    var t, m := s.(fifo := s.fifo[1..]), s.fifo[0];
    LessNothing(Heard(s));
    BalancedRead(s.fifo, Heard(s), s.live);
    assert Heard(t) == Heard(s);
    OnMsgHeard(t, m, fit);
    OnMsgFrame(t, m, fit);
    if !(m.Malloc? && fit.NoByteLeft?) { OnMsgBehind(t, m, fit); }
  }

  lemma {:induction false} ReadInv(s: State, fit: Q.Fit)
    requires Inv(s) && Enabled(s, Read)
    ensures Inv(OnMsg(s.(fifo := s.fifo[1..]), s.fifo[0], fit))
  {
    ReadConserved(s, fit);
    ReadBehind(s, fit);
    OnMsgFrame(s.(fifo := s.fifo[1..]), s.fifo[0], fit);
  }

  lemma {:induction false} CompactHeard(s: State)
    ensures Heard(s.(classes := CompactedAll(s.classes))) == Heard(s)
  {
    CompactedKnown(s.classes);
  }

  lemma {:induction false} KickHeard(s: State, c: nat, i: nat)
    requires c < |s.classes| && i < |s.classes[c]| && s.classes[c][i] != 0
    ensures
      Heard(s.(classes := s.classes[c := s.classes[c][i := 0]], dropped := s.dropped + multiset{s.classes[c][i]})) ==
        Heard(s)
  {
    KickKnown(s.classes, c, i);
    MovedToLost(KnownAll(s.classes), QueuedAddrs(s.queue), s.dropped, s.classes[c][i]);
  }

  lemma {:induction false} MovedToLost(known: multiset<nat>, queued: multiset<nat>, dropped: multiset<nat>, a: nat)
    requires a in known
    ensures known - multiset{a} + queued + (dropped + multiset{a}) == known + queued + dropped
  {}

  /** Steps between draining and draining only move addresses around, but for the promotion of
      a cancelled message. */
  lemma {:induction false} CycleStepHeard(keys: seq<ClassKey>, s: State, step: Step)
    requires Enabled(s, step) && !GameStep(step) && !step.Read? && 0 !in Heard(s)
    requires !(step.Promoted? && StaleQueue(s))
    ensures Heard(Next(keys, s, step)) == Heard(s)
  {
    match step
    case Drained => assert Heard(Next(keys, s, step)) == Heard(s);
    case Compacted => CompactHeard(s);
    case Attached(ok) => assert Heard(Next(keys, s, step)) == Heard(s);
    case Kick(c, i) => KickHeard(s, c, i);
    case Processed => assert Heard(Next(keys, s, step)) == Heard(s);
    case Detached(ok, frozen) => assert Heard(Next(keys, s, step)) == Heard(s);
    case KickedCompacted => CompactHeard(s);
    case Promoted => PromoteKeeps(keys, s);
  }

  lemma {:induction false} CycleStepFrame(keys: seq<ClassKey>, s: State, step: Step)
    requires Enabled(s, step) && !GameStep(step) && !step.Read?
    requires !(step.Promoted? && StaleQueue(s))
    ensures
      var t := Next(keys, s, step);
      && t == s.(frozen := t.frozen, phase := t.phase, classes := t.classes, queue := t.queue, behind := t.behind,
        dropped := t.dropped)
      && !t.phase.Wild? && (t.behind == s.behind || t.behind.Nothing?)
  {
    if step.Promoted? { PromoteFrame(keys, s); }
  }

  lemma {:induction false} CycleStepPhase(keys: seq<ClassKey>, s: State, step: Step)
    requires PhaseInv(s) && Enabled(s, step) && !GameStep(step) && !step.Read?
    ensures PhaseInv(Next(keys, s, step))
  {
    if step.Promoted? && !StaleQueue(s) { PromoteFrame(keys, s); }
  }

  /** Promoting a cancelled message invents its address, if a class takes its code address. */
  lemma {:induction false} StalePromotion(keys: seq<ClassKey>, s: State)
    requires s.invented == multiset{} && StaleQueue(s) && s.behind.line.addr != 0
    ensures
      var t, taken := Promotion(keys, s), ClassFor(keys, s.behind.line.code) < |s.classes|;
      && t == s.(phase := Wild, classes := t.classes, invented := t.invented)
      && t.invented == (if taken then multiset{s.behind.line.addr} else multiset{})
      && Tracked(t) == Tracked(s) + t.invented
  {
    var q, c := s.behind.line, ClassFor(keys, s.behind.line.code);
    if c < |s.classes| {
      AppendedKnown(s.classes, c, q.addr);
      TakenApart(KnownAll(s.classes), multiset{q.addr}, QueuedAddrs(s.queue));
    }
  }

  lemma {:induction false} TakenApart(a: multiset<nat>, x: multiset<nat>, b: multiset<nat>)
    ensures a + x + b == a + b + x
  {}

  lemma {:induction false} PromotedHonest(keys: seq<ClassKey>, s: State)
    requires s.invented == multiset{} && StaleQueue(s) && s.behind.line.addr != 0
    ensures
      var t := Promotion(keys, s);
      Heard(t) == Heard(s) + t.invented && Honest(t) == Honest(s) == Heard(s)
  {
    var t := Promotion(keys, s);
    StalePromotion(keys, s);
    TakenApart(Tracked(s), t.invented, s.dropped);
    LessNothing(Heard(s));
    LessAdded(Heard(s), t.invented);
  }

  lemma {:induction false} OneMoreOnce(m: multiset<nat>, x: multiset<nat>, a: nat)
    requires Once(m) && a !in m && (x == multiset{} || x == multiset{a})
    ensures Once(m + x)
  {}

  lemma {:induction false} PromotedInv(keys: seq<ClassKey>, s: State)
    requires Inv(s) && Enabled(s, Promoted) && StaleQueue(s)
    ensures Inv(Next(keys, s, Promoted))
  {
    var t := Promotion(keys, s);
    StalePromotion(keys, s);
    PromotedHonest(keys, s);
    OneMoreOnce(Heard(s), t.invented, s.behind.line.addr);
  }

  lemma {:induction false} CycleStepInv(keys: seq<ClassKey>, s: State, step: Step)
    requires Inv(s) && Enabled(s, step) && !GameStep(step) && !step.Read?
    requires !(step.Promoted? && StaleQueue(s))
    ensures Inv(Next(keys, s, step))
  {
    CycleStepHeard(keys, s, step);
    CycleStepFrame(keys, s, step);
    CycleStepPhase(keys, s, step);
    LessNothing(Heard(s));
  }

  lemma {:induction false} TrainerStepInv(keys: seq<ClassKey>, s: State, step: Step)
    requires Inv(s) && Enabled(s, step) && !GameStep(step)
    ensures Inv(Next(keys, s, step))
  {
    if step.Read? {
      ReadInv(s, FitOf(s, s.fifo[0]));
    } else if step.Promoted? && StaleQueue(s) {
      PromotedInv(keys, s);
    } else {
      CycleStepInv(keys, s, step);
    }
  }

  lemma {:induction false} RunInv(keys: seq<ClassKey>, run: seq<Step>)
    requires Legal(keys, run)
    ensures Inv(After(keys, run))
  {
    if run == [] {
      NothingKnown(|keys|);
    } else {
      var init, step := run[..|run|-1], run[|run|-1];
      RunInv(keys, init);
      if GameStep(step) {
        GameStepInv(keys, After(keys, init), step);
      } else {
        TrainerStepInv(keys, After(keys, init), step);
      }
    }
  }

  lemma {:induction false} NothingKnown(n: nat)
    ensures KnownAll(seq(n, _ => [])) == multiset{}
  {
    if n > 0 {
      NothingKnown(n - 1);
      var s: seq<seq<nat>>, t: seq<seq<nat>> := seq(n, _ => []), seq(n - 1, _ => []);
      assert s[1..] == t && s[0] == [];
      assert Known([]) == multiset{};
    }
  }

  /** Whenever the trainer processes objects, every object it still tracks is allocated in the
      game, and its free has not even been announced. */
  lemma {:induction false} ProcessedObjectsAreAllocated(keys: seq<ClassKey>, run: seq<Step>, c: nat, i: nat)
    requires Legal(keys, run) && After(keys, run).phase.Process?
    requires c < |After(keys, run).classes| && i < |After(keys, run).classes[c]| && After(keys, run).classes[c][i] != 0
    ensures var s := After(keys, run); s.frozen && s.classes[c][i] in s.heap && s.classes[c][i] !in s.leaving
  {
    var s := After(keys, run);
    RunInv(keys, run);
    KickKnown(s.classes, c, i);
    LessNothing(Heard(s));
    assert s.classes[c][i] in multiset(s.live);
  }

  // ---------------------------------------------------------------------------
  // Tracked and queued objects alone
  // ---------------------------------------------------------------------------

  /** Lost addresses the messages do not free. */
  function StillLost(msgs: seq<Message>, lost: multiset<nat>): multiset<nat>
  {
    if msgs == [] then lost
    else StillLost(msgs[1..], if msgs[0].Free? then lost - multiset{msgs[0].addr} else lost)
  }

  /** Messages about what is tracked and messages about what is lost do not mix. */
  lemma {:induction false} ReplaySplits(msgs: seq<Message>, m: multiset<nat>, lost: multiset<nat>)
    requires Sensible(msgs, m + lost) && Once(m + lost)
    ensures Replay(msgs, m + lost) == Replay(msgs, m) + StillLost(msgs, lost)
  {
    if msgs != [] {
      var a := msgs[0].addr;
      if msgs[0].Malloc? {
        assert (m + multiset{a}) + lost == (m + lost) + multiset{a};
        ReplaySplits(msgs[1..], m + multiset{a}, lost);
      } else {
        assert (m + lost)[a] == 1;
        assert (m - multiset{a}) + (lost - multiset{a}) == (m + lost) - multiset{a};
        ReplaySplits(msgs[1..], m - multiset{a}, lost - multiset{a});
      }
    }
  }

  /** What is tracked besides stays tracked. */
  lemma {:induction false} ReplayExtra(msgs: seq<Message>, m: multiset<nat>, lost: multiset<nat>, extra: multiset<nat>)
    requires Sensible(msgs, m + lost) && Once(m + lost) && extra !! lost
    ensures Replay(msgs, m + extra) == Replay(msgs, m) + extra
  {
    if msgs != [] {
      var a := msgs[0].addr;
      if msgs[0].Malloc? {
        assert (m + multiset{a}) + lost == (m + lost) + multiset{a};
        assert (m + extra) + multiset{a} == (m + multiset{a}) + extra;
        ReplayExtra(msgs[1..], m + multiset{a}, lost, extra);
      } else {
        assert (m + lost)[a] == 1;
        assert (m - multiset{a}) + (lost - multiset{a}) == (m + lost) - multiset{a};
        assert (m + extra) - multiset{a} == (m - multiset{a}) + extra;
        ReplayExtra(msgs[1..], m - multiset{a}, lost - multiset{a}, extra);
      }
    }
  }

  /** Step i of the run promotes a cancelled message to a class. */
  ghost predicate StalePromoted(keys: seq<ClassKey>, run: seq<Step>, i: nat)
  {
    && i < |run| && run[i].Promoted?
    && (var s := After(keys, run[..i]); StaleQueue(s) && ClassFor(keys, s.behind.line.code) < |s.classes|)
  }

  ghost predicate SomeStalePromoted(keys: seq<ClassKey>, run: seq<Step>)
  {
    exists i: nat :: StalePromoted(keys, run, i)
  }

  lemma {:induction false} StaleStep(keys: seq<ClassKey>, run: seq<Step>)
    requires run != []
    ensures SomeStalePromoted(keys, run) <==>
      SomeStalePromoted(keys, run[..|run|-1]) || StalePromoted(keys, run, |run| - 1)
  {
    var init := run[..|run|-1];
    forall i: nat | i < |init| ensures StalePromoted(keys, run, i) == StalePromoted(keys, init, i) {
      assert init[..i] == run[..i];
    }
    if i: nat :| StalePromoted(keys, run, i) {
      assert i < |init| ==> StalePromoted(keys, init, i);
    }
    if i: nat :| StalePromoted(keys, init, i) {
      assert StalePromoted(keys, run, i);
    }
  }

  lemma {:induction false} InventedNext(keys: seq<ClassKey>, s: State, step: Step)
    requires PhaseInv(s) && QueueInv(s) && Enabled(s, step)
    ensures
      Next(keys, s, step).invented != multiset{} <==>
        s.invented != multiset{} || (step.Promoted? && StaleQueue(s) &&
          ClassFor(keys, s.behind.line.code) < |s.classes|)
  {
    if GameStep(step) {
      GameStepFrame(keys, s, step);
    } else if step.Read? {
      OnMsgFrame(s.(fifo := s.fifo[1..]), s.fifo[0], FitOf(s, s.fifo[0]));
    } else if step.Promoted? && StaleQueue(s) {
      StalePromotion(keys, s);
    } else {
      CycleStepFrame(keys, s, step);
    }
  }

  lemma {:induction false} InventedIff(keys: seq<ClassKey>, run: seq<Step>)
    requires Legal(keys, run)
    ensures After(keys, run).invented != multiset{} <==> SomeStalePromoted(keys, run)
  {
    if run != [] {
      var init := run[..|run|-1];
      InventedIff(keys, init);
      RunInv(keys, init);
      InventedNext(keys, After(keys, init), run[|run|-1]);
      StaleStep(keys, run);
    }
  }

  /** The unread messages account for the difference between what is tracked and what lives. */
  ghost predicate Accounted(s: State)
  {
    && Replay(s.fifo, Tracked(s)) == multiset(s.live) - StillLost(s.fifo, s.dropped)
    && StillLost(s.fifo, s.dropped) <= multiset(s.live) && Once(Tracked(s) + s.dropped)
  }

  lemma {:induction false} AccountedIff(s: State)
    requires Conserved(s) && s.invented <= Tracked(s)
    ensures Accounted(s) <==> s.invented == multiset{}
  {
    HeardOnce(s);
    SplitAccount(s.fifo, Tracked(s) - s.invented, s.dropped, s.invented, s.live);
    assert Tracked(s) - s.invented + s.invented == Tracked(s);
  }

  /** In every reachable state, replaying the unread messages on the tracked and queued
      addresses gives what is live in the game, without the objects that were kicked or never
      taken up and not freed since, nothing being tracked or queued twice: if and only if no
      cancelled message has been promoted. */
  lemma {:induction false} TrackedIsLiveButLost(keys: seq<ClassKey>, run: seq<Step>)
    requires Legal(keys, run)
    ensures Accounted(After(keys, run)) <==> !SomeStalePromoted(keys, run)
  {
    RunInv(keys, run);
    InventedIff(keys, run);
    AccountedIff(After(keys, run));
  }

  lemma {:induction false} SplitAccount(msgs: seq<Message>, told: multiset<nat>, lost: multiset<nat>,
        extra: multiset<nat>, live: set<nat>)
    requires Balanced(msgs, told + lost, live) && Once(told + lost) && extra !! lost
    ensures StillLost(msgs, lost) <= multiset(live)
    ensures Replay(msgs, told + extra) == multiset(live) - StillLost(msgs, lost) <==> extra == multiset{}
  {
    ReplaySplits(msgs, told, lost);
    ReplayExtra(msgs, told, lost, extra);
    var now, still := Replay(msgs, told), StillLost(msgs, lost);
    LessAdded(now, still);
    if extra != multiset{} {
      var a :| a in extra;
      assert (now + extra)[a] > now[a];
    }
  }

  lemma {:induction false} HeardOnce(s: State)
    requires s.invented <= Tracked(s) && Once(Heard(s))
    ensures Tracked(s) - s.invented + s.dropped == Honest(s)
    ensures Once(Tracked(s) - s.invented + s.dropped) && s.invented !! s.dropped
  {
    forall a ensures a in s.invented ==> a !in s.dropped { assert Heard(s)[a] == Tracked(s)[a] + s.dropped[a]; }
    forall a ensures (Tracked(s) - s.invented + s.dropped)[a] <= 1 {
      assert Heard(s)[a] == Tracked(s)[a] + s.dropped[a];
    }
  }

  /** With nothing unread, all that is tracked or queued is live, if and only if no cancelled
      message has been promoted. */
  lemma {:induction false} TrackedIsLiveIff(keys: seq<ClassKey>, run: seq<Step>)
    requires Legal(keys, run) && After(keys, run).fifo == []
    ensures (forall a :: a in Tracked(After(keys, run)) ==> a in After(keys, run).live) <==>
      !SomeStalePromoted(keys, run)
  {
    RunInv(keys, run);
    InventedIff(keys, run);
    LiveIff(After(keys, run));
  }

  lemma {:induction false} LiveIff(s: State)
    requires Conserved(s) && s.invented <= Tracked(s) && s.fifo == []
    ensures (forall a :: a in Tracked(s) ==> a in s.live) <==> s.invented == multiset{}
  {
    assert Honest(s) == multiset(s.live);
    forall a | a in Tracked(s) ensures a in s.live <==> a !in s.invented {
      assert Heard(s)[a] == Tracked(s)[a] + s.dropped[a] == 1;
      assert Honest(s)[a] == Heard(s)[a] - s.invented[a];
    }
    if a :| a in s.invented { assert a in Tracked(s); }
  }

  /** Objects are either tracked in one place of one class or waiting in the queue. */
  lemma {:induction false} TrackedOrQueued(keys: seq<ClassKey>, run: seq<Step>)
    requires Legal(keys, run)
    ensures KnownAll(After(keys, run).classes) !! QueuedAddrs(After(keys, run).queue)
    ensures Once(KnownAll(After(keys, run).classes)) && Once(QueuedAddrs(After(keys, run).queue))
  {
    var s := After(keys, run);
    RunInv(keys, run);
    forall a ensures KnownAll(s.classes)[a] + QueuedAddrs(s.queue)[a] <= 1 {
      assert (KnownAll(s.classes) + QueuedAddrs(s.queue) + s.dropped)[a] <= 1;
    }
  }

  lemma {:induction false} ReadInside(s: State, m: Message)
    requires EndOf(s.queue) < QueueSize
    ensures EndOf(OnMsg(s, m, FitOf(s, m)).queue) < QueueSize
  {
    var l := Q.Line(s.queue, s.behind);
    match m
    case Malloc(a, size, code) => Q.NextInside(l, Q.Append(Queued(a, size, code), FitOf(s, m)), LengthOf, QueueSize);
    case Free(a) => Q.NextInside(l, Q.Cancel(FindQueued(s.queue, a)), LengthOf, QueueSize);
  }

  /** Promoting empties the queue or leaves it alone; no other step but reading touches it. */
  lemma {:induction false} QueueFrame(keys: seq<ClassKey>, s: State, step: Step)
    requires !step.Read?
    ensures Next(keys, s, step).queue == s.queue || Next(keys, s, step).queue == []
  {
    if GameStep(step) {
      GameStepFrame(keys, s, step);
    } else if step.Promoted? {
      PromoteFrame(keys, s);
    }
  }

  /** The queued text and a zero are always inside the buffer. */
  lemma {:induction false} QueueInside(keys: seq<ClassKey>, run: seq<Step>)
    requires Legal(keys, run)
    ensures EndOf(After(keys, run).queue) < QueueSize
  {
    if run != [] {
      var init, step := run[..|run|-1], run[|run|-1];
      var s := After(keys, init);
      QueueInside(keys, init);
      if step.Read? {
        ReadInside(s.(fifo := s.fifo[1..]), s.fifo[0]);
      } else {
        QueueFrame(keys, s, step);
      }
    }
  }

  /** The trainer's defined behaviour ends if and only if it promotes a cancelled message, or
      reads a malloc message when a single byte of the queue is left. */
  lemma {:induction false} WildIff(keys: seq<ClassKey>, run: seq<Step>, step: Step)
    requires Legal(keys, run + [step]) && !After(keys, run).phase.Wild?
    ensures
      var s := After(keys, run);
      After(keys, run + [step]).phase.Wild? <==>
        (step.Promoted? && StaleQueue(s)) || (step.Read? && s.fifo[0].Malloc? && EndOf(s.queue) + 1 == QueueSize)
  {
    assert (run + [step])[..|run|] == run;
    var s := After(keys, run);
    QueueInside(keys, run);
    if GameStep(step) {
      GameStepFrame(keys, s, step);
    } else if step.Read? {
      OnMsgFrame(s.(fifo := s.fifo[1..]), s.fifo[0], FitOf(s, s.fifo[0]));
    } else if !(step.Promoted? && StaleQueue(s)) {
      CycleStepFrame(keys, s, step);
    }
  }

  // ---------------------------------------------------------------------------
  // Why the FIFO is drained again while the game is frozen
  // ---------------------------------------------------------------------------

  lemma {:induction false} OneMore(keys: seq<ClassKey>, run: seq<Step>, step: Step)
    requires Legal(keys, run) && Enabled(After(keys, run), step)
    ensures Legal(keys, run + [step]) && After(keys, run + [step]) == Next(keys, After(keys, run), step)
  {
    assert (run + [step])[..|run|] == run;
  }

  /** One class, created from code address 7. */
  function OneClass(): seq<ClassKey>
  {
    [ClassKey(7, [], NoGrow)]
  }

  /** An object at address 5 is announced, queued and promoted. */
  lemma {:induction false} ObjectQueued() returns (run: seq<Step>)
    ensures Legal(OneClass(), run)
    ensures
      After(OneClass(), run) ==
        State({5}, {}, {}, {5}, [], false, DrainRunning, [[]], [Queued(5, 8, 7)], Q.Nothing, multiset{}, multiset{})
  {
    var k := OneClass();
    run := [];
    assert Legal(k, run) && After(k, run).classes == [[]];
    OneMore(k, run, RealMalloc(5));
    run := run + [RealMalloc(5)];
    OneMore(k, run, MallocHook(5, 8, Some(7)));
    run := run + [MallocHook(5, 8, Some(7))];
    assert After(k, run) ==
      State({5}, {}, {}, {5}, [Malloc(5, 8, 7)], false, DrainRunning, [[]], [], Q.Nothing, multiset{}, multiset{});
    OneMore(k, run, Read);
    run := run + [Read];
  }

  /** The game runs, and nothing is unread or marked. */
  predicate Quiet(s: State)
  {
    s.phase.DrainRunning? && !s.frozen && s.fifo == [] && CompactedAll(s.classes) == s.classes
  }

  lemma {:induction false} QuietCycle(keys: seq<ClassKey>, run: seq<Step>) returns (r: seq<Step>)
    requires Legal(keys, run)
    requires Quiet(After(keys, run))
    ensures Legal(keys, r) && After(keys, r) == Promotion(keys, After(keys, run).(phase := Promote))
  {
    r := UpToPromote(keys, run);
    OneMore(keys, r, Promoted);
    r := r + [Promoted];
  }

  lemma {:induction false} UpToPromote(keys: seq<ClassKey>, run: seq<Step>) returns (r: seq<Step>)
    requires Legal(keys, run)
    requires Quiet(After(keys, run))
    ensures Legal(keys, r) && After(keys, r) == After(keys, run).(phase := Promote)
  {
    r := FrozenCycle(keys, run);
    OneMore(keys, r, Detached(true, false));
    r := r + [Detached(true, false)];
    OneMore(keys, r, KickedCompacted);
    r := r + [KickedCompacted];
  }

  lemma {:induction false} FrozenCycle(keys: seq<ClassKey>, run: seq<Step>) returns (r: seq<Step>)
    requires Legal(keys, run)
    requires Quiet(After(keys, run))
    ensures Legal(keys, r) && After(keys, r) == After(keys, run).(phase := Detach, frozen := true)
  {
    r := UpToAttach(keys, run);
    OneMore(keys, r, Attached(true));
    r := r + [Attached(true)];
    OneMore(keys, r, Drained);
    r := r + [Drained];
    OneMore(keys, r, Processed);
    r := r + [Processed];
  }

  lemma {:induction false} UpToAttach(keys: seq<ClassKey>, run: seq<Step>) returns (r: seq<Step>)
    requires Legal(keys, run)
    requires Quiet(After(keys, run))
    ensures Legal(keys, r) && After(keys, r) == After(keys, run).(phase := Attach)
  {
    r := run;
    OneMore(keys, r, Drained);
    r := r + [Drained];
    OneMore(keys, r, Compacted);
    r := r + [Compacted];
  }

  lemma {:induction false} PromotedOne(s: State)
    requires s.classes == [[]] && s.queue == [Queued(5, 8, 7)]
    ensures PromoteAll(OneClass(), s) == s.(classes := [[5]], queue := [])
  {
    var t := s.(classes := Appended(s.classes, 0, 5)).(queue := s.queue[1..]);
    assert ClassFor(OneClass(), 7) == 0;
    assert s.classes[0] + [5] == [5];
    assert Appended(s.classes, 0, 5) == [[5]] && s.queue[1..] == [];
    assert t == s.(classes := [[5]], queue := []);
    assert PromoteAll(OneClass(), t) == t;
  }

  /** An object at address 5 is tracked, and the game runs. */
  lemma {:induction false} ObjectTracked() returns (run: seq<Step>)
    ensures Legal(OneClass(), run)
    ensures
      After(OneClass(), run) ==
        State({5}, {}, {}, {5}, [], false, DrainRunning, [[5]], [], Q.Nothing, multiset{}, multiset{})
  {
    run := ObjectQueued();
    var s := After(OneClass(), run).(phase := Promote);
    PromotedOne(s);
    run := QuietCycle(OneClass(), run);
  }

  /** The second drain is needed: with the game already frozen, but its last messages unread,
      a tracked object can be gone. */
  lemma {:induction false} GoneBeforeSecondDrain() returns (run: seq<Step>)
    ensures Legal(OneClass(), run)
    ensures var s := After(OneClass(), run);
      s.phase.DrainFrozen? && s.frozen && s.classes == [[5]] && 5 !in s.heap
  {
    var k := OneClass();
    run := ObjectTracked();
    assert [5][..0] == [] && [5][..1] == [5];
    assert Keep([5], [5]) == [5];
    assert CompactedAll([[5]]) == [[5]];
    run := UpToAttach(k, run);
    OneMore(k, run, FreeHook(5));
    run := run + [FreeHook(5)];
    OneMore(k, run, RealFree(5));
    run := run + [RealFree(5)];
    OneMore(k, run, Attached(true));
    run := run + [Attached(true)];
  }
}
