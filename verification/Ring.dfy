/** The intrusive doubly linked list (src/lib/list.h): the nodes hold the links themselves, a
    list is a ring through its head. */
module Ring {

  class ListHead {
    var next: ListHead?    // null once poisoned
    var prev: ListHead?

    constructor ()
      ensures IsList(this, [])
    {
      next, prev := this, this;
    }
  }

  predicate Linked(a: ListHead, b: ListHead)
    reads a`next, b`prev
  {
    a.next == b && b.prev == a
  }

  predicate Distinct(s: seq<ListHead>)
  {
    forall i, j :: 0 <= i < j < |s| ==> s[i] != s[j]
  }

  /** Each node is linked with the next one. */
  predicate Path(s: seq<ListHead>)
    reads (set i | 0 <= i < |s| - 1 :: s[i])`next, (set i | 0 < i < |s| :: s[i])`prev
  {
    forall i :: 0 < i < |s| ==> Linked(s[i-1], s[i])
  }

  function First(head: ListHead, xs: seq<ListHead>): ListHead
  {
    if xs == [] then head else xs[0]
  }

  function Last(head: ListHead, xs: seq<ListHead>): ListHead
  {
    if xs == [] then head else xs[|xs|-1]
  }

  /** The list at head has the entries xs, in this order. */
  ghost predicate IsList(head: ListHead, xs: seq<ListHead>)
    reads head, xs
  {
    && head !in xs && Distinct(xs) && Path(xs)
    && Linked(head, First(head, xs)) && Linked(Last(head, xs), head)
  }

  lemma {:induction false} Split(xs: seq<ListHead>, k: nat)
    requires k <= |xs| && Path(xs) && Distinct(xs)
    ensures Path(xs[..k]) && Path(xs[k..]) && (0 < k < |xs| ==> Linked(xs[k-1], xs[k]))
    ensures Distinct(xs[..k]) && Distinct(xs[k..])
    ensures xs == xs[..k] + xs[k..] && forall x :: x in xs[..k] ==> x !in xs[k..]
  {}

  lemma {:induction false} Join(a: seq<ListHead>, b: seq<ListHead>)
    requires Path(a) && Path(b) && (a != [] && b != [] ==> Linked(a[|a|-1], b[0]))
    requires Distinct(a) && Distinct(b) && forall x :: x in a ==> x !in b
    ensures Path(a + b) && Distinct(a + b)
  {
    forall i | 0 < i < |a + b| ensures Linked((a + b)[i-1], (a + b)[i]) {
      if i > |a| { assert Linked(b[i-|a|-1], b[i-|a|]); }
    }
    forall i, j | 0 <= i < j < |a + b| ensures (a + b)[i] != (a + b)[j] {
      if i < |a| <= j {
        assert (a + b)[i] in a && (a + b)[j] == b[j-|a|] && b[j-|a|] in b;
      } else if |a| <= i {
        assert (a + b)[i] == b[i-|a|] && (a + b)[j] == b[j-|a|];
      } else {
        assert (a + b)[i] == a[i] && (a + b)[j] == a[j];
      }
    }
  }

  /** A list seen as its first entries a and its last entries b. */
  ghost predicate Halves(head: ListHead, a: seq<ListHead>, b: seq<ListHead>)
    reads head, a, b
  {
    && head !in a && head !in b && Distinct(a) && Distinct(b) && (forall x :: x in a ==> x !in b)
    && Path(a) && Path(b) && Linked(Last(head, a), First(head, b))
    && (a != [] ==> Linked(head, a[0])) && (b != [] ==> Linked(b[|b|-1], head))
  }

  lemma {:induction false} ListIsHalves(head: ListHead, a: seq<ListHead>, b: seq<ListHead>)
    requires IsList(head, a + b)
    ensures Halves(head, a, b)
  {
    SplitAt(a, b);
    assert forall x :: x in a ==> x in a + b;
    assert forall x :: x in b ==> x in a + b;
    if a != [] { assert First(head, a + b) == a[0]; }
    if b != [] { assert Last(head, a + b) == b[|b|-1]; }
    if a == [] { assert a + b == b; }
    if b == [] { assert a + b == a; }
  }

  lemma {:induction false} SplitAt(a: seq<ListHead>, b: seq<ListHead>)
    requires Path(a + b) && Distinct(a + b)
    ensures Path(a) && Path(b) && (a != [] && b != [] ==> Linked(a[|a|-1], b[0]))
    ensures Distinct(a) && Distinct(b) && forall x :: x in a ==> x !in b
  {
    Split(a + b, |a|);
    assert (a + b)[..|a|] == a && (a + b)[|a|..] == b;
  }

  lemma {:induction false} HalvesAreList(head: ListHead, a: seq<ListHead>, b: seq<ListHead>)
    requires Halves(head, a, b)
    ensures IsList(head, a + b)
  {
    Join(a, b);
  }

  /** INIT_LIST_HEAD() */
  method InitListHead(list: ListHead)
    modifies list
    ensures IsList(list, [])
  {
    list.next := list;
    list.prev := list;
  }

  /** __list_add(): a new node between two neighbours. */
  method ListAdd(elem: ListHead, prev: ListHead, next: ListHead, head: ListHead, ghost a: seq<ListHead>,
        ghost b: seq<ListHead>)
    requires IsList(head, a + b) && prev == Last(head, a) && next == First(head, b)
    requires elem != head && elem !in a && elem !in b
    modifies elem, prev`next, next`prev
    ensures IsList(head, a + [elem] + b)
  {
    ListIsHalves(head, a, b);
    LinkIn(elem, prev, next, head, a, b);
    HalvesAreList(head, a + [elem], b);
  }

  method LinkIn(elem: ListHead, prev: ListHead, next: ListHead, head: ListHead, ghost a: seq<ListHead>,
        ghost b: seq<ListHead>)
    requires Halves(head, a, b) && prev == Last(head, a) && next == First(head, b)
    requires elem != head && elem !in a && elem !in b
    modifies elem, prev`next, next`prev
    ensures Halves(head, a + [elem], b)
  {
    next.prev := elem;
    elem.next := next;
    elem.prev := prev;
    prev.next := elem;
    Join(a, [elem]);
  }

  /** __list_del(): the neighbours of a node are linked with each other. */
  method ListDel(prev: ListHead, next: ListHead, head: ListHead, entry: ListHead, ghost a: seq<ListHead>,
        ghost b: seq<ListHead>)
    requires IsList(head, a + [entry] + b) && prev == Last(head, a) && next == First(head, b)
    modifies prev`next, next`prev
    ensures IsList(head, a + b)
  {
    ListIsHalves(head, a + [entry], b);
    Neighbours(head, entry, a, b);
    Split(a + [entry], |a|);
    assert (a + [entry])[..|a|] == a;
    LinkOver(prev, next, head, a, b);
    HalvesAreList(head, a, b);
  }

  method LinkOver(prev: ListHead, next: ListHead, head: ListHead, ghost a: seq<ListHead>, ghost b: seq<ListHead>)
    requires prev == Last(head, a) && next == First(head, b) && head !in a && head !in b
    requires Distinct(a) && Distinct(b) && (forall x :: x in a ==> x !in b) && Path(a) && Path(b)
    requires (a != [] ==> Linked(head, a[0])) && (b != [] ==> Linked(b[|b|-1], head))
    modifies prev`next, next`prev
    ensures Halves(head, a, b)
  {
    assert (a != [] ==> prev in a) && (b != [] ==> next in b);
    next.prev := prev;
    prev.next := next;
  }

  /** clist_add(): for a stack. */
  method Add(elem: ListHead, head: ListHead, ghost xs: seq<ListHead>)
    requires IsList(head, xs) && elem != head && elem !in xs
    modifies elem, head`next, First(head, xs)`prev
    ensures IsList(head, [elem] + xs)
  {
    assert [] + xs == xs && [] + [elem] + xs == [elem] + xs;
    ListAdd(elem, head, head.next, head, [], xs);
  }

  /** clist_add_tail(): for a queue. */
  method AddTail(elem: ListHead, head: ListHead, ghost xs: seq<ListHead>)
    requires IsList(head, xs) && elem != head && elem !in xs
    modifies elem, head`prev, Last(head, xs)`next
    ensures IsList(head, xs + [elem])
  {
    assert xs + [] == xs && xs + [elem] + [] == xs + [elem];
    ListAdd(elem, head.prev, head, head, xs, []);
  }

  /** clist_empty() */
  method IsEmpty(head: ListHead, ghost xs: seq<ListHead>) returns (b: bool)
    requires IsList(head, xs)
    ensures b <==> xs == []
  {
    b := head.next == head;
  }

  /** clist_is_singular() */
  method IsSingular(head: ListHead, ghost xs: seq<ListHead>) returns (b: bool)
    requires IsList(head, xs)
    ensures b <==> |xs| == 1
  {
    var empty := IsEmpty(head, xs);
    b := !empty && head.next == head.prev;
  }

  /** An entry and its neighbours. */
  lemma {:induction false} Neighbours(head: ListHead, entry: ListHead, a: seq<ListHead>, b: seq<ListHead>)
    requires IsList(head, a + [entry] + b)
    ensures Linked(Last(head, a), entry) && Linked(entry, First(head, b))
    ensures entry != head && entry !in a && entry !in b
  {
    ListIsHalves(head, a + [entry], b);
    assert entry in a + [entry] && (a + [entry])[|a|] == entry;
    forall i | 0 <= i < |a| ensures a[i] != entry { assert (a + [entry])[i] == a[i]; }
    if a != [] { assert (a + [entry])[|a|-1] == Last(head, a); }
  }

  /** __list_del_entry() */
  method DelEntry(entry: ListHead, head: ListHead, ghost a: seq<ListHead>, ghost b: seq<ListHead>)
    requires IsList(head, a + [entry] + b)
    modifies Last(head, a)`next, First(head, b)`prev
    ensures IsList(head, a + b)
  {
    Neighbours(head, entry, a, b);
    ListDel(entry.prev, entry.next, head, entry, a, b);
  }

  /** clist_del(): the entry is poisoned, the others stay in order. */
  method Del(entry: ListHead, head: ListHead, ghost a: seq<ListHead>, ghost b: seq<ListHead>)
    requires IsList(head, a + [entry] + b)
    modifies entry, Last(head, a)`next, First(head, b)`prev
    ensures IsList(head, a + b) && entry.next == null && entry.prev == null
  {
    Neighbours(head, entry, a, b);
    DelEntry(entry, head, a, b);
    entry.next := null;
    entry.prev := null;
  }

  /** clist_move_tail(), within one list. */
  method MoveTail(entry: ListHead, head: ListHead, ghost a: seq<ListHead>, ghost b: seq<ListHead>)
    requires IsList(head, a + [entry] + b)
    modifies head, entry, a, b
    ensures IsList(head, a + b + [entry])
  {
    Neighbours(head, entry, a, b);
    DelEntry(entry, head, a, b);
    AddTail(entry, head, a + b);
  }

  /** clist_move_tail(), from one list to another. */
  method MoveToTail(entry: ListHead, head: ListHead, source: ListHead, ghost a: seq<ListHead>, ghost b: seq<ListHead>,
        ghost xs: seq<ListHead>)
    requires IsList(source, a + [entry] + b) && IsList(head, xs)
    requires forall n :: n in [source] + (a + [entry] + b) ==> n !in [head] + xs
    modifies source, head, entry, a, b, xs
    ensures IsList(source, a + b) && IsList(head, xs + [entry])
  {
    Neighbours(source, entry, a, b);
    OtherList(source, entry, a, b, head, xs);
    DelEntry(entry, source, a, b);
    AddTail(entry, head, xs);
  }

  lemma {:induction false} OtherList(source: ListHead, entry: ListHead, a: seq<ListHead>, b: seq<ListHead>,
        head: ListHead, xs: seq<ListHead>)
    requires forall n :: n in [source] + (a + [entry] + b) ==> n !in [head] + xs
    ensures source != head && source !in xs && head !in a && head !in b && head != entry && entry !in xs
    ensures (forall n :: n in a ==> n !in xs) && forall n :: n in b ==> n !in xs
  {
    assert source in [source] + (a + [entry] + b);
    assert entry in a + [entry] && entry in [source] + (a + [entry] + b);
    forall n | n in a || n in b ensures n != head && n !in xs { assert n in [source] + (a + [entry] + b); }
    forall n | n in [source] + (a + [entry] + b) ensures n != head && n !in xs {
      assert n !in [head] + xs;
      assert n != ([head] + xs)[0];
    }
  }

  /** clist_rotate_left(): the first entry becomes the last. */
  method RotateLeft(head: ListHead, ghost xs: seq<ListHead>)
    requires IsList(head, xs)
    modifies head, xs
    ensures IsList(head, if xs == [] then [] else xs[1..] + [xs[0]])
  {
    var empty := IsEmpty(head, xs);
    if !empty {
      var first := head.next;
      assert xs == [] + [first] + xs[1..];
      MoveTail(first, head, [], xs[1..]);
      assert [] + xs[1..] == xs[1..];
    }
  }

  /** __list_cut_position(): the entries up to entry move to list. */
  method CutAt(list: ListHead, head: ListHead, entry: ListHead, ghost a: seq<ListHead>, ghost b: seq<ListHead>)
    requires IsList(head, a + b) && a != [] && entry == Last(head, a) && list != head && list !in a + b
    modifies list, head, First(head, a)`prev, entry`next, First(head, b)`prev
    ensures IsList(list, a) && IsList(head, b)
  {
    Split(a + b, |a|);
    assert (a + b)[..|a|] == a && (a + b)[|a|..] == b;
    var newFirst := entry.next;
    list.next := head.next;
    list.next.prev := list;
    list.prev := entry;
    entry.next := list;
    head.next := newFirst;
    newFirst.prev := head;
  }

  /** clist_cut_position(), where entry is on the list or the head itself, or the list has a
      single other entry.  The entries up to entry move to list; none for the head itself.  With
      nothing on the list, or only another entry, list is not even initialised. */
  method CutPosition(list: ListHead, head: ListHead, entry: ListHead, ghost a: seq<ListHead>, ghost b: seq<ListHead>)
    requires IsList(head, a + b) && list != head && list !in a + b
    requires entry == Last(head, a) || (a == [] && entry !in b && |b| <= 1)
    modifies list, head, a, b
    ensures a + b != [] && entry == Last(head, a) ==> IsList(list, a)
    ensures a + b == [] || entry != Last(head, a) ==> list.next == old(list.next) && list.prev == old(list.prev)
    ensures IsList(head, b)
  {
    assert [] + b == b;
    var empty := IsEmpty(head, a + b);
    if empty { return; }
    var singular := IsSingular(head, a + b);
    if singular && head.next != entry && head != entry { return; }
    if entry == head {
      InitListHead(list);
    } else {
      CutAt(list, head, entry, a, b);
    }
  }

  /** __list_splice() */
  method ListSplice(list: ListHead, prev: ListHead, next: ListHead, ghost ys: seq<ListHead>, ghost xs: seq<ListHead>)
    requires IsList(list, ys) && IsList(prev, xs) && next == First(prev, xs) && ys != []
    requires list != prev && list !in xs && prev !in ys && forall y :: y in ys ==> y !in xs
    modifies prev`next, next`prev, First(list, ys)`prev, Last(list, ys)`next
    ensures IsList(prev, ys + xs)
  {
    var first := list.next;
    var last := list.prev;
    first.prev := prev;
    prev.next := first;
    last.next := next;
    next.prev := last;
    Join(ys, xs);
  }

  /** clist_splice(): the entries of list come first; list itself is left as it was. */
  method Splice(list: ListHead, head: ListHead, ghost ys: seq<ListHead>, ghost xs: seq<ListHead>)
    requires IsList(list, ys) && IsList(head, xs)
    requires list != head && list !in xs && head !in ys && forall y :: y in ys ==> y !in xs
    modifies head, xs, ys
    ensures IsList(head, ys + xs) && list.next == old(list.next) && list.prev == old(list.prev)
  {
    var empty := IsEmpty(list, ys);
    if empty {
      assert ys + xs == xs;
    } else {
      ListSplice(list, head, head.next, ys, xs);
    }
  }

  /** Cutting off any prefix into an empty list and splicing it back restores the list. */
  method CutAndSplice(list: ListHead, head: ListHead, entry: ListHead, ghost a: seq<ListHead>, ghost b: seq<ListHead>)
    requires IsList(head, a + b) && IsList(list, []) && list != head && list !in a + b
    requires entry == Last(head, a)
    modifies list, head, a, b
    ensures IsList(head, a + b)
  {
    PartsApart(list, head, a, b);
    CutPosition(list, head, entry, a, b);
    if a + b == [] {
      assert a == [] && b == [];
    }
    Splice(list, head, a, b);
  }

  lemma {:induction false} PartsApart(list: ListHead, head: ListHead, a: seq<ListHead>, b: seq<ListHead>)
    requires IsList(head, a + b) && list !in a + b
    ensures head !in a && head !in b && list !in a && list !in b && forall x :: x in a ==> x !in b
  {
    ListIsHalves(head, a, b);
    assert (forall x :: x in a ==> x in a + b) && forall x :: x in b ==> x in a + b;
  }

  /** clist_for_each(): following next from the head meets every entry once, in order. */
  method Entries(head: ListHead, ghost xs: seq<ListHead>) returns (out: seq<ListHead>)
    requires IsList(head, xs)
    ensures out == xs
  {
    out := [];
    var pos := head.next;
    while pos != head
      invariant out <= xs && pos == First(head, xs[|out|..])
      decreases |xs| - |out|
    {
      Split(xs, |out| + 1);
      out := out + [pos];
      pos := pos.next;
    }
  }

  lemma {:induction false} EndsInside(head: ListHead, a: seq<ListHead>)
    ensures First(head, a) in [head] + a && Last(head, a) in [head] + a
  {
    if a != [] { assert ([head] + a)[1] == a[0] && ([head] + a)[|a|] == a[|a|-1]; }
  }

  /** In a list, prev undoes next and next undoes prev, all the way round. */
  lemma {:induction false} NextAndPrevAreInverse(head: ListHead, xs: seq<ListHead>, n: ListHead)
    requires IsList(head, xs) && n in [head] + xs
    ensures n.next != null && n.next in [head] + xs && n.next.prev == n
    ensures n.prev != null && n.prev in [head] + xs && n.prev.next == n
  {
    EndsInside(head, xs);
    if n != head {
      var i :| 0 <= i < |xs| && xs[i] == n;
      var a, b := xs[..i], xs[i+1..];
      assert xs == a + [n] + b;
      Neighbours(head, n, a, b);
      EndsInside(head, a);
      EndsInside(head, b);
    }
  }
}
