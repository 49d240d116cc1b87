/** The intrusive lists of include/queue.h. The elements are numbered, as the Env and Page
    structures they thread are array elements; each has the two link fields of its entry. */
module Queue {
  /** A pointer to an element. */
  datatype Link = Null | Elm(i: nat)

  /** The address of a variable that points to an element: the head's, or the next field of one. */
  datatype Addr = HeadFirst | NextOf(i: nat)

  predicate Distinct(s: seq<nat>) { forall j, k :: 0 <= j < k < |s| ==> s[j] != s[k] }

  /** The link that leads to position k of s; past the end it is null. */
  function At(s: seq<nat>, k: nat): Link { if k < |s| then Elm(s[k]) else Null }

  /** The address of the link that leads to position k. */
  function From(s: seq<nat>, k: nat): Addr
    requires k <= |s|
  {
    if k == 0 then HeadFirst else NextOf(s[k - 1])
  }

  /** The element at position k points to its successor, and back to the link that leads to it. */
  predicate Linked(next: seq<Link>, prev: seq<Addr>, s: seq<nat>, k: nat)
    requires k < |s|
  {
    s[k] < |next| && s[k] < |prev| && next[s[k]] == At(s, k + 1) && prev[s[k]] == From(s, k)
  }

  /** The links run through s in order and end in null. */
  predicate Threads(first: Link, next: seq<Link>, prev: seq<Addr>, s: seq<nat>) {
    |next| == |prev| && Distinct(s) && first == At(s, 0) && forall k :: 0 <= k < |s| ==> Linked(next, prev, s, k)
  }

  /** The links determine the sequence. */
  lemma {:induction false} OneSequence(next: seq<Link>, prev: seq<Addr>, s: seq<nat>, t: seq<nat>, k: nat)
    requires Threads(At(s, 0), next, prev, s) && Threads(At(s, 0), next, prev, t)
    requires k <= |s| && k <= |t| && At(s, k) == At(t, k) && s[..k] == t[..k]
    ensures s == t
    decreases |s| - k
  {
    if k < |s| && k < |t| {
      assert Linked(next, prev, s, k) && Linked(next, prev, t, k);
      assert s[..k + 1] == s[..k] + [s[k]] == t[..k + 1];
      OneSequence(next, prev, s, t, k + 1);
    }
  }

  function Insert(s: seq<nat>, k: nat, e: nat): seq<nat>
    requires k <= |s|
  {
    s[..k] + [e] + s[k..]
  }

  function Delete(s: seq<nat>, k: nat): seq<nat>
    requires k < |s|
  {
    s[..k] + s[k + 1..]
  }

  lemma InsertDistinct(s: seq<nat>, k: nat, e: nat)
    requires Distinct(s) && k <= |s| && e !in s
    ensures Distinct(Insert(s, k, e))
  {}

  lemma Positions(s: seq<nat>, j: nat, k: nat)
    requires Distinct(s) && j < |s| && k < |s|
    ensures s[j] == s[k] <==> j == k
  {}

  /** Insertion at position k on values: two links and two back pointers are written. */
  lemma InsertThreads(first: Link, next: seq<Link>, prev: seq<Addr>, s: seq<nat>, k: nat, e: nat,
                      first1: Link, next1: seq<Link>, prev1: seq<Addr>)
    requires Threads(first, next, prev, s) && k <= |s| && e !in s && e < |next|
    requires first1 == if k == 0 then Elm(e) else first
    requires |next1| == |next| && |prev1| == |prev|
    requires forall i :: 0 <= i < |next| ==>
               next1[i] == if i == e then At(s, k) else if k > 0 && i == s[k - 1] then Elm(e) else next[i]
    requires forall i :: 0 <= i < |prev| ==>
               prev1[i] == if i == e then From(s, k) else if k < |s| && i == s[k] then NextOf(e) else prev[i]
    ensures Threads(first1, next1, prev1, Insert(s, k, e))
  {
    var t := Insert(s, k, e);
    InsertDistinct(s, k, e);
    hide Distinct;
    forall j | 0 <= j < |t| ensures Linked(next1, prev1, t, j) {
      if j != k {
        var m := if j < k then j else j - 1;
        assert t[j] == s[m] && Linked(next, prev, s, m);
        if k > 0 { Positions(s, m, k - 1); }
        if k < |s| { Positions(s, m, k); }
      }
    }
  }

  lemma DeleteDistinct(s: seq<nat>, k: nat)
    requires Distinct(s) && k < |s|
    ensures Distinct(Delete(s, k))
  {}

  /** Removal at position k on values: one link and one back pointer are written. */
  lemma DeleteThreads(first: Link, next: seq<Link>, prev: seq<Addr>, s: seq<nat>, k: nat,
                      first1: Link, next1: seq<Link>, prev1: seq<Addr>)
    requires Threads(first, next, prev, s) && k < |s|
    requires first1 == if k == 0 then At(s, 1) else first
    requires |next1| == |next| && |prev1| == |prev|
    requires forall i :: 0 <= i < |next| ==> next1[i] == if k > 0 && i == s[k - 1] then At(s, k + 1) else next[i]
    requires forall i :: 0 <= i < |prev| ==> prev1[i] == if k + 1 < |s| && i == s[k + 1] then From(s, k) else prev[i]
    ensures Threads(first1, next1, prev1, Delete(s, k))
  {
    var t := Delete(s, k);
    DeleteDistinct(s, k);
    hide Distinct;
    forall j | 0 <= j < |t| ensures Linked(next1, prev1, t, j) {
      var m := if j < k then j else j + 1;
      assert t[j] == s[m] && Linked(next, prev, s, m);
      if k > 0 { Positions(s, m, k - 1); }
      if k + 1 < |s| { Positions(s, m, k + 1); }
    }
  }

  // ---------- LIST ----------

  class List {
    var first: Link              // lh_first
    const next: array<Link>      // le_next of every element
    const prev: array<Addr>      // le_prev of every element
    ghost var s: seq<nat>        // what is on the list

    ghost predicate Valid()
      reads this, next, prev
    {
      Threads(first, next[..], prev[..], s)
    }

    /** LIST_INIT. */
    constructor (n: nat)
      ensures Valid() && s == [] && next.Length == n && fresh(next) && fresh(prev)
    {
      next, prev := new Link[n](i => Null), new Addr[n](i => HeadFirst);
      first, s := Null, [];
    }

    /** *a = l. */
    method Assign(a: Addr, l: Link)
      requires a.NextOf? ==> a.i < next.Length
      modifies this`first, next
      ensures a.HeadFirst? ==> first == l && next[..] == old(next[..])
      ensures a.NextOf? ==> first == old(first) && next[..] == old(next[..])[a.i := l]
    {
      match a
      case HeadFirst => first := l;
      case NextOf(i) => next[i] := l;
    }

    /** LIST_INSERT_AFTER. */
    method InsertAfter(l: nat, e: nat, ghost k: nat)
      requires Valid() && k < |s| && s[k] == l && e !in s && e < next.Length
      modifies this, next, prev
      ensures Valid() && s == Insert(old(s), k + 1, e)
    {
      assert Linked(next[..], prev[..], s, k);
      if k + 1 < |s| { assert Linked(next[..], prev[..], s, k + 1); }
      hide Threads, Distinct, Linked;
      next[e] := next[l];
      if next[e].Elm? { prev[next[l].i] := NextOf(e); }
      next[l] := Elm(e);
      prev[e] := NextOf(l);
      InsertThreads(old(first), old(next[..]), old(prev[..]), s, k + 1, e, first, next[..], prev[..]);
      s := Insert(s, k + 1, e);
    }

    /** LIST_INSERT_BEFORE. */
    method InsertBefore(l: nat, e: nat, ghost k: nat)
      requires Valid() && k < |s| && s[k] == l && e !in s && e < next.Length
      modifies this, next, prev
      ensures Valid() && s == Insert(old(s), k, e)
    {
      assert Linked(next[..], prev[..], s, k);
      if k > 0 { assert Linked(next[..], prev[..], s, k - 1); }
      hide Threads, Distinct, Linked;
      prev[e] := prev[l];
      next[e] := Elm(l);
      Assign(prev[l], Elm(e));
      prev[l] := NextOf(e);
      InsertThreads(old(first), old(next[..]), old(prev[..]), s, k, e, first, next[..], prev[..]);
      s := Insert(s, k, e);
    }

    /** LIST_INSERT_HEAD. */
    method InsertHead(e: nat)
      requires Valid() && e !in s && e < next.Length
      modifies this, next, prev
      ensures Valid() && s == [e] + old(s)
    {
      if s != [] { assert Linked(next[..], prev[..], s, 0); }
      next[e] := first;
      if next[e].Elm? { prev[first.i] := NextOf(e); }
      first := Elm(e);
      prev[e] := HeadFirst;
      InsertThreads(old(first), old(next[..]), old(prev[..]), s, 0, e, first, next[..], prev[..]);
      s := Insert(s, 0, e);
    }

    /** LIST_REMOVE. */
    method Remove(e: nat, ghost k: nat)
      requires Valid() && k < |s| && s[k] == e
      modifies this, next, prev
      ensures Valid() && s == Delete(old(s), k)
    {
      assert Linked(next[..], prev[..], s, k);
      if k + 1 < |s| { assert Linked(next[..], prev[..], s, k + 1); }
      if k > 0 { assert Linked(next[..], prev[..], s, k - 1); }
      if next[e].Elm? { prev[next[e].i] := prev[e]; }
      Assign(prev[e], next[e]);
      DeleteThreads(old(first), old(next[..]), old(prev[..]), s, k, first, next[..], prev[..]);
      s := Delete(s, k);
    }
  }

  // ---------- TAILQ ----------

  class TailQueue {
    var first: Link              // tqh_first
    var last: Addr               // tqh_last
    const next: array<Link>
    const prev: array<Addr>
    ghost var s: seq<nat>

    /** The tail pointer is the address of the link that ends the queue. */
    ghost predicate Valid()
      reads this, next, prev
    {
      Threads(first, next[..], prev[..], s) && last == From(s, |s|)
    }

    /** TAILQ_INIT. */
    constructor (n: nat)
      ensures Valid() && s == [] && next.Length == n && fresh(next) && fresh(prev)
    {
      next, prev := new Link[n](i => Null), new Addr[n](i => HeadFirst);
      first, last, s := Null, HeadFirst, [];
    }

    /** *a = l. */
    method Assign(a: Addr, l: Link)
      requires a.NextOf? ==> a.i < next.Length
      modifies this`first, next
      ensures a.HeadFirst? ==> first == l && next[..] == old(next[..])
      ensures a.NextOf? ==> first == old(first) && next[..] == old(next[..])[a.i := l]
    {
      match a
      case HeadFirst => first := l;
      case NextOf(i) => next[i] := l;
    }

    /** TAILQ_INSERT_HEAD. */
    method InsertHead(e: nat)
      requires Valid() && e !in s && e < next.Length
      modifies this, next, prev
      ensures Valid() && s == [e] + old(s)
    {
      if s != [] { assert Linked(next[..], prev[..], s, 0); }
      next[e] := first;
      if next[e].Elm? { prev[first.i] := NextOf(e); } else { last := NextOf(e); }
      first := Elm(e);
      prev[e] := HeadFirst;
      InsertThreads(old(first), old(next[..]), old(prev[..]), s, 0, e, first, next[..], prev[..]);
      s := Insert(s, 0, e);
    }

    /** TAILQ_INSERT_TAIL. */
    method InsertTail(e: nat)
      requires Valid() && e !in s && e < next.Length
      modifies this, next, prev
      ensures Valid() && s == old(s) + [e]
    {
      if s != [] { assert Linked(next[..], prev[..], s, |s| - 1); }
      next[e] := Null;
      prev[e] := last;
      Assign(last, Elm(e));
      last := NextOf(e);
      InsertThreads(old(first), old(next[..]), old(prev[..]), s, |s|, e, first, next[..], prev[..]);
      s := Insert(s, |s|, e);
    }

    /** TAILQ_INSERT_AFTER. */
    method InsertAfter(l: nat, e: nat, ghost k: nat)
      requires Valid() && k < |s| && s[k] == l && e !in s && e < next.Length
      modifies this, next, prev
      ensures Valid() && s == Insert(old(s), k + 1, e)
    {
      assert Linked(next[..], prev[..], s, k);
      if k + 1 < |s| { assert Linked(next[..], prev[..], s, k + 1); }
      hide Threads, Distinct, Linked;
      next[e] := next[l];
      if next[e].Elm? { prev[next[e].i] := NextOf(e); } else { last := NextOf(e); }
      next[l] := Elm(e);
      prev[e] := NextOf(l);
      InsertThreads(old(first), old(next[..]), old(prev[..]), s, k + 1, e, first, next[..], prev[..]);
      s := Insert(s, k + 1, e);
    }

    /** TAILQ_INSERT_BEFORE. */
    method InsertBefore(l: nat, e: nat, ghost k: nat)
      requires Valid() && k < |s| && s[k] == l && e !in s && e < next.Length
      modifies this, next, prev
      ensures Valid() && s == Insert(old(s), k, e)
    {
      assert Linked(next[..], prev[..], s, k);
      if k > 0 { assert Linked(next[..], prev[..], s, k - 1); }
      hide Threads, Distinct, Linked;
      prev[e] := prev[l];
      next[e] := Elm(l);
      Assign(prev[l], Elm(e));
      prev[l] := NextOf(e);
      InsertThreads(old(first), old(next[..]), old(prev[..]), s, k, e, first, next[..], prev[..]);
      s := Insert(s, k, e);
    }

    /** TAILQ_REMOVE. */
    method Remove(e: nat, ghost k: nat)
      requires Valid() && k < |s| && s[k] == e
      modifies this, next, prev
      ensures Valid() && s == Delete(old(s), k)
    {
      assert Linked(next[..], prev[..], s, k);
      if k + 1 < |s| { assert Linked(next[..], prev[..], s, k + 1); }
      if k > 0 { assert Linked(next[..], prev[..], s, k - 1); }
      if next[e].Elm? { prev[next[e].i] := prev[e]; } else { last := prev[e]; }
      Assign(prev[e], next[e]);
      DeleteThreads(old(first), old(next[..]), old(prev[..]), s, k, first, next[..], prev[..]);
      s := Delete(s, k);
    }
  }

  // ---------- CIRCLEQ ----------

  /** A pointer in a circular queue: to the head or to an element. */
  datatype Item = Head | Entry(i: nat)

  function ItemAt(s: seq<nat>, k: int): Item { if 0 <= k < |s| then Entry(s[k]) else Head }

  predicate Circled(next: seq<Item>, prev: seq<Item>, s: seq<nat>, k: nat)
    requires k < |s|
  {
    s[k] < |next| && s[k] < |prev| && next[s[k]] == ItemAt(s, k + 1) && prev[s[k]] == ItemAt(s, k - 1)
  }

  /** The links run through s both ways and end in the head. */
  predicate Circles(first: Item, last: Item, next: seq<Item>, prev: seq<Item>, s: seq<nat>) {
    && |next| == |prev| && Distinct(s) && first == ItemAt(s, 0) && last == ItemAt(s, |s| - 1)
    && forall k :: 0 <= k < |s| ==> Circled(next, prev, s, k)
  }

  /** Insertion at position k: the neighbours' links, or the head's, now lead to e. */
  lemma InsertCircles(first: Item, last: Item, next: seq<Item>, prev: seq<Item>, s: seq<nat>, k: nat, e: nat,
                      first1: Item, last1: Item, next1: seq<Item>, prev1: seq<Item>)
    requires Circles(first, last, next, prev, s) && k <= |s| && e !in s && e < |next|
    requires first1 == if k == 0 then Entry(e) else first
    requires last1 == if k == |s| then Entry(e) else last
    requires |next1| == |next| && |prev1| == |prev|
    requires forall i :: 0 <= i < |next| ==>
               next1[i] == if i == e then ItemAt(s, k) else if k > 0 && i == s[k - 1] then Entry(e) else next[i]
    requires forall i :: 0 <= i < |prev| ==>
               prev1[i] == if i == e then ItemAt(s, k - 1) else if k < |s| && i == s[k] then Entry(e) else prev[i]
    ensures Circles(first1, last1, next1, prev1, Insert(s, k, e))
  {
    var t := Insert(s, k, e);
    InsertDistinct(s, k, e);
    hide Distinct;
    forall j | 0 <= j < |t| ensures Circled(next1, prev1, t, j) {
      if j != k {
        var m := if j < k then j else j - 1;
        assert t[j] == s[m] && Circled(next, prev, s, m);
        if k > 0 { Positions(s, m, k - 1); }
        if k < |s| { Positions(s, m, k); }
      }
    }
  }

  /** Removal at position k: the neighbours' links, or the head's, skip it. */
  lemma DeleteCircles(first: Item, last: Item, next: seq<Item>, prev: seq<Item>, s: seq<nat>, k: nat,
                      first1: Item, last1: Item, next1: seq<Item>, prev1: seq<Item>)
    requires Circles(first, last, next, prev, s) && k < |s|
    requires first1 == if k == 0 then ItemAt(s, 1) else first
    requires last1 == if k == |s| - 1 then ItemAt(s, k - 1) else last
    requires |next1| == |next| && |prev1| == |prev|
    requires forall i :: 0 <= i < |next| ==> next1[i] == if k > 0 && i == s[k - 1] then ItemAt(s, k + 1) else next[i]
    requires forall i :: 0 <= i < |prev| ==> prev1[i] == if k + 1 < |s| && i == s[k + 1] then ItemAt(s, k - 1) else prev[i]
    ensures Circles(first1, last1, next1, prev1, Delete(s, k))
  {
    var t := Delete(s, k);
    DeleteDistinct(s, k);
    hide Distinct;
    forall j | 0 <= j < |t| ensures Circled(next1, prev1, t, j) {
      var m := if j < k then j else j + 1;
      assert t[j] == s[m] && Circled(next, prev, s, m);
      if k > 0 { Positions(s, m, k - 1); }
      if k + 1 < |s| { Positions(s, m, k + 1); }
    }
  }

  class CircleQueue {
    var first: Item              // cqh_first
    var last: Item               // cqh_last
    const next: array<Item>
    const prev: array<Item>
    ghost var s: seq<nat>

    ghost predicate Valid()
      reads this, next, prev
    {
      next != prev && Circles(first, last, next[..], prev[..], s)
    }

    /** CIRCLEQ_INIT. */
    constructor (n: nat)
      ensures Valid() && s == [] && next.Length == n && fresh(next) && fresh(prev)
    {
      next, prev := new Item[n](i => Head), new Item[n](i => Head);
      first, last, s := Head, Head, [];
    }

    /** CIRCLEQ_INSERT_AFTER. */
    method InsertAfter(l: nat, e: nat, ghost k: nat)
      requires Valid() && k < |s| && s[k] == l && e !in s && e < next.Length
      modifies this, next, prev
      ensures Valid() && s == Insert(old(s), k + 1, e)
    {
      assert Circled(next[..], prev[..], s, k);
      if k + 1 < |s| { assert Circled(next[..], prev[..], s, k + 1); }
      next[e] := next[l];
      prev[e] := Entry(l);
      if next[l].Head? { last := Entry(e); } else { prev[next[l].i] := Entry(e); }
      next[l] := Entry(e);
      InsertCircles(old(first), old(last), old(next[..]), old(prev[..]), s, k + 1, e, first, last, next[..], prev[..]);
      s := Insert(s, k + 1, e);
    }

    /** CIRCLEQ_INSERT_BEFORE. */
    method InsertBefore(l: nat, e: nat, ghost k: nat)
      requires Valid() && k < |s| && s[k] == l && e !in s && e < next.Length
      modifies this, next, prev
      ensures Valid() && s == Insert(old(s), k, e)
    {
      assert Circled(next[..], prev[..], s, k);
      if k > 0 { assert Circled(next[..], prev[..], s, k - 1); }
      next[e] := Entry(l);
      prev[e] := prev[l];
      if prev[l].Head? { first := Entry(e); } else { next[prev[l].i] := Entry(e); }
      prev[l] := Entry(e);
      InsertCircles(old(first), old(last), old(next[..]), old(prev[..]), s, k, e, first, last, next[..], prev[..]);
      s := Insert(s, k, e);
    }

    /** CIRCLEQ_INSERT_HEAD. */
    method InsertHead(e: nat)
      requires Valid() && e !in s && e < next.Length
      modifies this, next, prev
      ensures Valid() && s == [e] + old(s)
    {
      if s != [] { assert Circled(next[..], prev[..], s, 0); }
      next[e] := first;
      prev[e] := Head;
      if last.Head? { last := Entry(e); } else { prev[first.i] := Entry(e); }
      first := Entry(e);
      InsertCircles(old(first), old(last), old(next[..]), old(prev[..]), s, 0, e, first, last, next[..], prev[..]);
      s := Insert(s, 0, e);
    }

    /** CIRCLEQ_INSERT_TAIL. */
    method InsertTail(e: nat)
      requires Valid() && e !in s && e < next.Length
      modifies this, next, prev
      ensures Valid() && s == old(s) + [e]
    {
      if s != [] { assert Circled(next[..], prev[..], s, |s| - 1); }
      next[e] := Head;
      prev[e] := last;
      if first.Head? { first := Entry(e); } else { next[last.i] := Entry(e); }
      last := Entry(e);
      InsertCircles(old(first), old(last), old(next[..]), old(prev[..]), s, |s|, e, first, last, next[..], prev[..]);
      s := Insert(s, |s|, e);
    }

    /** CIRCLEQ_REMOVE. */
    method Remove(e: nat, ghost k: nat)
      requires Valid() && k < |s| && s[k] == e
      modifies this, next, prev
      ensures Valid() && s == Delete(old(s), k)
    {
      assert Circled(next[..], prev[..], s, k);
      if k + 1 < |s| { assert Circled(next[..], prev[..], s, k + 1); }
      if k > 0 { assert Circled(next[..], prev[..], s, k - 1); }
      if next[e].Head? { last := prev[e]; } else { prev[next[e].i] := prev[e]; }
      if prev[e].Head? { first := next[e]; } else { next[prev[e].i] := next[e]; }
      DeleteCircles(old(first), old(last), old(next[..]), old(prev[..]), s, k, first, last, next[..], prev[..]);
      s := Delete(s, k);
    }
  }
}
