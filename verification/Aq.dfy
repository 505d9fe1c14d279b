/** The advancing queue of the AQ policy (vm.c, proc.c): a doubly linked list of RAM slots. Pages
    enter at the head and are evicted at the tail; on a clock tick accessed pages move ahead. */
module Aq {
  import opened Common

  class QueueNode {
    const page_index: nat
    var next: QueueNode?
    var prev: QueueNode?

    /** A page from kalloc: next and prev are whatever it held. */
    constructor (index: nat)
      ensures page_index == index
    {
      page_index := index;
    }
  }

  ghost predicate LinkAt(order: seq<QueueNode>, i: nat)
    requires i < |order|
    reads order
  {
    && order[i].prev == (if i == 0 then null else order[i - 1])
    && order[i].next == (if i + 1 == |order| then null else order[i + 1])
  }

  ghost predicate Apart(order: seq<QueueNode>) {
    forall i, j :: 0 <= i < j < |order| ==> order[i] != order[j]
  }

  /** order, from head to tail, is a well-formed doubly linked list. */
  ghost predicate Linked(order: seq<QueueNode>)
    reads order
  {
    Apart(order) && forall i :: 0 <= i < |order| ==> LinkAt(order, i)
  }

  /** The RAM slots named by the nodes. */
  function Indices(order: seq<QueueNode>): seq<nat> {
    seq(|order|, i requires 0 <= i < |order| => order[i].page_index)
  }

  /** Neighbours k - 1 and k exchanged. */
  function Swapped<T>(s: seq<T>, k: nat): seq<T>
    requires 0 < k < |s|
  {
    s[k - 1 := s[k]][k := s[k - 1]]
  }

  lemma SwappedSame<T>(s: seq<T>, k: nat)
    requires 0 < k < |s|
    ensures multiset(Swapped(s, k)) == multiset(s) && |Swapped(s, k)| == |s| && Swapped(s, k)[k - 1] == s[k]
  {}

  lemma SwapApart(order: seq<QueueNode>, k: nat)
    requires Apart(order) && 0 < k < |order|
    ensures Apart(Swapped(order, k))
  {}

  /** The links around nodes k - 1 and k after they have changed places. */
  ghost predicate Exchanged(order: seq<QueueNode>, k: nat)
    requires 0 < k < |order|
    reads order
  {
    && order[k].next == order[k - 1] && order[k].prev == (if k > 1 then order[k - 2] else null)
    && order[k - 1].prev == order[k] && order[k - 1].next == (if k + 1 < |order| then order[k + 1] else null)
    && (k > 1 ==> order[k - 2].next == order[k] && order[k - 2].prev == (if k > 2 then order[k - 3] else null))
    && (k + 1 < |order| ==>
          && order[k + 1].prev == order[k - 1]
          && order[k + 1].next == (if k + 2 < |order| then order[k + 2] else null))
    && (forall i :: 0 <= i < |order| && (i + 2 < k || i > k + 1) ==> LinkAt(order, i))
  }

  lemma ExchangedLinked(order: seq<QueueNode>, k: nat)
    requires Apart(order) && 0 < k < |order| && Exchanged(order, k)
    ensures Linked(Swapped(order, k))
  {
    var order' := Swapped(order, k);
    SwapApart(order, k);
    forall i | 0 <= i < |order|
      ensures LinkAt(order', i)
    {
      if i + 2 < k || i > k + 1 {
        assert LinkAt(order, i);
      }
    }
  }

  /** A list whose last next has not been set. */
  ghost predicate LinkedOpen(order: seq<QueueNode>)
    reads order
  {
    && Apart(order)
    && (forall i :: 0 <= i < |order| ==> OpenAt(order, i))
  }

  ghost predicate OpenAt(order: seq<QueueNode>, i: nat)
    requires i < |order|
    reads order
  {
    && order[i].prev == (if i == 0 then null else order[i - 1])
    && (i + 1 < |order| ==> order[i].next == order[i + 1])
  }

  lemma PrevOf(order: seq<QueueNode>, k: nat)
    requires Linked(order) && k < |order|
    ensures order[k].prev == if k == 0 then null else order[k - 1]
  {
    assert LinkAt(order, k);
  }

  lemma NextOf(order: seq<QueueNode>, k: nat)
    requires Linked(order) && k < |order|
    ensures order[k].next == if k + 1 == |order| then null else order[k + 1]
  {
    assert LinkAt(order, k);
  }

  lemma OneOpen(x: QueueNode)
    requires x.prev == null
    ensures LinkedOpen([x])
  {}

  lemma SameIndices(a: seq<QueueNode>, b: seq<QueueNode>)
    requires |a| == |b| && forall i :: 0 <= i < |a| ==> a[i].page_index == b[i].page_index
    ensures Indices(a) == Indices(b)
  {}

  lemma SameNodes(order: seq<QueueNode>, order0: seq<QueueNode>)
    requires multiset(order) == multiset(order0)
    ensures |order| == |order0| && forall i :: 0 <= i < |order| ==> order[i] in order0
  {
    assert |multiset(order)| == |order| && |multiset(order0)| == |order0|;
    forall i | 0 <= i < |order|
      ensures order[i] in order0
    {
      assert order[i] in multiset(order);
    }
  }

  lemma SwappedIndices(order: seq<QueueNode>, k: nat)
    requires 0 < k < |order|
    ensures Indices(Swapped(order, k)) == Swapped(Indices(order), k)
  {}

  // ----- one pass of updateAQ

  /** The arguments of a turn: the queue names existing slots. */
  predicate PassOk(idx: seq<nat>, acc: seq<bool>, k: int, currPage: nat, prevPage: nat) {
    k < |idx| && currPage < |acc| && prevPage < |acc| && forall i :: 0 <= i < |idx| ==> idx[i] < |acc|
  }

  /** The turns for node k and those before it, from tail to head. currPage is not the page of
      node k except in the first turn: it is the page of the node visited before. */
  function Pass(idx: seq<nat>, acc: seq<bool>, k: int, currPage: nat, prevPage: nat): (r: (seq<nat>, seq<bool>))
    requires PassOk(idx, acc, k, currPage, prevPage)
    ensures multiset(r.0) == multiset(idx) && |r.1| == |acc| && forall s :: 0 <= s < |acc| && r.1[s] ==> acc[s]
    decreases k + 1
  {
    if k < 0 then (idx, acc)
    else
      var ahead := acc[currPage] && k > 0 && !acc[prevPage];
      var idx', k' := if ahead then Swapped(idx, k) else idx, if ahead then k - 1 else k;
      Pass(idx', acc[currPage := false], k' - 1, idx'[k'], if k' > 0 then idx'[k' - 1] else prevPage)
  }

  lemma PassTurn(idx: seq<nat>, acc: seq<bool>, k: nat, currPage: nat, prevPage: nat)
    requires PassOk(idx, acc, k, currPage, prevPage)
    ensures
      var ahead := acc[currPage] && k > 0 && !acc[prevPage];
      var idx', k' := if ahead then Swapped(idx, k) else idx, if ahead then k - 1 else k;
      var prevPage' := if k' > 0 then idx'[k' - 1] else prevPage;
      && PassOk(idx', acc[currPage := false], k' - 1, idx'[k'], prevPage')
      && Pass(idx', acc[currPage := false], k' - 1, idx'[k'], prevPage') == Pass(idx, acc, k, currPage, prevPage)
  {}

  /** The whole pass. A queue of one page is left alone, accessed bit and all. */
  function Updated(idx: seq<nat>, acc: seq<bool>): (seq<nat>, seq<bool>) {
    var n := |idx|;
    if n < 2 || !PassOk(idx, acc, n - 1, idx[n - 1], idx[n - 2]) then (idx, acc)
    else Pass(idx, acc, n - 1, idx[n - 1], idx[n - 2])
  }

  lemma UpdatedSame(idx: seq<nat>, acc: seq<bool>)
    ensures multiset(Updated(idx, acc).0) == multiset(idx) && (|idx| < 2 ==> Updated(idx, acc) == (idx, acc))
  {}

  /** Nothing accessed: nothing changes. */
  lemma {:induction false} PassQuiet(idx: seq<nat>, acc: seq<bool>, k: int, currPage: nat, prevPage: nat)
    requires PassOk(idx, acc, k, currPage, prevPage) && !acc[currPage] && forall i :: 0 <= i <= k ==> !acc[idx[i]]
    ensures Pass(idx, acc, k, currPage, prevPage) == (idx, acc)
    decreases k + 1
  {
    if k >= 0 {
      assert acc[currPage := false] == acc;
      PassQuiet(idx, acc, k - 1, idx[k], if k > 0 then idx[k - 1] else prevPage);
    }
  }

  lemma NoneAccessed(idx: seq<nat>, acc: seq<bool>)
    requires forall i :: 0 <= i < |idx| ==> idx[i] < |acc| && !acc[idx[i]]
    ensures Updated(idx, acc) == (idx, acc)
  {
    var n := |idx|;
    if n >= 2 {
      PassQuiet(idx, acc, n - 1, idx[n - 1], idx[n - 2]);
    }
  }

  /** Only the page at the tail was accessed: it moves ahead by one and its bit is cleared. */
  lemma TailAdvances(idx: seq<nat>, acc: seq<bool>)
    requires |idx| >= 2 && NoDuplicates(idx)
    requires forall i :: 0 <= i < |idx| ==> idx[i] < |acc| && (acc[idx[i]] <==> i == |idx| - 1)
    ensures Updated(idx, acc) == (Swapped(idx, |idx| - 1), acc[idx[|idx| - 1] := false])
  {
    var n := |idx|;
    var idx', acc' := Swapped(idx, n - 1), acc[idx[n - 1] := false];
    PassTurn(idx, acc, n - 1, idx[n - 1], idx[n - 2]);
    AllQuiet(idx, acc);
    hide Pass, Swapped;
    PassQuiet(idx', acc', n - 3, idx'[n - 2], if n > 2 then idx'[n - 3] else idx[n - 2]);
  }

  lemma AllQuiet(idx: seq<nat>, acc: seq<bool>)
    requires |idx| >= 2 && NoDuplicates(idx)
    requires forall i :: 0 <= i < |idx| ==> idx[i] < |acc| && (acc[idx[i]] <==> i == |idx| - 1)
    ensures
      var n := |idx|;
      var idx', acc' := Swapped(idx, n - 1), acc[idx[n - 1] := false];
      && idx'[n - 2] == idx[n - 1] && PassOk(idx', acc', n - 3, idx'[n - 2], idx[n - 2])
      && (n > 2 ==> idx'[n - 3] < |acc'|) && forall i :: 0 <= i < n ==> !acc'[idx'[i]]
  {}

  /** Every page of the queue up to k was accessed, and so was the one visited before, or it was the
      tail: the order stays, and the bits of pages 1 to k + 1 are cleared. */
  lemma {:induction false} PassLoud(idx: seq<nat>, acc: seq<bool>, k: int, prevPage: nat)
    requires -1 <= k < |idx| - 1 && NoDuplicates(idx) && PassOk(idx, acc, k, idx[k + 1], prevPage)
    requires (k >= 0 ==> prevPage == idx[k]) && forall i :: 0 <= i <= k ==> acc[idx[i]]
    ensures Pass(idx, acc, k, idx[k + 1], prevPage).0 == idx
    ensures forall i :: 0 <= i < |idx| ==>
      Pass(idx, acc, k, idx[k + 1], prevPage).1[idx[i]] == (acc[idx[i]] && !(0 < i <= k + 1 && k >= 0))
    decreases k + 1
  {
    if k >= 0 {
      var acc' := acc[idx[k + 1] := false];
      PassTurn(idx, acc, k, idx[k + 1], prevPage);
      PassLoud(idx, acc', k - 1, if k > 0 then idx[k - 1] else prevPage);
    }
  }

  lemma AllAccessed(idx: seq<nat>, acc: seq<bool>)
    requires |idx| >= 2 && NoDuplicates(idx) && forall i :: 0 <= i < |idx| ==> idx[i] < |acc| && acc[idx[i]]
    ensures Updated(idx, acc).0 == idx
    ensures forall i :: 0 <= i < |idx| ==> (Updated(idx, acc).1[idx[i]] <==> i == 0)
  {
    var n := |idx|;
    PassTurn(idx, acc, n - 1, idx[n - 1], idx[n - 2]);
    PassLoud(idx, acc[idx[n - 1] := false], n - 2, idx[n - 2]);
  }

  // ----- runs

  /** Growth into a free RAM slot, an eviction whose slot is filled again, or a clock tick after
      the program touched some pages. */
  datatype Event = Grow(slot: nat) | Replace | Tick(touched: set<nat>)

  /** The RAM slots in use after a run. */
  function Used(used: set<nat>, es: seq<Event>): set<nat>
    decreases |es|
  {
    if es == [] then used
    else
      var before := Used(used, es[..|es|-1]);
      if es[|es|-1].Grow? then before + {es[|es|-1].slot} else before
  }

  /** Each growth takes a slot that is free, and there is something to evict. */
  ghost predicate Possible(used: set<nat>, es: seq<Event>, n: nat) {
    forall k :: 0 <= k < |es| ==>
      && (es[k].Grow? ==> es[k].slot < n && es[k].slot !in Used(used, es[..k]))
      && (es[k].Replace? ==> Used(used, es[..k]) != {})
  }

  /** The queue names every used slot exactly once. */
  ghost predicate NamesEach(idx: seq<nat>, used: set<nat>) {
    multiset(idx) == multiset(used)
  }

  lemma GrowNames(idx: seq<nat>, used: set<nat>, x: nat)
    requires NamesEach(idx, used) && x !in used
    ensures NamesEach([x] + idx, used + {x})
  {
    assert multiset([x] + idx) == multiset{x} + multiset(idx);
    assert multiset(used + {x}) == multiset(used) + multiset{x};
  }

  lemma RotateNames(idx: seq<nat>, used: set<nat>, rest: seq<nat>, x: nat)
    requires NamesEach(idx, used) && idx == rest + [x]
    ensures NamesEach([x] + rest, used)
  {
    assert multiset([x] + rest) == multiset(rest + [x]);
  }

  lemma TickNames(idx: seq<nat>, idx': seq<nat>, used: set<nat>)
    requires NamesEach(idx, used) && multiset(idx') == multiset(idx)
    ensures NamesEach(idx', used)
  {}

  lemma NamesNone(idx: seq<nat>, used: set<nat>)
    requires NamesEach(idx, used)
    ensures idx == [] <==> used == {}
  {
    assert |multiset(idx)| == |idx|;
    assert |multiset(used)| == |used|;
  }

  class Queue {
    const acc: array<bool>
    var queue_head: QueueNode?
    var queue_tail: QueueNode?
    ghost var order: seq<QueueNode>

    ghost predicate Valid()
      reads this, order
    {
      && Linked(order)
      && queue_head == (if order == [] then null else order[0])
      && queue_tail == (if order == [] then null else order[|order| - 1])
      && (forall i :: 0 <= i < |order| ==> order[i].page_index < acc.Length)
    }

    constructor (n: nat)
      ensures Valid() && order == [] && acc.Length == n && fresh(acc)
    {
      acc := new bool[n](_ => false);
      queue_head, queue_tail, order := null, null, [];
    }

    /** update_selectionfiled_allocuvm and update_selectionfiled_pagefault: a new node in front. */
    method InsertHead(index: nat)
      requires Valid() && index < acc.Length
      modifies this, order
      ensures Valid() && Indices(order) == [index] + Indices(old(order))
      ensures |order| == |old(order)| + 1 && fresh(order[0]) && order[1..] == old(order)
    {
      var node := new QueueNode(index);
      if queue_head == null && queue_tail == null {
        queue_head := node;
        queue_tail := node;
        queue_head.next := null;
        queue_head.prev := null;
      } else {
        assert LinkAt(order, 0);
        queue_head.prev := node;
        node.next := queue_head;
        queue_head := node;
        queue_head.prev := null;
      }
      ghost var order0 := order;
      order := [node] + order;
      forall i | 0 <= i < |order|
        ensures LinkAt(order, i)
      {
        if i > 0 {
          assert old(LinkAt(order0, i - 1));
        }
      }
    }

    /** aq: the slot at the tail leaves the queue. False is the panic on an empty queue. */
    method EvictTail() returns (res: nat, ok: bool)
      requires Valid()
      modifies this, order
      ensures Valid() && ok == (old(order) != [])
      ensures ok ==> Indices(old(order)) == Indices(order) + [res] && order == old(order)[..|old(order)| - 1]
      ensures !ok ==> order == old(order)
    {
      if queue_tail == null || queue_head == null {
        return 0, false;
      }
      res, ok := queue_tail.page_index, true;
      ghost var n := |order|;
      assert LinkAt(order, n - 1);
      var newTail: QueueNode?;
      if queue_tail == queue_head {
        queue_head := null;
        newTail := null;
      } else {
        queue_tail.prev.next := null;
        newTail := queue_tail.prev;
      }
      queue_tail := newTail;
      ghost var order0 := order;
      order := order[..n - 1];
      forall i | 0 <= i < |order|
        ensures LinkAt(order, i)
      {
        assert old(LinkAt(order0, i));
      }
    }

    /** The pointer assignments of swapAQ. */
    method Relink(curr: QueueNode, ghost k: nat)
      requires Valid() && 0 < k < |order| && order[k] == curr
      modifies `queue_head, `queue_tail, order
      ensures Exchanged(order, k)
      ensures queue_head == (if k == 1 then curr else old(queue_head))
      ensures queue_tail == (if k == |order| - 1 then order[k - 1] else old(queue_tail))
    {
      ghost var n := |order|;
      assert LinkAt(order, k) && LinkAt(order, k - 1);
      assert k > 1 ==> LinkAt(order, k - 2);
      assert k + 1 < n ==> LinkAt(order, k + 1);
      var prev := curr.prev;
      assert curr == queue_tail <==> k == n - 1;
      assert prev == queue_head <==> k == 1;
      if curr == queue_tail {
        queue_tail := prev;
        queue_tail.next := null;
      }
      if prev == queue_head {
        queue_head := curr;
        queue_head.prev := null;
      }
      var maybeLeft, maybeRight := prev.prev, curr.next;
      assert maybeLeft == (if k > 1 then order[k - 2] else null);
      assert maybeRight == (if k + 1 < n then order[k + 1] else null);
      curr.next := prev;
      prev.prev := curr;
      if maybeLeft != null {
        curr.prev := maybeLeft;
        maybeLeft.next := curr;
      }
      if maybeRight != null {
        prev.next := maybeRight;
        maybeRight.prev := prev;
      }
      forall i | 0 <= i < |order| && (i + 2 < k || i > k + 1)
        ensures LinkAt(order, i)
      {
        assert old(LinkAt(order, i));
      }
    }

    /** swapAQ: curr and the node before it change places, wherever they are. */
    method SwapAQ(curr: QueueNode, ghost k: nat)
      requires Valid() && 0 < k < |order| && order[k] == curr
      modifies this, order
      ensures Valid() && order == Swapped(old(order), k)
    {
      Relink(curr, k);
      ExchangedLinked(order, k);
      order := Swapped(order, k);
    }

    /** One turn of updateAQ's loop: if page `currPage` was accessed and `prevPage` was not, node
        curr moves ahead by one; k' is where it then is. */
    method Advance(curr: QueueNode, ghost k: nat, currPage: nat, prevPage: nat) returns (ghost k': nat)
      requires Valid() && k < |order| && order[k] == curr && currPage < acc.Length && prevPage < acc.Length
      modifies this, order, acc
      ensures Valid() && multiset(order) == multiset(old(order)) && k' <= k && k' < |order| && order[k'] == curr
      ensures
        var ahead := old(acc[currPage]) && k > 0 && !old(acc[prevPage]);
        && k' == (if ahead then k - 1 else k)
        && Indices(order) == (if ahead then Swapped(Indices(old(order)), k) else Indices(old(order)))
        && acc[..] == old(acc[..])[currPage := false]
    {
      hide Linked, Swapped;
      PrevOf(order, k);
      k' := k;
      if acc[currPage] {
        if curr.prev != null {
          if !acc[prevPage] {
            SwappedSame(order, k);
            SwappedIndices(order, k);
            SwapAQ(curr, k);
            k' := k - 1;
          }
        }
        acc[currPage] := false;
      }
    }

    /** What the turns from node k on will make of the queue. */
    ghost predicate Heading(k: int, currPage: nat, prevPage: nat, end: (seq<nat>, seq<bool>))
      reads this, order, acc
    {
      && PassOk(Indices(order), acc[..], k, currPage, prevPage)
      && Pass(Indices(order), acc[..], k, currPage, prevPage) == end
    }

    /** The body of updateAQ's loop. */
    method Turn(curr: QueueNode, ghost k: nat, currPage: nat, prevPage: nat, ghost end: (seq<nat>, seq<bool>))
      returns (curr': QueueNode?, ghost k': int, currPage': nat, prevPage': nat)
      requires Valid() && k < |order| && order[k] == curr && currPage < acc.Length && prevPage < acc.Length
      requires Heading(k, currPage, prevPage, end)
      modifies this, order, acc
      ensures Valid() && multiset(order) == multiset(old(order)) && -1 <= k' < k && k' < |order|
      ensures curr' == if k' < 0 then null else order[k']
      ensures currPage' < acc.Length && prevPage' < acc.Length && Heading(k', currPage', prevPage', end)
    {
      hide Linked, Pass, PassOk, Swapped;
      PassTurn(Indices(order), acc[..], k, currPage, prevPage);
      k' := Advance(curr, k, currPage, prevPage);
      PrevOf(order, k');
      ghost var idx := Indices(order);
      assert curr.page_index == idx[k'] && (k' > 0 ==> order[k' - 1].page_index == idx[k' - 1]);
      hide Indices;
      currPage', prevPage' := curr.page_index, prevPage;
      if curr.prev != null {
        prevPage' := curr.prev.page_index;
      }
      curr' := curr.prev;
      k' := k' - 1;
    }

    /** updateAQ's loop. */
    method Sweep(tail: QueueNode, firstPage: nat, nextPage: nat, ghost end: (seq<nat>, seq<bool>))
      requires Valid() && order != [] && tail == order[|order| - 1] && firstPage < acc.Length && nextPage < acc.Length
      requires Heading(|order| - 1, firstPage, nextPage, end)
      modifies this, order, acc
      ensures Valid() && multiset(order) == multiset(old(order)) && (Indices(order), acc[..]) == end
    {
      hide Linked, Heading;
      var curr: QueueNode? := tail;
      var currPage: nat, prevPage: nat := firstPage, nextPage;
      ghost var k: int := |order| - 1;
      while curr != null
        invariant Valid() && multiset(order) == multiset(old(order)) && -1 <= k < |order|
        invariant curr == (if k < 0 then null else order[k])
        invariant currPage < acc.Length && prevPage < acc.Length && Heading(k, currPage, prevPage, end)
        decreases k + 1
      {
        SameNodes(order, old(order));
        curr, k, currPage, prevPage := Turn(curr, k, currPage, prevPage, end);
      }
      Arrived(currPage, prevPage, end);
    }

    lemma Started()
      requires Valid() && |order| >= 2
      ensures
        var n := |order|;
        Heading(n - 1, order[n - 1].page_index, order[n - 2].page_index, Updated(Indices(order), acc[..]))
    {
      hide Linked, Pass;
    }

    lemma Arrived(currPage: nat, prevPage: nat, end: (seq<nat>, seq<bool>))
      requires Heading(-1, currPage, prevPage, end)
      ensures (Indices(order), acc[..]) == end
    {}

    /** updateAQ, from tail to head. It permutes the nodes and only clears accessed bits. */
    method UpdateAQ()
      requires Valid()
      modifies this, order, acc
      ensures Valid() && multiset(order) == multiset(old(order))
      ensures multiset(Indices(order)) == multiset(Indices(old(order)))
      ensures (Indices(order), acc[..]) == Updated(Indices(old(order)), old(acc[..]))
    {
      hide Linked, Heading, Updated;
      UpdatedSame(Indices(order), acc[..]);
      if queue_tail == null || queue_head == null {
        return;
      }
      PrevOf(order, |order| - 1);
      var currPage: nat := queue_tail.page_index;
      if queue_tail.prev == null {
        return;
      }
      Started();
      Sweep(queue_tail, currPage, queue_tail.prev.page_index, Updated(Indices(order), acc[..]));
    }

    /** Sets the accessed bits of the pages touched. */
    method Touch(touched: set<nat>)
      modifies acc
      ensures forall s :: 0 <= s < acc.Length ==> acc[s] == (old(acc[s]) || s in touched)
    {
      for s := 0 to acc.Length
        invariant forall t :: 0 <= t < acc.Length ==> acc[t] == (old(acc[t]) || (t < s && t in touched))
      {
        if s in touched {
          acc[s] := true;
        }
      }
    }

    method Step(e: Event, ghost used: set<nat>)
      requires Valid() && NamesEach(Indices(order), used)
      requires e.Grow? ==> e.slot < acc.Length && e.slot !in used
      requires e.Replace? ==> used != {}
      modifies this, order, acc
      ensures Valid() && NamesEach(Indices(order), if e.Grow? then used + {e.slot} else used)
      ensures forall i :: 0 <= i < |order| ==> order[i] in old(order) || fresh(order[i])
    {
      hide Linked, NamesEach;
      match e
      case Grow(slot) =>
        GrowNames(Indices(order), used, slot);
        InsertHead(slot);
      case Replace =>
        NamesNone(Indices(order), used);
        ghost var order0 := order;
        var r, ok := EvictTail();
        assert r < acc.Length by {
          assert Indices(order0)[|order0| - 1] == r;
        }
        RotateNames(Indices(order0), used, Indices(order), r);
        InsertHead(r);
      case Tick(touched) =>
        Touch(touched);
        UpdateAQ();
        SameNodes(order, old(order));
        TickNames(Indices(old(order)), Indices(order), used);
    }

    /** Over every run of growth, eviction and clock ticks the queue stays a well-formed doubly
        linked list that names each used RAM slot exactly once. */
    method Run(es: seq<Event>, ghost used: set<nat>)
      requires Valid() && NamesEach(Indices(order), used) && Possible(used, es, acc.Length)
      modifies this, order, acc
      ensures Valid() && NamesEach(Indices(order), Used(used, es))
    {
      hide Linked, NamesEach;
      ghost var before := order;
      var k := 0;
      while k < |es|
        invariant 0 <= k <= |es| && Valid() && NamesEach(Indices(order), Used(used, es[..k]))
        invariant forall i :: 0 <= i < |order| ==> order[i] in before || fresh(order[i])
      {
        assert es[..k + 1][..k] == es[..k];
        Step(es[k], Used(used, es[..k]));
        k := k + 1;
      }
      assert es[..k] == es;
    }
  }

  /** A new node behind the last one. */
  method AppendNode(prev: QueueNode, index: nat, ghost built: seq<QueueNode>) returns (node: QueueNode)
    requires LinkedOpen(built) && built != [] && prev == built[|built| - 1]
    modifies prev
    ensures fresh(node) && node.page_index == index && LinkedOpen(built + [node])
  {
    node := new QueueNode(index);
    node.prev := prev;
    prev.next := node;
    ghost var order := built + [node];
    forall i | 0 <= i < |order|
      ensures OpenAt(order, i)
    {
      if i < |built| {
        assert old(OpenAt(built, i));
        assert order[i] == built[i] && (i > 0 ==> order[i - 1] == built[i - 1]);
      }
    }
  }

  ghost predicate CopyOf(built: seq<QueueNode>, order: seq<QueueNode>) {
    |built| <= |order| && forall i :: 0 <= i < |built| ==> built[i].page_index == order[i].page_index
  }

  /** copyAQ after the first node: the rest of the queue is copied behind it. */
  method CopyRest(q: Queue, first: QueueNode) returns (last: QueueNode, ghost built: seq<QueueNode>)
    requires q.Valid() && q.order != [] && first !in q.order && first.page_index == q.order[0].page_index
    requires first.prev == null
    modifies first
    ensures CopyOf(built, q.order) && |built| == |q.order| && LinkedOpen(built)
    ensures built[0] == first && last == built[|built| - 1]
    ensures forall i :: 0 < i < |built| ==> fresh(built[i])
  {
    hide Linked, LinkedOpen, CopyOf;
    OneOpen(first);
    built := [first];
    last := first;
    CopyStart(built, q.order);
    NextOf(q.order, 0);
    var oldCurr := q.queue_head.next;
    while oldCurr != null
      invariant 0 < |built| <= |q.order| && oldCurr == (if |built| == |q.order| then null else q.order[|built|])
      invariant CopyOf(built, q.order) && LinkedOpen(built) && built[0] == first && last == built[|built| - 1]
      invariant forall i :: 0 < i < |built| ==> fresh(built[i])
      invariant q.Valid()
      decreases |q.order| - |built|
    {
      NextOf(q.order, |built|);
      var npCurr := AppendNode(last, oldCurr.page_index, built);
      CopyMore(built, q.order, npCurr);
      last := npCurr;
      oldCurr := oldCurr.next;
      built := built + [npCurr];
    }
  }

  lemma CopyStart(built: seq<QueueNode>, order: seq<QueueNode>)
    requires |built| == 1 <= |order| && built[0].page_index == order[0].page_index
    ensures CopyOf(built, order)
  {}

  lemma CopyMore(built: seq<QueueNode>, order: seq<QueueNode>, node: QueueNode)
    requires CopyOf(built, order) && |built| < |order| && node.page_index == order[|built|].page_index
    ensures CopyOf(built + [node], order)
  {}

  /** The last step of copyAQ. */
  method CloseCopy(last: QueueNode, ghost built: seq<QueueNode>)
    requires LinkedOpen(built) && built != [] && last == built[|built| - 1]
    modifies last
    ensures Linked(built)
  {
    last.next := null;
    forall i | 0 <= i < |built|
      ensures LinkAt(built, i)
    {
      assert old(OpenAt(built, i));
    }
  }

  /** copyAQ: the child gets an equal queue on nodes of its own. */
  method CopyAQ(q: Queue) returns (np: Queue)
    requires q.Valid()
    ensures fresh(np) && np.Valid() && Indices(np.order) == Indices(q.order)
    ensures forall i :: 0 <= i < |np.order| ==> fresh(np.order[i])
  {
    hide Linked, LinkedOpen, Indices;
    np := new Queue(q.acc.Length);
    if q.queue_head != null {
      var first := new QueueNode(q.queue_head.page_index);
      np.queue_head := first;
      first.prev := null;
      var last;
      ghost var built;
      last, built := CopyRest(q, first);
      CloseCopy(last, built);
      np.queue_tail := last;
      np.order := built;
    }
    SameIndices(np.order, q.order);
  }
}
