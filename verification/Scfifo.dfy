/** Second-chance FIFO replacement (scfifo in vm.c) for any number n of RAM pages. */
module Scfifo {

  /** A hand of n acts as 0. */
  function Base(n: nat, hand: nat): nat {
    if hand < n then hand else 0
  }

  /** The slot d places past the hand. */
  function Ahead(n: nat, hand: nat, d: nat): (s: nat)
    requires d <= n && n > 0
    ensures s < n
  {
    var x := Base(n, hand) + d;
    if x < n then x else x - n
  }

  /** How far past the hand slot s lies. */
  function Distance(n: nat, hand: nat, s: nat): (d: nat)
    requires s < n
    ensures d < n && Ahead(n, hand, d) == s
  {
    if s >= Base(n, hand) then s - Base(n, hand) else s + n - Base(n, hand)
  }

  lemma DistanceAhead(n: nat, hand: nat, d: nat)
    requires d < n
    ensures Distance(n, hand, Ahead(n, hand, d)) == d
  {}

  /** The distance from the hand to the first page whose accessed bit is off; n if all are on. */
  function Passed(acc: seq<bool>, hand: nat, d: nat): (r: nat)
    requires |acc| > 0 && d <= |acc|
    ensures d <= r <= |acc|
    ensures forall e :: d <= e < r ==> acc[Ahead(|acc|, hand, e)]
    ensures r < |acc| ==> !acc[Ahead(|acc|, hand, r)]
    decreases |acc| - d
  {
    if d == |acc| || !acc[Ahead(|acc|, hand, d)] then d else Passed(acc, hand, d + 1)
  }

  /** The slot that scfifo evicts: the hand's own if every page was accessed. */
  function Victim(acc: seq<bool>, hand: nat): (s: nat)
    requires |acc| > 0
    ensures s < |acc|
  {
    Ahead(|acc|, hand, Passed(acc, hand, 0))
  }

  /** Slot s's accessed bit afterwards: off exactly if it was passed. */
  predicate StillSet(acc: seq<bool>, hand: nat, s: nat)
    requires s < |acc|
  {
    acc[s] && Distance(|acc|, hand, s) >= Passed(acc, hand, 0)
  }

  function Cleared(acc: seq<bool>, hand: nat): seq<bool>
    requires |acc| > 0
  {
    seq(|acc|, s requires 0 <= s < |acc| => StillSet(acc, hand, s))
  }

  lemma {:induction false} PassedAll(acc: seq<bool>, hand: nat, d: nat, from: nat)
    requires from <= d <= |acc| && |acc| > 0 && forall e :: from <= e < d ==> acc[Ahead(|acc|, hand, e)]
    ensures Passed(acc, hand, from) == Passed(acc, hand, d)
    decreases d - from
  {
    if from < d {
      PassedAll(acc, hand, d, from + 1);
    }
  }

  /** Slots are passed in circular order from the hand. */
  predicate PassedTo(now: seq<bool>, acc: seq<bool>, hand: nat, d: nat) {
    && |now| == |acc| && d <= |acc|
    && (forall s :: 0 <= s < |acc| ==> now[s] == (acc[s] && Distance(|acc|, hand, s) >= d))
    && (forall s :: 0 <= s < |acc| && Distance(|acc|, hand, s) < d ==> acc[s])
  }

  lemma PassOne(now: seq<bool>, acc: seq<bool>, hand: nat, s: nat)
    requires s < |acc| && PassedTo(now, acc, hand, Distance(|acc|, hand, s)) && now[s]
    ensures PassedTo(now[s := false], acc, hand, Distance(|acc|, hand, s) + 1)
  {
    var d := Distance(|acc|, hand, s);
    forall t | 0 <= t < |acc|
      ensures Distance(|acc|, hand, t) == d ==> t == s
    {}
  }

  lemma StopHere(now: seq<bool>, acc: seq<bool>, hand: nat, s: nat)
    requires s < |acc| && PassedTo(now, acc, hand, Distance(|acc|, hand, s)) && !now[s]
    ensures s == Victim(acc, hand) && now == Cleared(acc, hand)
  {
    var d := Distance(|acc|, hand, s);
    forall e | 0 <= e < d
      ensures acc[Ahead(|acc|, hand, e)]
    {
      DistanceAhead(|acc|, hand, e);
    }
    PassedAll(acc, hand, d, 0);
  }

  /** A whole turn has cleared every bit; the hand's own slot is taken. */
  lemma AllPassed(now: seq<bool>, acc: seq<bool>, hand: nat)
    requires |acc| > 0 && PassedTo(now, acc, hand, |acc|)
    ensures Victim(acc, hand) == Base(|acc|, hand) && now == Cleared(acc, hand)
    ensures forall s :: 0 <= s < |acc| ==> !now[s]
  {
    forall e | 0 <= e < |acc|
      ensures acc[Ahead(|acc|, hand, e)]
    {
      DistanceAhead(|acc|, hand, e);
    }
    PassedAll(acc, hand, |acc|, 0);
  }

  // ----- runs: between evictions the program touches pages

  function Touched(acc: seq<bool>, pages: set<nat>): seq<bool> {
    seq(|acc|, s requires 0 <= s < |acc| => acc[s] || s in pages)
  }

  /** The slots evicted over a run; pages[k] are touched before the k-th eviction. */
  function Victims(acc: seq<bool>, hand: nat, pages: seq<set<nat>>): seq<nat>
    requires |acc| > 0
    decreases |pages|
  {
    if pages == [] then []
    else
      var now := Touched(acc, pages[0]);
      var v := Victim(now, hand);
      [v] + Victims(Cleared(now, hand), Base(|acc|, v + 1), pages[1..])
  }

  /** How many evictions slot s can still outlive: its distance from the hand, and a whole turn
      more if it has a second chance. */
  function Lives(acc: seq<bool>, hand: nat, s: nat): (p: nat)
    requires s < |acc|
    ensures p < 2 * |acc|
  {
    Distance(|acc|, hand, s) + if acc[s] then |acc| else 0
  }

  lemma OneLifeLess(acc: seq<bool>, hand: nat, s: nat)
    requires s < |acc| && s != Victim(acc, hand)
    ensures |Cleared(acc, hand)| == |acc|
    ensures Lives(Cleared(acc, hand), Base(|acc|, Victim(acc, hand) + 1), s) < Lives(acc, hand, s)
  {
    var n, p := |acc|, Passed(acc, hand, 0);
    var d := Distance(n, hand, s);
    if p < n {
      DistanceAhead(n, hand, p);
    }
  }

  lemma Untouched(acc: seq<bool>, pages: set<nat>, hand: nat, s: nat)
    requires s < |acc| && s !in pages
    ensures |Touched(acc, pages)| == |acc| && Lives(Touched(acc, pages), hand, s) == Lives(acc, hand, s)
  {}

  /** A page touched since the last eviction is not the next one evicted, unless all have been
      accessed; and whatever is evicted was not accessed, or all were. */
  lemma SecondChance(acc: seq<bool>, hand: nat, pages: seq<set<nat>>, s: nat)
    requires |acc| > 0 && pages != [] && s < |acc|
    requires exists t :: 0 <= t < |acc| && !acc[t] && t !in pages[0]
    ensures acc[s] || s in pages[0] ==> Victims(acc, hand, pages)[0] != s
  {
    var now := Touched(acc, pages[0]);
    var t :| 0 <= t < |acc| && !acc[t] && t !in pages[0];
    assert now[Ahead(|acc|, hand, Distance(|acc|, hand, t))] == now[t] == false;
    assert Passed(now, hand, 0) <= Distance(|acc|, hand, t);
  }

  /** A page never touched again is evicted within twice as many evictions as there are pages. */
  lemma {:induction false} EvictedInTime(acc: seq<bool>, hand: nat, pages: seq<set<nat>>, s: nat)
    requires s < |acc| && |pages| > Lives(acc, hand, s) && (forall k :: 0 <= k < |pages| ==> s !in pages[k])
    ensures exists k ::
      0 <= k <= Lives(acc, hand, s) && k < |Victims(acc, hand, pages)| && Victims(acc, hand, pages)[k] == s
    decreases |pages|
  {
    hide Cleared, Victim, Touched, Lives;
    Untouched(acc, pages[0], hand, s);
    var now := Touched(acc, pages[0]);
    var v := Victim(now, hand);
    var vs := Victims(acc, hand, pages);
    if v == s {
      assert vs[0] == s;
    } else {
      OneLifeLess(now, hand, s);
      var next, hand' := Cleared(now, hand), Base(|acc|, v + 1);
      EvictedInTime(next, hand', pages[1..], s);
      var rest := Victims(next, hand', pages[1..]);
      var k :| 0 <= k <= Lives(next, hand', s) && k < |rest| && rest[k] == s;
      assert vs[k + 1] == s;
    }
  }

  lemma WithinTwoTurns(acc: seq<bool>, hand: nat, pages: seq<set<nat>>, s: nat)
    requires s < |acc| && |pages| >= 2 * |acc| && (forall k :: 0 <= k < |pages| ==> s !in pages[k])
    ensures exists k :: 0 <= k < 2 * |acc| && k < |Victims(acc, hand, pages)| && Victims(acc, hand, pages)[k] == s
  {
    EvictedInTime(acc, hand, pages, s);
  }

  lemma {:induction false} SamePassed(acc: seq<bool>, hand: nat, hand': nat, d: nat)
    requires |acc| > 0 && d <= |acc| && Base(|acc|, hand) == Base(|acc|, hand')
    ensures Passed(acc, hand, d) == Passed(acc, hand', d)
    decreases |acc| - d
  {
    if d < |acc| {
      SamePassed(acc, hand, hand', d + 1);
    }
  }

  /** Hands n and 0 are the same hand. */
  lemma SameHand(acc: seq<bool>, hand: nat, hand': nat)
    requires |acc| > 0 && Base(|acc|, hand) == Base(|acc|, hand')
    ensures Victim(acc, hand) == Victim(acc, hand') && Cleared(acc, hand) == Cleared(acc, hand')
  {
    SamePassed(acc, hand, hand', 0);
    forall s | 0 <= s < |acc|
      ensures StillSet(acc, hand, s) == StillSet(acc, hand', s)
    {}
  }

  /** The hand and the accessed bits of one process's RAM pages. */
  class Clock {
    const acc: array<bool>
    var clockHand: nat

    ghost predicate Valid()
      reads this
    {
      acc.Length > 0 && clockHand <= acc.Length
    }

    constructor (n: nat)
      requires n > 0
      ensures Valid() && acc.Length == n && clockHand == 0 && fresh(acc)
    {
      acc := new bool[n](_ => false);
      clockHand := 0;
    }

    /** Returns the first page in circular order from the hand that was not accessed, or the
        hand's own if all were, and switches off the bits of exactly the pages passed. */
    method Scfifo() returns (r: nat)
      requires Valid()
      modifies `clockHand, acc
      ensures Valid() && r == Victim(old(acc[..]), old(clockHand))
      ensures acc[..] == Cleared(old(acc[..]), old(clockHand))
      ensures Base(acc.Length, clockHand) == Base(acc.Length, r + 1)
    {
      hide Cleared, Victim;
      ghost var acc0, hand := acc[..], clockHand;
      var n := acc.Length;
      ghost var turns := 0;
      while true
        invariant clockHand == hand && 0 <= turns <= 1
        invariant turns == 0 ==> PassedTo(acc[..], acc0, hand, 0)
        invariant turns == 1 ==> PassedTo(acc[..], acc0, hand, n)
        decreases 1 - turns
      {
        if turns == 1 {
          AllPassed(acc[..], acc0, hand);
        }
        var i := clockHand;
        while i < n
          invariant clockHand == hand && hand <= i <= n && (turns == 1 ==> i == hand)
          invariant turns == 0 ==> PassedTo(acc[..], acc0, hand, i - hand)
          invariant turns == 1 ==> PassedTo(acc[..], acc0, hand, n)
        {
          if !acc[i] {
            if turns == 0 {
              StopHere(acc[..], acc0, hand, i);
            }
            if clockHand == n - 1 {
              clockHand := 0;
            } else {
              clockHand := i + 1;
            }
            return i;
          }
          PassOne(acc[..], acc0, hand, i);
          acc[i] := false;
          i := i + 1;
        }
        var j := 0;
        while j < clockHand
          invariant clockHand == hand && 0 <= j <= hand && (turns == 1 ==> j == 0 && hand == n)
          invariant turns == 0 ==> PassedTo(acc[..], acc0, hand, if hand == n then j else n - hand + j)
          invariant turns == 1 ==> PassedTo(acc[..], acc0, hand, n)
        {
          if !acc[j] {
            if turns == 0 {
              StopHere(acc[..], acc0, hand, j);
            }
            clockHand := j + 1;
            return j;
          }
          PassOne(acc[..], acc0, hand, j);
          acc[j] := false;
          j := j + 1;
        }
        turns := turns + 1;
      }
    }

    /** Sets the accessed bits of the pages touched. */
    method Touch(pages: set<nat>)
      modifies acc
      ensures acc[..] == Touched(old(acc[..]), pages)
    {
      for s := 0 to acc.Length
        invariant forall t :: 0 <= t < acc.Length ==> acc[t] == (old(acc[t]) || (t < s && t in pages))
      {
        if s in pages {
          acc[s] := true;
        }
      }
    }

    /** Evictions with touches in between are the run specified above. */
    method Run(pages: seq<set<nat>>) returns (vs: seq<nat>)
      requires Valid()
      modifies `clockHand, acc
      ensures Valid() && vs == Victims(old(acc[..]), old(Base(acc.Length, clockHand)), pages)
    {
      hide Cleared, Victim, Touched;
      vs := [];
      ghost var all := Victims(acc[..], Base(acc.Length, clockHand), pages);
      var k := 0;
      while k < |pages|
        invariant 0 <= k <= |pages| && Valid()
        invariant all == vs + Victims(acc[..], Base(acc.Length, clockHand), pages[k..])
      {
        Touch(pages[k]);
        SameHand(acc[..], clockHand, Base(acc.Length, clockHand));
        assert pages[k..][1..] == pages[k + 1..];
        var v := Scfifo();
        vs := vs + [v];
        k := k + 1;
      }
    }
  }
}
