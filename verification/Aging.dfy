/** The aging policies NFUA and LAPA (vm.c) for any number of RAM pages. A page's counter is an
    unsigned 32-bit word. */
module Aging {

  const BITS := 32
  const ALL_ONES := 0xFFFF_FFFF
  const TOP := 0x8000_0000

  /** One clock tick: shift right, and turn on the top bit if the page was accessed. */
  function Tick(c: nat, accessed: bool): nat {
    c / 2 + if accessed then TOP else 0
  }

  /** The counter of a page that was loaded and then ticked; the newest tick is last. */
  function Counter(hist: seq<bool>): nat
    decreases |hist|
  {
    if hist == [] then ALL_ONES else Tick(Counter(hist[..|hist|-1]), hist[|hist|-1])
  }

  // ----- binary numbers, highest bit first

  function Pow2(n: nat): nat {
    if n == 0 then 1 else 2 * Pow2(n - 1)
  }

  function Val(bits: seq<bool>): nat {
    if bits == [] then 0 else 2 * Val(bits[..|bits|-1]) + if bits[|bits|-1] then 1 else 0
  }

  lemma {:induction false} ValFirst(bits: seq<bool>)
    requires bits != []
    ensures Val(bits) == (if bits[0] then Pow2(|bits| - 1) else 0) + Val(bits[1..])
    decreases |bits|
  {
    if |bits| > 1 {
      var init := bits[..|bits|-1];
      ValFirst(init);
      assert bits[1..][..|bits|-2] == init[1..];
    }
  }

  lemma {:induction false} ValBound(bits: seq<bool>)
    ensures Val(bits) < Pow2(|bits|)
  {
    if bits != [] {
      ValBound(bits[..|bits|-1]);
    }
  }

  lemma {:induction false} OnesVal(n: nat)
    ensures Val(seq(n, _ => true)) == Pow2(n) - 1
  {
    if n > 0 {
      OnesVal(n - 1);
      assert seq(n, _ => true)[..n-1] == seq(n - 1, _ => true);
    }
  }

  lemma {:induction false} Pow2Add(m: nat, n: nat)
    ensures Pow2(m + n) == Pow2(m) * Pow2(n)
  {
    if m > 0 {
      Pow2Add(m - 1, n);
      assert Pow2(m + n) == 2 * Pow2(m - 1 + n);
    }
  }

  lemma Pow2Word()
    ensures Pow2(31) == TOP && Pow2(32) == ALL_ONES + 1
  {
    assert Pow2(8) == 256;
    Pow2Add(8, 8);
    Pow2Add(16, 8);
    Pow2Add(24, 7);
    assert Pow2(7) == 128;
  }

  // ----- a counter is the window of the page's history

  /** The last 32 ticks, newest first, after ones for the time before the page was loaded. */
  function Window(hist: seq<bool>): seq<bool> {
    seq(BITS, k requires 0 <= k < BITS => k >= |hist| || hist[|hist| - 1 - k])
  }

  lemma WindowShift(hist: seq<bool>)
    requires hist != []
    ensures Window(hist) == [hist[|hist|-1]] + Window(hist[..|hist|-1])[..BITS-1]
  {}

  lemma TickVal(w: seq<bool>, a: bool)
    requires |w| == BITS
    ensures Tick(Val(w), a) == Val([a] + w[..BITS-1])
  {
    Pow2Word();
    var v := [a] + w[..BITS-1];
    ValFirst(v);
    assert v[1..] == w[..BITS-1];
  }

  lemma {:induction false} CounterIsWindow(hist: seq<bool>)
    ensures Counter(hist) == Val(Window(hist)) < Pow2(BITS)
    decreases |hist|
  {
    ValBound(Window(hist));
    if hist == [] {
      Pow2Word();
      OnesVal(BITS);
      assert Window([]) == seq(BITS, _ => true);
    } else {
      hide Tick, Window, Val;
      var before := hist[..|hist|-1];
      CounterIsWindow(before);
      WindowShift(hist);
      WindowSize(before);
      TickVal(Window(before), hist[|hist|-1]);
    }
  }

  lemma WindowSize(hist: seq<bool>)
    ensures |Window(hist)| == BITS
  {}

  /** a is used less recently than b: at the newest tick where they differ, b was accessed. */
  predicate LessRecent(a: seq<bool>, b: seq<bool>)
    requires |a| == |b|
  {
    a != [] && if a[0] != b[0] then b[0] else LessRecent(a[1..], b[1..])
  }

  /** Comparing numbers is comparing bit strings from the newest tick on. */
  lemma {:induction false} NumericIsLexicographic(a: seq<bool>, b: seq<bool>)
    requires |a| == |b|
    ensures Val(a) < Val(b) <==> LessRecent(a, b)
    decreases |a|
  {
    if a != [] {
      ValFirst(a);
      ValFirst(b);
      ValBound(a[1..]);
      ValBound(b[1..]);
      NumericIsLexicographic(a[1..], b[1..]);
    }
  }

  // ----- counting ones

  lemma {:induction false} AllTrue(w: seq<bool>)
    ensures Trues(w) <= |w| && Trues(seq(|w|, _ => true)) == |w|
    decreases |w|
  {
    if w != [] {
      AllTrue(w[..|w|-1]);
      assert seq(|w|, _ => true)[..|w|-1] == seq(|w| - 1, _ => true);
    }
  }

  /** A page just loaded against one with history h. */
  lemma LoadedLatest(h: seq<bool>)
    ensures Counter(h) <= Counter([]) && !LessRecent(Window([]), Window(h)) && Trues(Window(h)) <= Trues(Window([]))
  {
    CounterIsWindow(h);
    CounterIsWindow([]);
    Pow2Word();
    NumericIsLexicographic(Window([]), Window(h));
    AllTrue(Window(h));
    assert Window([]) == seq(BITS, _ => true);
  }

  function Ones(c: nat): nat {
    if c == 0 then 0 else c % 2 + Ones(c / 2)
  }

  function Trues(bits: seq<bool>): nat {
    if bits == [] then 0 else Trues(bits[..|bits|-1]) + if bits[|bits|-1] then 1 else 0
  }

  /** The set bits of a counter are the accesses in its window. */
  lemma {:induction false} OnesAreAccesses(bits: seq<bool>)
    ensures Ones(Val(bits)) == Trues(bits)
  {
    if bits != [] {
      var init := bits[..|bits|-1];
      OnesAreAccesses(init);
      assert Val(bits) / 2 == Val(init);
    }
  }

  method CountSetBits(n: nat) returns (count: nat)
    ensures count == Ones(n)
  {
    count := 0;
    var m := n;
    while m != 0
      invariant count + Ones(m) == Ones(n)
    {
      count := count + m % 2;
      m := m / 2;
    }
  }

  // ----- LAPA

  predicate Fewest(c: seq<nat>, r: nat) {
    r < |c| && forall j :: 0 <= j < |c| ==> Ones(c[r]) <= Ones(c[j])
  }

  /** r is a page with fewest set bits and, among those, the smallest counter. */
  predicate Least(c: seq<nat>, r: nat) {
    Fewest(c, r) && forall j :: 0 <= j < |c| && Ones(c[j]) == Ones(c[r]) ==> c[r] <= c[j]
  }

  /** Page 0 has fewest set bits, exactly one other page ties with it, and that page's counter is
      smaller. */
  ghost predicate LoneTie(c: seq<nat>) {
    Fewest(c, 0) && exists j :: 0 < j < |c| && OnlyTie(c, j) && c[j] < c[0]
  }

  predicate OnlyTie(c: seq<nat>, j: nat) {
    0 < j < |c| && forall k :: 0 < k < |c| ==> (Ones(c[k]) == Ones(c[0]) <==> k == j)
  }

  /** Pages 1..n that tie with value m. */
  function Ties(c: seq<nat>, m: nat, n: nat): set<nat>
    requires n <= |c|
  {
    set k: nat | 1 <= k < n && Ones(c[k]) == m
  }

  lemma TiesNext(c: seq<nat>, m: nat, n: nat)
    requires 1 <= n < |c|
    ensures Ties(c, m, n + 1) == if Ones(c[n]) == m then Ties(c, m, n) + {n} else Ties(c, m, n)
    ensures n !in Ties(c, m, n)
  {}

  lemma NoTies(c: seq<nat>, m: nat, n: nat)
    requires n <= |c| && forall k :: 1 <= k < n ==> m < Ones(c[k])
    ensures Ties(c, m, n) == {}
  {}

  lemma OneTie(c: seq<nat>, j: nat)
    requires Fewest(c, 0) && Ties(c, Ones(c[0]), |c|) == {j}
    ensures OnlyTie(c, j)
  {
    assert j in Ties(c, Ones(c[0]), |c|);
    forall k | 0 < k < |c|
      ensures Ones(c[k]) == Ones(c[0]) <==> k == j
    {
      assert k in Ties(c, Ones(c[0]), |c|) <==> k == j;
    }
  }

  lemma Singleton(s: set<nat>) returns (x: nat)
    requires |s| == 1
    ensures s == {x}
  {
    x :| x in s;
    assert |s - {x}| == 0;
  }

  /** A page with fewest set bits, always; the smallest counter among those exactly when page 0
      is not in a lone tie that it loses. */
  method Lapa(c: seq<nat>) returns (minloc: nat)
    requires |c| > 0
    ensures Fewest(c, minloc)
    ensures Least(c, minloc) <==> !LoneTie(c)
    ensures LoneTie(c) ==> minloc == 0
  {
    hide Ones, Ties, LoneTie;
    var minNumOfOnes := CountSetBits(c[0]);
    NoTies(c, minNumOfOnes, 1);
    minloc := 0;
    var instances := 0;
    var i := 1;
    while i < |c|
      invariant 1 <= i <= |c| && minloc < i && minNumOfOnes == Ones(c[minloc])
      invariant forall j :: 0 <= j < i ==> minNumOfOnes <= Ones(c[j])
      invariant instances == |Ties(c, minNumOfOnes, i)|
      invariant minloc > 0 ==> minNumOfOnes < Ones(c[0])
    {
      var numOfOnes := CountSetBits(c[i]);
      TiesNext(c, numOfOnes, i);
      TiesNext(c, minNumOfOnes, i);
      if numOfOnes < minNumOfOnes {
        NoTies(c, numOfOnes, i);
        minNumOfOnes := numOfOnes;
        minloc := i;
        instances := 1;
      } else if numOfOnes == minNumOfOnes {
        instances := instances + 1;
      }
      i := i + 1;
    }
    FirstPass(c, minloc, instances);
    if instances > 1 {
      ghost var first := minloc;
      var minvalue := c[minloc];
      i := 1;
      while i < |c|
        invariant 1 <= i <= |c| && minloc < |c| && minvalue == c[minloc] && Ones(c[minloc]) == minNumOfOnes
        invariant minvalue <= c[first]
        invariant forall j :: 1 <= j < i && Ones(c[j]) == minNumOfOnes ==> minvalue <= c[j]
      {
        var numOfOnes := CountSetBits(c[i]);
        if numOfOnes == minNumOfOnes && c[i] < minvalue {
          minloc := i;
          minvalue := c[i];
        }
        i := i + 1;
      }
    }
  }

  /** What the first pass of lapa settles. */
  lemma FirstPass(c: seq<nat>, minloc: nat, instances: nat)
    requires Fewest(c, minloc) && instances == |Ties(c, Ones(c[minloc]), |c|)|
    requires minloc > 0 ==> Ones(c[minloc]) < Ones(c[0])
    ensures instances > 1 ==> !LoneTie(c)
    ensures instances <= 1 ==> (Least(c, minloc) <==> !LoneTie(c))
    ensures LoneTie(c) ==> minloc == 0
  {
    hide Ones;
    var m := Ones(c[minloc]);
    var ties := Ties(c, m, |c|);
    if minloc > 0 {
      assert !Fewest(c, 0);
      assert minloc in ties;
      if instances == 1 {
        var x := Singleton(ties);
        forall j | 0 <= j < |c| && Ones(c[j]) == m
          ensures j == minloc
        {
          assert j in ties;
        }
      }
    } else {
      if instances == 1 {
        var x := Singleton(ties);
        OneTie(c, x);
        assert Ones(c[x]) == m;
      }
      if LoneTie(c) {
        var j :| 0 < j < |c| && OnlyTie(c, j) && c[j] < c[0];
        assert ties == {j};
      }
      if instances == 0 {
        forall j | 0 < j < |c|
          ensures Ones(c[j]) != m
        {
          assert j !in ties;
        }
      }
    }
  }

  /** Such a tie: counters 2 and 1 on pages 0 and 1, more bits set everywhere else. */
  lemma LoneTieExists(n: nat)
    requires n >= 2
    ensures LoneTie(seq(n, k => if k == 0 then 2 else if k == 1 then 1 else 3))
  {
    var c: seq<nat> := seq(n, k => if k == 0 then 2 else if k == 1 then 1 else 3);
    assert Ones(1) == 1;
    assert Ones(2) == 1;
    assert Ones(3) == 2;
    assert OnlyTie(c, 1) && c[1] < c[0];
  }

  function Reverse(s: seq<bool>): seq<bool> {
    seq(|s|, k requires 0 <= k < |s| => s[|s| - 1 - k])
  }

  /** Every 32-bit value is the counter of some history, so the tie can arise. */
  lemma EveryCounterArises(bits: seq<bool>)
    requires |bits| == BITS
    ensures Counter(Reverse(bits)) == Val(bits)
  {
    CounterIsWindow(Reverse(bits));
    assert Window(Reverse(bits)) == bits;
  }

  // ----- NFUA

  method Nfua(c: seq<nat>) returns (minloc: nat)
    requires |c| > 0
    ensures minloc < |c| && (forall j :: 0 <= j < |c| ==> c[minloc] <= c[j])
    ensures forall j :: 0 <= j < minloc ==> c[minloc] < c[j]
  {
    var minval := c[0];
    minloc := 0;
    var i := 1;
    while i < |c|
      invariant 1 <= i <= |c| && minloc < i && minval == c[minloc]
      invariant forall j :: 0 <= j < i ==> minval <= c[j]
      invariant forall j :: 0 <= j < minloc ==> minval < c[j]
    {
      if c[i] < minval {
        minval := c[i];
        minloc := i;
      }
      i := i + 1;
    }
  }

  /** The aging fields of a process's RAM pages. hist[k] are the ticks since page k was loaded. */
  class AgingPages {
    const isused: array<bool>
    const accessed: array<bool>
    const counter: array<nat>
    ghost var hist: seq<seq<bool>>

    ghost predicate Valid()
      reads this, isused, counter
    {
      && isused.Length == accessed.Length == counter.Length == |hist|
      && isused != accessed
      && (forall k :: 0 <= k < |hist| && isused[k] ==> counter[k] == Counter(hist[k]))
    }

    constructor (n: nat)
      ensures Valid() && |hist| == n && fresh(isused) && fresh(accessed) && fresh(counter)
      ensures forall k :: 0 <= k < n ==> !isused[k]
    {
      isused := new bool[n](_ => false);
      accessed := new bool[n](_ => false);
      counter := new nat[n](_ => 0);
      hist := seq(n, _ => []);
    }

    /** A page is loaded into slot k: its counter starts with all ones, so that no page counts as
        used more recently or more often. */
    method Load(k: nat)
      requires Valid() && k < |hist|
      modifies `hist, isused, counter
      ensures Valid() && isused[k] && hist == old(hist)[k := []]
      ensures forall j :: 0 <= j < |hist| && j != k ==> isused[j] == old(isused[j]) && counter[j] == old(counter[j])
      ensures forall j :: 0 <= j < |hist| && isused[j] ==>
        && counter[j] <= counter[k] && !LessRecent(Window(hist[k]), Window(hist[j]))
        && Trues(Window(hist[j])) <= Trues(Window(hist[k]))
    {
      isused[k] := true;
      counter[k] := ALL_ONES;
      hist := hist[k := []];
      forall j | 0 <= j < |hist| && isused[j]
        ensures counter[j] <= counter[k] && !LessRecent(Window(hist[k]), Window(hist[j]))
        ensures Trues(Window(hist[j])) <= Trues(Window(hist[k]))
      {
        LoadedLatest(hist[j]);
      }
    }

    /** updateNfua and updateLapa: every used page records whether it was accessed. */
    method Update()
      requires Valid()
      modifies `hist, accessed, counter
      ensures Valid()
      ensures forall k :: 0 <= k < |hist| ==>
        if isused[k] then hist[k] == old(hist)[k] + [old(accessed[k])] && !accessed[k]
        else hist[k] == old(hist)[k] && accessed[k] == old(accessed[k])
    {
      ghost var hist0 := hist;
      var i := 0;
      while i < isused.Length
        invariant 0 <= i <= isused.Length && Valid() && |hist| == |hist0|
        invariant forall k :: 0 <= k < |hist| ==>
          if k < i && isused[k] then hist[k] == hist0[k] + [old(accessed[k])] && !accessed[k]
          else hist[k] == hist0[k] && accessed[k] == old(accessed[k])
      {
        if isused[i] {
          assert (hist[i] + [accessed[i]])[..|hist[i]|] == hist[i];
          hist := hist[i := hist[i] + [accessed[i]]];
          if accessed[i] {
            counter[i] := counter[i] / 2;
            counter[i] := counter[i] + TOP;
            accessed[i] := false;
          } else {
            counter[i] := counter[i] / 2;
          }
        }
        i := i + 1;
      }
    }

    /** nfua evicts the page least recently used by the last 32 ticks, the first such. */
    method EvictNfua() returns (r: nat)
      requires Valid() && |hist| > 0 && (forall k :: 0 <= k < |hist| ==> isused[k])
      ensures r < |hist| && (forall j :: 0 <= j < |hist| ==> !LessRecent(Window(hist[j]), Window(hist[r])))
      ensures forall j :: 0 <= j < r ==> LessRecent(Window(hist[r]), Window(hist[j]))
    {
      hide Val, Counter, LessRecent;
      r := Nfua(counter[..]);
      forall j | 0 <= j < |hist|
        ensures counter[j] < counter[r] <==> LessRecent(Window(hist[j]), Window(hist[r]))
        ensures counter[r] < counter[j] <==> LessRecent(Window(hist[r]), Window(hist[j]))
      {
        CounterIsWindow(hist[j]);
        CounterIsWindow(hist[r]);
        NumericIsLexicographic(Window(hist[j]), Window(hist[r]));
        NumericIsLexicographic(Window(hist[r]), Window(hist[j]));
      }
    }

    /** lapa evicts a page with the fewest accesses in the last 32 ticks. */
    method EvictLapa() returns (r: nat)
      requires Valid() && |hist| > 0 && (forall k :: 0 <= k < |hist| ==> isused[k])
      ensures r < |hist| && (forall j :: 0 <= j < |hist| ==> Trues(Window(hist[r])) <= Trues(Window(hist[j])))
      ensures !LoneTie(counter[..]) ==>
        forall j :: 0 <= j < |hist| && Trues(Window(hist[j])) == Trues(Window(hist[r])) ==>
          !LessRecent(Window(hist[j]), Window(hist[r]))
    {
      hide Val, Counter, Ones, LessRecent, LoneTie, Trues;
      var c := counter[..];
      r := Lapa(c);
      forall j | 0 <= j < |hist|
        ensures Ones(c[j]) == Trues(Window(hist[j]))
        ensures c[j] < c[r] <==> LessRecent(Window(hist[j]), Window(hist[r]))
      {
        CounterIsWindow(hist[j]);
        CounterIsWindow(hist[r]);
        OnesAreAccesses(Window(hist[j]));
        NumericIsLexicographic(Window(hist[j]), Window(hist[r]));
      }
    }
  }
}
