/** client/utils.c's in-place shuffle and the connection map built with it, client/epoll.c:60-70.
    The numbers rand() returns are an argument. */
module Shuffle {
  import opened Connections
  import opened Numbers

  // ---------------------------------------------------------------- the index drawn

  const RAND_MAX := 0x7FFF_FFFF

  /** `rand() / (RAND_MAX / (size - i) + 1)` for n = size - i; at n = 1 the divisor overflows to
      the least int. */
  function Drawn(r: int, n: int): (k: int)
    requires 0 <= r <= RAND_MAX && 0 < n <= RAND_MAX
  {
    Quotient(r, Divisor(n))
  }

  function Divisor(n: int): (d: int)
    requires 0 < n <= RAND_MAX
    ensures d == if n == 1 then -0x8000_0000 else RAND_MAX / n + 1
    ensures d != 0
  {
    Int32(RAND_MAX / n + 1)
  }

  lemma QuotientBelow(r: nat, q: nat, n: nat)
    requires q > 0 && r < q * n
    ensures 0 <= Quotient(r, q) == r / q < n
  {
    assert 0 <= q * (r / q) <= r;
    Cancel(r / q, n, q);
  }

  lemma Cancel(a: int, b: int, q: int)
    requires q > 0 && q * a < q * b
    ensures a < b
  {}

  lemma DivisorCovers(n: nat)
    requires 1 < n <= RAND_MAX
    ensures RAND_MAX < Divisor(n) * n
  {
    var q := RAND_MAX / n;
    assert RAND_MAX < n * q + n;
    assert (q + 1) * n == n * q + n;
  }

  lemma LastDrawn(r: int)
    requires 0 <= r <= RAND_MAX
    ensures Quotient(r, -0x8000_0000) == 0
  {}

  /** Whatever rand() returns, the index stays in the part not yet settled. */
  lemma DrawnInRange(r: int, n: int)
    requires 0 <= r <= RAND_MAX && 0 < n <= RAND_MAX
    ensures 0 <= Drawn(r, n) < n
  {
    hide Divisor, Quotient;
    if n == 1 {
      LastDrawn(r);
    } else {
      DivisorCovers(n);
      QuotientBelow(r, Divisor(n), n);
    }
  }

  /** Exactly the positions k with k * (RAND_MAX / n + 1) <= RAND_MAX can be drawn. */
  lemma ReachableIff(k: nat, n: nat)
    requires k < n <= RAND_MAX
    ensures (exists r :: 0 <= r <= RAND_MAX && Drawn(r, n) == k) <==> k * (RAND_MAX / n + 1) <= RAND_MAX
  {
    hide Divisor;
    if n == 1 {
      assert Drawn(0, 1) == 0;
    } else {
      var d := Divisor(n);
      if k * d <= RAND_MAX {
        QuotientIs(k, d);
        assert Drawn(k * d, n) == k;
      }
      forall r | 0 <= r <= RAND_MAX && Drawn(r, n) == k ensures k * d <= RAND_MAX {
        assert r / d == k;
        assert d * (r / d) <= r;
      }
    }
  }

  lemma QuotientIs(k: nat, d: nat)
    requires d > 0
    ensures (k * d) / d == k
  {
    ModUnique(k * d, d, k, 0);
  }

  /** For the 4,000,000 entries of the connection map the last 961 positions are never drawn in the
      first step: not every permutation is reachable through rand(). */
  lemma NotEveryPosition(r: int)
    requires 0 <= r <= RAND_MAX
    ensures Drawn(r, 4_000_000) < 4_000_000 - 961
  {
    var k := Drawn(r, 4_000_000);
    DrawnInRange(r, 4_000_000);
    ReachableIff(k, 4_000_000);
  }

  // ---------------------------------------------------------------- the shuffle on sequences

  function Swapped<T>(s: seq<T>, i: nat, j: nat): (t: seq<T>)
    requires i < |s| && j < |s|
    ensures |t| == |s|
  {
    s[i := s[j]][j := s[i]]
  }

  /** One choice for each place: the k-th of those that are left. */
  predicate Choices(ks: seq<nat>, n: nat) {
    |ks| == n && forall i :: 0 <= i < n ==> ks[i] < n - i
  }

  function Shuffled<T>(s: seq<T>, ks: seq<nat>): (t: seq<T>)
    requires Choices(ks, |s|)
    ensures |t| == |s|
    decreases |s|
  {
    if s == [] then [] else var t := Swapped(s, 0, ks[0]); [t[0]] + Shuffled(t[1..], ks[1..])
  }

  lemma SwappedMultiset<T>(s: seq<T>, j: nat)
    requires 0 < |s| && j < |s|
    ensures multiset(Swapped(s, 0, j)) == multiset(s)
  {}

  /** The shuffle permutes. */
  lemma {:induction false} ShuffledMultiset<T>(s: seq<T>, ks: seq<nat>)
    requires Choices(ks, |s|)
    ensures multiset(Shuffled(s, ks)) == multiset(s)
    decreases |s|
  {
    if s != [] {
      var t := Swapped(s, 0, ks[0]);
      SwappedMultiset(s, ks[0]);
      ShuffledMultiset(t[1..], ks[1..]);
      assert t == [t[0]] + t[1..];
    }
  }

  function IndexOf<T(==)>(s: seq<T>, x: T): (i: nat)
    requires x in s
    ensures i < |s| && s[i] == x
  {
    if s[0] == x then 0 else 1 + IndexOf(s[1..], x)
  }

  lemma RestOfTarget<T>(s: seq<T>, b: seq<T>, k: nat)
    requires multiset(s) == multiset(b) && s != [] && k < |s| && b != [] && s[k] == b[0]
    ensures multiset(Swapped(s, 0, k)[1..]) == multiset(b[1..])
    ensures |s| == |b|
  {
    SwappedMultiset(s, k);
    MultisetTail(Swapped(s, 0, k));
    MultisetTail(b);
    SameLength(s, b);
  }

  lemma MultisetTail<T>(s: seq<T>)
    requires s != []
    ensures multiset(s[1..]) == multiset(s) - multiset{s[0]}
  {
    assert s == [s[0]] + s[1..];
  }

  lemma SameLength<T>(s: seq<T>, b: seq<T>)
    requires multiset(s) == multiset(b)
    ensures |s| == |b|
  {
    assert |s| == |multiset(s)| && |b| == |multiset(b)|;
  }

  lemma FirstIsThere<T>(s: seq<T>, b: seq<T>)
    requires multiset(s) == multiset(b)
    ensures s == [] <==> b == []
    ensures b != [] ==> b[0] in s
  {
    if b != [] { assert b[0] in multiset(s); }
    if s != [] { assert s[0] in multiset(b); }
  }

  /** The choices that lead from s to a permutation b of it. */
  function ChoicesFor<T(==)>(s: seq<T>, b: seq<T>): (ks: seq<nat>)
    requires multiset(s) == multiset(b)
    ensures Choices(ks, |s|)
    decreases |s|
  {
    FirstIsThere(s, b);
    if s == [] then []
    else
      var k := IndexOf(s, b[0]);
      RestOfTarget(s, b, k);
      [k] + ChoicesFor(Swapped(s, 0, k)[1..], b[1..])
  }

  lemma ChoicesForStep<T>(s: seq<T>, b: seq<T>)
    requires multiset(s) == multiset(b) && s != []
    ensures |s| == |b| && b[0] in s
    ensures var k := IndexOf(s, b[0]);
            var t := Swapped(s, 0, k);
            && t[0] == b[0] && multiset(t[1..]) == multiset(b[1..])
            && ChoicesFor(s, b) == [k] + ChoicesFor(t[1..], b[1..])
  {
    FirstIsThere(s, b);
    RestOfTarget(s, b, IndexOf(s, b[0]));
  }

  lemma {:induction false} ChoicesForLeads<T>(s: seq<T>, b: seq<T>)
    requires multiset(s) == multiset(b)
    ensures Shuffled(s, ChoicesFor(s, b)) == b
    decreases |s|
  {
    hide Swapped, IndexOf, ChoicesFor;
    if s == [] {
      FirstIsThere(s, b);
    } else {
      ChoicesForStep(s, b);
      var t := Swapped(s, 0, IndexOf(s, b[0]));
      ChoicesForLeads(t[1..], b[1..]);
      assert ChoicesFor(s, b)[1..] == ChoicesFor(t[1..], b[1..]);
      assert b == [b[0]] + b[1..];
    }
  }

  predicate Distinct<T(==)>(s: seq<T>) {
    forall i, j :: 0 <= i < j < |s| ==> s[i] != s[j]
  }

  lemma {:induction false} ChoicesUnique<T>(s: seq<T>, ks: seq<nat>, ks': seq<nat>)
    requires Distinct(s) && Choices(ks, |s|) && Choices(ks', |s|) && Shuffled(s, ks) == Shuffled(s, ks')
    ensures ks == ks'
    decreases |s|
  {
    if s != [] {
      var k, k' := ks[0], ks'[0];
      assert Shuffled(s, ks)[0] == s[k] && Shuffled(s, ks')[0] == s[k'];
      assert k == k';
      var t := Swapped(s, 0, k);
      assert Shuffled(s, ks)[1..] == Shuffled(t[1..], ks[1..]);
      assert Shuffled(s, ks')[1..] == Shuffled(t[1..], ks'[1..]);
      ChoicesUnique(t[1..], ks[1..], ks'[1..]);
      assert ks == [k] + ks[1..] && ks' == [k'] + ks'[1..];
    }
  }

  /** Every permutation of distinct elements comes from exactly one sequence of choices. */
  lemma ExactlyOneSequence<T>(s: seq<T>, b: seq<T>, ks: seq<nat>)
    requires Distinct(s) && multiset(s) == multiset(b) && Choices(ks, |s|)
    ensures Shuffled(s, ks) == b <==> ks == ChoicesFor(s, b)
  {
    ChoicesForLeads(s, b);
    if Shuffled(s, ks) == b {
      ChoicesUnique(s, ks, ChoicesFor(s, b));
    }
  }

  // ---------------------------------------------------------------- the code

  /** The choices drawn from the numbers rand() returns. */
  function DrawnAll(rands: seq<int>): (ks: seq<nat>)
    requires |rands| <= RAND_MAX && forall i :: 0 <= i < |rands| ==> 0 <= rands[i] <= RAND_MAX
    ensures Choices(ks, |rands|)
  {
    if rands == [] then []
    else
      DrawnInRange(rands[0], |rands|);
      [Drawn(rands[0], |rands|)] + DrawnAll(rands[1..])
  }

  lemma ShuffledStep(s: seq<nat>, rands: seq<int>)
    requires 0 < |s| == |rands| <= RAND_MAX && forall i :: 0 <= i < |rands| ==> 0 <= rands[i] <= RAND_MAX
    ensures 0 <= Drawn(rands[0], |rands|) < |s|
    ensures var t := Swapped(s, 0, Drawn(rands[0], |rands|));
            Shuffled(s, DrawnAll(rands)) == [t[0]] + Shuffled(t[1..], DrawnAll(rands[1..]))
  {
    hide Drawn;
    DrawnInRange(rands[0], |rands|);
    assert DrawnAll(rands)[1..] == DrawnAll(rands[1..]);
  }

  /** shuffer: rands[i] is what the i-th call of rand() returns. */
  method Shuffer(a: array<nat>, size: int, rands: seq<int>)
    requires size <= a.Length <= RAND_MAX && |rands| == (if size < 0 then 0 else size)
    requires forall i :: 0 <= i < |rands| ==> 0 <= rands[i] <= RAND_MAX
    modifies a
    ensures 0 <= size ==> a[..size] == Shuffled(old(a[..size]), DrawnAll(rands))
    ensures forall n :: 0 <= n < a.Length && size <= n ==> a[n] == old(a[n])
  {
    hide Shuffled, DrawnAll, Drawn;
    if size > 1 {
      assert rands[0..] == rands && a[0..size] == a[..size];
      for i := 0 to size
        invariant a[..i] + Shuffled(a[i..size], DrawnAll(rands[i..])) == Shuffled(old(a[..size]), DrawnAll(rands))
        invariant forall n :: size <= n < a.Length ==> a[n] == old(a[n])
      {
        ghost var s, front := a[i..size], a[..i];
        ShuffledStep(s, rands[i..]);
        var k := Drawn(rands[i], size - i);
        var j := i + k;
        ghost var t := Swapped(s, 0, k);
        FrontGrows(front, t, Shuffled(t[1..], DrawnAll(rands[i..][1..])));
        var tmp := a[j];
        a[j] := a[i];
        a[i] := tmp;
        assert a[i..size] == t;
        assert a[i + 1..size] == t[1..] && a[..i + 1] == front + [t[0]];
        assert rands[i..][1..] == rands[i + 1..];
      }
      ShuffledNone(a[size..size], rands[size..]);
    } else if size == 1 {
      ShuffledStep(a[..1], rands);
      ShuffledNone([], rands[1..]);
      assert Swapped(a[..1], 0, 0)[1..] == [];
    } else if size == 0 {
      ShuffledNone(a[..0], rands);
    }
  }

  lemma FrontGrows(front: seq<nat>, t: seq<nat>, rest: seq<nat>)
    requires t != []
    ensures front + ([t[0]] + rest) == (front + [t[0]]) + rest
  {}

  lemma ShuffledNone(s: seq<nat>, rands: seq<int>)
    requires s == [] && rands == []
    ensures Shuffled(s, DrawnAll(rands)) == []
  {}

  lemma BijectionFromMultiset(before: seq<nat>, after: seq<nat>, n: nat)
    requires Bijection(before, n) && multiset(after) == multiset(before)
    ensures Bijection(after, n)
  {
    assert |after| == |multiset(after)| && |before| == |multiset(before)|;
    forall i | 0 <= i < n ensures after[i] < n {
      assert after[i] in multiset(before);
    }
    forall fd: nat | fd < n ensures fd in after {
      assert fd in before;
      assert fd in multiset(after);
    }
    forall i, j | 0 <= i < j < n ensures after[i] != after[j] {
      OnceOnly(before, after[i]);
      if after[i] == after[j] {
        TwiceThere(after, i, j);
      }
    }
  }

  lemma OnceOnly(s: seq<nat>, x: nat)
    requires Distinct(s)
    ensures multiset(s)[x] <= 1
  {
    if s != [] {
      assert s == s[..|s| - 1] + [s[|s| - 1]];
      OnceOnly(s[..|s| - 1], x);
    }
  }

  lemma TwiceThere(s: seq<nat>, i: nat, j: nat)
    requires i < j < |s| && s[i] == s[j]
    ensures multiset(s)[s[i]] >= 2
  {
    assert s == s[..j] + [s[j]] + s[j + 1..];
    assert s[i] in s[..j];
  }

  lemma Identity(s: seq<nat>)
    requires forall i :: 0 <= i < |s| ==> s[i] == i
    ensures Bijection(s, |s|)
  {
    forall fd: nat | fd < |s| ensures fd in s {
      assert s[fd] == fd;
    }
  }

  /** initEpollConnectionStats: whatever rand() returns, the map is a bijection, which is what closing
      and restoring rely on. */
  method InitConnsMap(connsMap: array<nat>, rands: seq<int>)
    requires |rands| == connsMap.Length <= RAND_MAX
    requires forall i :: 0 <= i < |rands| ==> 0 <= rands[i] <= RAND_MAX
    modifies connsMap
    ensures Bijection(connsMap[..], connsMap.Length)
  {
    hide Shuffled, DrawnAll;
    for i := 0 to connsMap.Length
      invariant forall n :: 0 <= n < i ==> connsMap[n] == n
    {
      connsMap[i] := i;
    }
    ghost var before := connsMap[..];
    Identity(before);
    Shuffer(connsMap, connsMap.Length, rands);
    assert before[..connsMap.Length] == before && connsMap[..connsMap.Length] == connsMap[..];
    ShuffledMultiset(before, DrawnAll(rands));
    BijectionFromMultiset(before, connsMap[..], connsMap.Length);
  }
}
