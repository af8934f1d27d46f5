/** Sums, counts and selections over sequences, and lists without repetition. */
module SeqFolds {
  function Sum(s: seq<int>): int {
    if s == [] then 0 else Sum(s[..|s| - 1]) + s[|s| - 1]
  }

  function Zeros(n: nat): (s: seq<nat>)
    ensures |s| == n && forall i :: 0 <= i < n ==> s[i] == 0
  {
    seq(n, _ => 0)
  }

  lemma {:induction false} SumUpdate(s: seq<int>, i: nat, v: int)
    requires i < |s|
    ensures Sum(s[i := v]) == Sum(s) - s[i] + v
  {
    var last := |s| - 1;
    if i == last {
      assert s[i := v][..last] == s[..last];
    } else {
      SumUpdate(s[..last], i, v);
      assert s[i := v][..last] == s[..last][i := v];
    }
  }

  lemma {:induction false} SumOfZeros(n: nat)
    ensures Sum(Zeros(n)) == 0
  {
    if n > 0 {
      SumOfZeros(n - 1);
      assert Zeros(n)[..n - 1] == Zeros(n - 1);
    }
  }

  lemma {:induction false} SumAtLeastPart(s: seq<int>, i: nat)
    requires i < |s| && forall k :: 0 <= k < |s| ==> s[k] >= 0
    ensures 0 <= s[i] <= Sum(s)
  {
    SumNonNegative(s[..|s| - 1]);
    if i < |s| - 1 {
      SumAtLeastPart(s[..|s| - 1], i);
    }
  }

  lemma {:induction false} SumNonNegative(s: seq<int>)
    requires forall k :: 0 <= k < |s| ==> s[k] >= 0
    ensures Sum(s) >= 0
  {
    if s != [] {
      SumNonNegative(s[..|s| - 1]);
    }
  }

  function Count(flags: seq<bool>): (c: nat)
    ensures c <= |flags|
  {
    if flags == [] then 0 else Count(flags[..|flags| - 1]) + if flags[|flags| - 1] then 1 else 0
  }

  lemma {:induction false} CountZero(flags: seq<bool>)
    ensures Count(flags) == 0 <==> forall i :: 0 <= i < |flags| ==> !flags[i]
  {
    if flags != [] {
      CountZero(flags[..|flags| - 1]);
    }
  }

  lemma {:induction false} CountConcat(a: seq<bool>, b: seq<bool>)
    ensures Count(a + b) == Count(a) + Count(b)
  {
    if b == [] {
      assert a + b == a;
    } else {
      CountConcat(a, b[..|b| - 1]);
      assert (a + b)[..|a + b| - 1] == a + b[..|b| - 1];
    }
  }

  /** One true flag and no other counts one. */
  lemma {:induction false} CountOne(flags: seq<bool>, k: nat)
    requires k < |flags| && flags[k]
    ensures Count(flags) >= 1
    ensures Count(flags) == 1 <==> forall i :: 0 <= i < |flags| && i != k ==> !flags[i]
  {
    var front := flags[..|flags| - 1];
    if k == |flags| - 1 {
      CountZero(front);
      assert Count(front) == 0 <==> forall i :: 0 <= i < |front| ==> !front[i];
      assert forall i :: 0 <= i < |front| ==> front[i] == flags[i];
    } else {
      CountOne(front, k);
      assert forall i :: 0 <= i < |front| ==> front[i] == flags[i];
    }
  }

  /** The positions of the true flags, in order. */
  function Select(flags: seq<bool>): (r: seq<nat>)
    ensures |r| == Count(flags)
    ensures forall i :: i in r <==> 0 <= i < |flags| && flags[i]
  {
    if flags == [] then []
    else if flags[|flags| - 1] then Select(flags[..|flags| - 1]) + [|flags| - 1]
    else Select(flags[..|flags| - 1])
  }

  // ---------------------------------------------------------------- counting round a ring

  function RingSeat(start: nat, offset: nat, n: nat): (seat: nat)
    requires start < n && offset < n
    ensures seat < n
  {
    if start + offset >= n then start + offset - n else start + offset
  }

  /** How many of the first `d` seats clockwise from `start` are flagged. */
  function RingCount(flags: seq<bool>, start: nat, d: nat): (c: nat)
    requires start < |flags| && d <= |flags|
    ensures c <= d
  {
    if d == 0 then 0
    else RingCount(flags, start, d - 1) + if flags[RingSeat(start, d - 1, |flags|)] then 1 else 0
  }

  lemma {:induction false} RingCountIsSlice(flags: seq<bool>, start: nat, d: nat)
    requires start < |flags| && d <= |flags|
    ensures var n := |flags|;
            RingCount(flags, start, d) ==
            if start + d <= n then Count(flags[start..start + d])
            else Count(flags[start..]) + Count(flags[..start + d - n])
  {
    var n := |flags|;
    if d == 0 {
      assert flags[start..start] == [];
    } else {
      RingCountIsSlice(flags, start, d - 1);
      if start + d <= n {
        assert flags[start..start + d][..d - 1] == flags[start..start + d - 1];
      } else if start + d - 1 == n {
        assert flags[start..start + d - 1] == flags[start..];
        assert flags[..1][..0] == [];
      } else {
        assert flags[..start + d - n][..start + d - 1 - n] == flags[..start + d - 1 - n];
      }
    }
  }

  /** A full turn of the ring meets every flagged seat once. */
  lemma FullRingCount(flags: seq<bool>, start: nat)
    requires start < |flags|
    ensures RingCount(flags, start, |flags|) == Count(flags)
  {
    var n := |flags|;
    RingCountIsSlice(flags, start, n);
    if start == 0 {
      assert flags[0..n] == flags;
    } else {
      CountConcat(flags[..start], flags[start..]);
      assert flags[..start] + flags[start..] == flags;
    }
  }

  // ---------------------------------------------------------------- lists without repetition

  predicate Distinct(s: seq<nat>) {
    forall i, j :: 0 <= i < j < |s| ==> s[i] != s[j]
  }

  lemma {:induction false} DistinctMultiplicity(s: seq<nat>, v: nat)
    requires Distinct(s)
    ensures multiset(s)[v] <= 1
  {
    if s != [] {
      var front, last := s[..|s| - 1], s[|s| - 1];
      DistinctMultiplicity(front, v);
      assert s == front + [last];
      assert last !in front;
    }
  }

  lemma {:induction false} MultiplicityDistinct(s: seq<nat>)
    requires forall v :: multiset(s)[v] <= 1
    ensures Distinct(s)
  {
    if s != [] {
      var front, last := s[..|s| - 1], s[|s| - 1];
      assert s == front + [last];
      assert forall v :: multiset(s)[v] == multiset(front)[v] + if v == last then 1 else 0;
      MultiplicityDistinct(front);
      if last in front {
        assert multiset(front)[last] >= 1;
      }
    }
  }
}
