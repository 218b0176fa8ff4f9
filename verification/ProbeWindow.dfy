/** The last probes of a server, kept in a ring, and the score made of them (ss_record_probe and
    ss_compute_score in src/server_selector.c).  Rounding apart: floating point is `real`. */
module ProbeWindow {
  import opened Options

  const SLOTS := 67
  const MAX_RTT_MS := 5000
  const WINDOW_SEC := 4020.0
  const NO_SCORE := 0xFFFF_FFFF

  datatype Sample = Sample(latency: nat, errored: bool, ts: real)

  // ---------- reference ----------

  /** The capped latencies of the recent probes that succeeded. */
  function Latencies(samples: seq<Sample>, now: real): seq<nat> {
    if samples == [] then []
    else
      var s, rest := samples[|samples| - 1], Latencies(samples[..|samples| - 1], now);
      if now - s.ts > WINDOW_SEC || s.errored then rest else rest + [Least(s.latency, MAX_RTT_MS)]
  }

  /** How many recent probes failed. */
  function Failures(samples: seq<Sample>, now: real): nat {
    if samples == [] then 0
    else
      var s, rest := samples[|samples| - 1], Failures(samples[..|samples| - 1], now);
      if now - s.ts > WINDOW_SEC || !s.errored then rest else rest + 1
  }

  function Inserted(s: seq<nat>, x: nat): seq<nat> {
    if s == [] || s[|s| - 1] <= x then s + [x] else Inserted(s[..|s| - 1], x) + [s[|s| - 1]]
  }

  /** What qsort makes of `s`. */
  function Sorted(s: seq<nat>): (r: seq<nat>)
    ensures |r| == |s|
  {
    if s == [] then []
    else
      SizeOfInserted(Sorted(s[1..]), s[0]);
      Inserted(Sorted(s[1..]), s[0])
  }

  lemma {:induction false} SizeOfInserted(s: seq<nat>, x: nat)
    ensures |Inserted(s, x)| == |s| + 1
  {
    if s != [] {
      SizeOfInserted(s[..|s| - 1], x);
    }
  }

  function Middle(s: seq<nat>): nat
    requires s != []
  {
    Sorted(s)[|s| / 2]
  }

  function Distance(x: nat, m: nat): nat { if x > m then x - m else m - x }

  function Deviations(s: seq<nat>, m: nat): (d: seq<nat>)
    ensures |d| == |s|
  {
    if s == [] then [] else Deviations(s[..|s| - 1], m) + [Distance(s[|s| - 1], m)]
  }

  function Share(x: nat, limit: nat): real
    requires 0 < limit
  {
    if x as real / limit as real > 1.0 then 1.0 else x as real / limit as real
  }

  function Weighted(rtt: real, failRate: real, mad: real): int {
    ((rtt + failRate * 3.0 + mad) / 5.0 * 10000.0).Floor
  }

  /** The score of the successful latencies and the number of failures. */
  function ScoreOf(latencies: seq<nat>, failed: nat): int {
    var total := |latencies| + failed;
    if total == 0 then NO_SCORE
    else
      var failRate := failed as real / total as real;
      if latencies == [] then Weighted(1.0, failRate, 1.0)
      else
        var m := Middle(latencies);
        Weighted(Share(m, MAX_RTT_MS), failRate, Share(Middle(Deviations(latencies, m)), MAX_RTT_MS))
  }

  function Score(samples: seq<Sample>, now: real): int {
    ScoreOf(Latencies(samples, now), Failures(samples, now))
  }

  function Last(all: seq<Sample>): seq<Sample> {
    all[|all| - Least(|all|, SLOTS)..]
  }

  // ---------- medians ----------

  function CountIf<T(!new)>(s: seq<T>, p: T -> bool): nat {
    if s == [] then 0 else CountIf(s[..|s| - 1], p) + if p(s[|s| - 1]) then 1 else 0
  }

  function Below(m: nat): nat -> bool { x => x < m }

  function UpTo(m: nat): nat -> bool { x => x <= m }

  /** Fewer than half of the numbers are below `m`, and more than half are not above it. */
  ghost predicate Median(s: seq<nat>, m: nat) {
    CountIf(s, Below(m)) <= |s| / 2 < CountIf(s, UpTo(m))
  }

  lemma {:induction false} CountAppend<T(!new)>(s: seq<T>, x: T, p: T -> bool)
    ensures CountIf(s + [x], p) == CountIf(s, p) + if p(x) then 1 else 0
  {
    assert (s + [x])[..|s|] == s;
  }

  lemma {:induction false} CountSplit<T(!new)>(s: seq<T>, t: seq<T>, p: T -> bool)
    ensures CountIf(s + t, p) == CountIf(s, p) + CountIf(t, p)
    decreases |t|
  {
    if t == [] {
      assert s + t == s;
    } else {
      var u := t[..|t| - 1];
      CountSplit(s, u, p);
      CountAppend(s + u, t[|t| - 1], p);
      assert s + t == s + u + [t[|t| - 1]];
    }
  }

  lemma {:induction false} CountOfInserted(s: seq<nat>, x: nat, p: nat -> bool)
    ensures CountIf(Inserted(s, x), p) == CountIf(s, p) + if p(x) then 1 else 0
  {
    if s == [] || s[|s| - 1] <= x {
      CountAppend(s, x, p);
    } else {
      CountOfInserted(s[..|s| - 1], x, p);
      CountAppend(Inserted(s[..|s| - 1], x), s[|s| - 1], p);
    }
  }

  lemma {:induction false} CountOfSorted(s: seq<nat>, p: nat -> bool)
    ensures CountIf(Sorted(s), p) == CountIf(s, p)
  {
    if s != [] {
      CountOfSorted(s[1..], p);
      CountOfInserted(Sorted(s[1..]), s[0], p);
      CountSplit(s[..1], s[1..], p);
      assert s == s[..1] + s[1..] && s[..1] == [s[0]];
      CountAppend([], s[0], p);
    }
  }

  ghost predicate Ascends(s: seq<nat>) {
    forall i, j :: 0 <= i < j < |s| ==> s[i] <= s[j]
  }

  lemma {:induction false} AscendsOn(s: seq<nat>, x: nat)
    requires Ascends(s) && forall y :: y in s ==> y <= x
    ensures Ascends(s + [x])
  {
    assert forall i :: 0 <= i < |s| ==> s[i] in s;
  }

  lemma {:induction false} AscendingBelowLast(s: seq<nat>, y: nat)
    requires Ascends(s) && y in s
    ensures y <= s[|s| - 1]
  {}

  lemma {:induction false} InsertedAscends(s: seq<nat>, x: nat)
    requires Ascends(s)
    ensures Ascends(Inserted(s, x)) && forall y :: y in Inserted(s, x) ==> y == x || y in s
  {
    if s == [] || s[|s| - 1] <= x {
      forall y | y in s ensures y <= x { AscendingBelowLast(s, y); }
      AscendsOn(s, x);
    } else {
      var t, e := s[..|s| - 1], s[|s| - 1];
      InsertedAscends(t, x);
      forall y | y in Inserted(t, x) ensures y <= e {
        if y in t { AscendingBelowLast(s, y); }
      }
      AscendsOn(Inserted(t, x), e);
    }
  }

  lemma {:induction false} SortedAscends(s: seq<nat>)
    ensures Ascends(Sorted(s))
  {
    if s != [] {
      SortedAscends(s[1..]);
      InsertedAscends(Sorted(s[1..]), s[0]);
    }
  }

  lemma {:induction false} CountBounds<T(!new)>(s: seq<T>, p: T -> bool)
    ensures CountIf(s, p) <= |s|
    ensures (forall x :: x in s ==> p(x)) ==> CountIf(s, p) == |s|
    ensures (forall x :: x in s ==> !p(x)) ==> CountIf(s, p) == 0
  {
    if s != [] {
      CountBounds(s[..|s| - 1], p);
      assert s[|s| - 1] in s && forall x :: x in s[..|s| - 1] ==> x in s;
    }
  }

  lemma {:induction false} CountImplied<T(!new)>(s: seq<T>, p: T -> bool, q: T -> bool)
    requires forall x :: x in s && p(x) ==> q(x)
    ensures CountIf(s, p) <= CountIf(s, q)
  {
    if s != [] {
      assert s[|s| - 1] in s && forall x :: x in s[..|s| - 1] ==> x in s;
      CountImplied(s[..|s| - 1], p, q);
    }
  }

  /** In an ascending sequence the middle element is a median. */
  lemma {:induction false} MiddleOfAscending(s: seq<nat>, k: nat)
    requires Ascends(s) && k < |s|
    ensures CountIf(s, Below(s[k])) <= k < CountIf(s, UpTo(s[k]))
  {
    var m := s[k];
    CountBelow(s[..k], s[k..], m);
    CountUpTo(s[..k + 1], s[k + 1..], m);
    assert s == s[..k] + s[k..] && s == s[..k + 1] + s[k + 1..];
  }

  lemma {:induction false} CountBelow(s: seq<nat>, t: seq<nat>, m: nat)
    requires forall i :: 0 <= i < |t| ==> m <= t[i]
    ensures CountIf(s + t, Below(m)) <= |s|
  {
    CountSplit(s, t, Below(m));
    CountBounds(s, Below(m));
    CountBounds(t, Below(m));
  }

  lemma {:induction false} CountUpTo(s: seq<nat>, t: seq<nat>, m: nat)
    requires forall i :: 0 <= i < |s| ==> s[i] <= m
    ensures |s| <= CountIf(s + t, UpTo(m))
  {
    CountSplit(s, t, UpTo(m));
    CountBounds(s, UpTo(m));
  }

  /** The element in the middle after sorting is the median, and nothing else is. */
  lemma {:induction false} MiddleIsMedian(s: seq<nat>, m: nat)
    requires s != []
    ensures Median(s, m) <==> m == Middle(s)
  {
    var c := Middle(s);
    SortedAscends(s);
    MiddleOfAscending(Sorted(s), |s| / 2);
    CountOfSorted(s, Below(c));
    CountOfSorted(s, UpTo(c));
    if c < m {
      CountImplied(s, UpTo(c), Below(m));
    } else if m < c {
      CountImplied(s, UpTo(m), Below(c));
    }
  }

  // ---------- the order of the samples does not matter ----------

  /** The same elements, each as often. */
  ghost predicate SameBag<T(!new)>(s: seq<T>, t: seq<T>) {
    forall p: T -> bool :: CountIf(s, p) == CountIf(t, p)
  }

  lemma {:induction false} SameBagSize<T(!new)>(s: seq<T>, t: seq<T>)
    requires SameBag(s, t)
    ensures |s| == |t|
  {
    var all: T -> bool := x => true;
    CountBounds(s, all);
    CountBounds(t, all);
    assert CountIf(s, all) == CountIf(t, all);
  }

  lemma {:induction false} SameMiddle(s: seq<nat>, t: seq<nat>)
    requires SameBag(s, t) && s != []
    ensures t != [] && Middle(s) == Middle(t)
  {
    SameBagSize(s, t);
    var m := Middle(s);
    MiddleIsMedian(s, m);
    assert CountIf(s, Below(m)) == CountIf(t, Below(m)) && CountIf(s, UpTo(m)) == CountIf(t, UpTo(m));
    MiddleIsMedian(t, m);
  }

  lemma {:induction false} CountOfDeviations(s: seq<nat>, m: nat, p: nat -> bool)
    ensures CountIf(Deviations(s, m), p) == CountIf(s, x => p(Distance(x, m)))
  {
    if s != [] {
      CountOfDeviations(s[..|s| - 1], m, p);
      CountAppend(Deviations(s[..|s| - 1], m), Distance(s[|s| - 1], m), p);
    }
  }

  lemma {:induction false} SameDeviations(s: seq<nat>, t: seq<nat>, m: nat)
    requires SameBag(s, t)
    ensures SameBag(Deviations(s, m), Deviations(t, m))
  {
    forall p: nat -> bool ensures CountIf(Deviations(s, m), p) == CountIf(Deviations(t, m), p) {
      CountOfDeviations(s, m, p);
      CountOfDeviations(t, m, p);
    }
  }

  /** `p`, of the capped latency of a sample that is recent and succeeded. */
  function OfSuccess(p: nat -> bool, now: real): Sample -> bool {
    (s: Sample) => now - s.ts <= WINDOW_SEC && !s.errored && p(Least(s.latency, MAX_RTT_MS))
  }

  function IsFailure(now: real): Sample -> bool {
    (s: Sample) => now - s.ts <= WINDOW_SEC && s.errored
  }

  lemma {:induction false} CountOfLatencies(samples: seq<Sample>, now: real, p: nat -> bool)
    ensures CountIf(Latencies(samples, now), p) == CountIf(samples, OfSuccess(p, now))
  {
    if samples != [] {
      var s, rest := samples[|samples| - 1], Latencies(samples[..|samples| - 1], now);
      CountOfLatencies(samples[..|samples| - 1], now, p);
      CountAppend(rest, Least(s.latency, MAX_RTT_MS), p);
    }
  }

  lemma {:induction false} CountOfFailures(samples: seq<Sample>, now: real)
    ensures Failures(samples, now) == CountIf(samples, IsFailure(now))
  {
    if samples != [] {
      CountOfFailures(samples[..|samples| - 1], now);
    }
  }

  lemma {:induction false} CutMultiset<T(!new)>(t: seq<T>, k: nat)
    requires k < |t|
    ensures multiset(t) == multiset(t[..k] + t[k + 1..]) + multiset{t[k]}
  {
    assert t == t[..k] + [t[k]] + t[k + 1..];
  }

  lemma {:induction false} CutCount<T(!new)>(t: seq<T>, k: nat, p: T -> bool)
    requires k < |t|
    ensures CountIf(t, p) == CountIf(t[..k] + t[k + 1..], p) + if p(t[k]) then 1 else 0
  {
    assert t == t[..k] + [t[k]] + t[k + 1..];
    CountSplit(t[..k], t[k + 1..], p);
    CountSplit(t[..k] + [t[k]], t[k + 1..], p);
    CountAppend(t[..k], t[k], p);
  }

  lemma {:induction false} MultisetIsBag<T(!new)>(s: seq<T>, t: seq<T>, p: T -> bool)
    requires multiset(s) == multiset(t)
    ensures CountIf(s, p) == CountIf(t, p)
  {
    if s == [] {
      assert |multiset(t)| == 0;
    } else {
      hide CountIf;
      var n := |s| - 1;
      assert s[n] in multiset(t);
      var k :| 0 <= k < |t| && t[k] == s[n];
      CutMultiset(s, n);
      CutMultiset(t, k);
      assert s[..n] + s[n + 1..] == s[..n];
      assert multiset(s[..n]) == multiset(s) - multiset{s[n]};
      assert multiset(t[..k] + t[k + 1..]) == multiset(t) - multiset{s[n]};
      MultisetIsBag(s[..n], t[..k] + t[k + 1..], p);
      CutCount(s, n, p);
      CutCount(t, k, p);
    }
  }

  /** A score depends on which samples there are, not on their order or their place in the ring. */
  lemma {:induction false} ScoreIgnoresOrder(a: seq<Sample>, b: seq<Sample>, now: real)
    requires multiset(a) == multiset(b)
    ensures Score(a, now) == Score(b, now)
  {
    var s, t := Latencies(a, now), Latencies(b, now);
    forall p: nat -> bool ensures CountIf(s, p) == CountIf(t, p) {
      CountOfLatencies(a, now, p);
      CountOfLatencies(b, now, p);
      MultisetIsBag(a, b, OfSuccess(p, now));
    }
    CountOfFailures(a, now);
    CountOfFailures(b, now);
    MultisetIsBag(a, b, IsFailure(now));
    SameBagSize(s, t);
    if s != [] {
      SameMiddle(s, t);
      SameDeviations(s, t, Middle(s));
      SameMiddle(Deviations(s, Middle(s)), Deviations(t, Middle(s)));
    }
  }

  // ---------- what a score tells ----------

  lemma {:induction false} FailRate(n: nat, failed: nat)
    requires 0 < n + failed
    ensures 0.0 <= failed as real / (n + failed) as real <= 1.0
    ensures failed as real / (n + failed) as real == 1.0 <==> n == 0
  {
    var t := (n + failed) as real;
    assert failed as real / t * t == failed as real;
  }

  /** A failure more does not lower the share of failures. */
  lemma {:induction false} FailRateGrows(n: nat, failed: nat)
    requires 0 < n + failed
    ensures failed as real / (n + failed) as real <= (failed + 1) as real / (n + failed + 1) as real
  {
    var f, t := failed as real, (n + failed) as real;
    FailRate(n, failed);
    QuotientTimes(f, t);
    QuotientTimes(f + 1.0, t + 1.0);
    Grows(f / t, (f + 1.0) / (t + 1.0), f, t);
  }

  lemma {:induction false} QuotientTimes(a: real, d: real)
    requires 0.0 < d
    ensures a / d * d == a
  {}

  lemma {:induction false} Grows(x: real, y: real, f: real, t: real)
    requires 0.0 < t && x <= 1.0 && x * t == f && y * (t + 1.0) == f + 1.0
    ensures x <= y
  {
    OneMore(x, t);
    if y < x { Scaled(y, x, t + 1.0); }
  }

  lemma {:induction false} OneMore(x: real, t: real)
    ensures x * (t + 1.0) == x * t + x
  {}

  lemma {:induction false} Scaled(y: real, x: real, d: real)
    requires y < x && 0.0 < d
    ensures y * d < x * d
  {}

  /** No recent probe at all is worst, all recent probes failed is next, and any recent success
      is better than both. */
  lemma {:induction false} ScoreClasses(latencies: seq<nat>, failed: nat)
    ensures ScoreOf(latencies, failed) == NO_SCORE <==> |latencies| + failed == 0
    ensures ScoreOf(latencies, failed) == 10000 <==> latencies == [] && 0 < failed
    ensures 0 <= ScoreOf(latencies, failed) < 10000 <==> latencies != []
  {
    if 0 < |latencies| + failed {
      FailRate(|latencies|, failed);
    }
  }

  /** A failure more never makes a server that has been probed look better. */
  lemma {:induction false} FailureNeverImproves(latencies: seq<nat>, failed: nat)
    requires 0 < |latencies| + failed
    ensures ScoreOf(latencies, failed) <= ScoreOf(latencies, failed + 1)
  {
    FailRateGrows(|latencies|, failed);
  }

  // ---------- the source's code ----------

  /** The probe window of a server: a ring of samples. */
  class Window {
    const slots: array<Sample>
    var head: nat
    var count: nat
    ghost var all: seq<Sample>

    ghost predicate Valid()
      reads this, slots
    {
      slots.Length == SLOTS && head == |all| % SLOTS && count == Least(|all|, SLOTS) &&
      forall k :: |all| - count <= k < |all| ==> Held(k)
    }

    ghost predicate Held(k: int)
      reads this`all, slots
    {
      0 <= k < |all| && slots.Length == SLOTS && slots[k % SLOTS] == all[k]
    }

    constructor ()
      ensures Valid() && fresh(slots) && all == []
    {
      slots := new Sample[SLOTS](i => Sample(0, false, 0.0));
      head, count, all := 0, 0, [];
    }

    /** The first half of ss_record_probe */
    method Record(s: Sample, now: real) returns (score: int)
      requires Valid()
      modifies this, slots
      ensures Valid() && all == old(all) + [s]
      ensures score == Score(Last(all), now)
    {
      Put(s);
      score := ComputeScore(now);
    }

    method Put(s: Sample)
      requires Valid()
      modifies this, slots
      ensures Valid() && all == old(all) + [s]
    {
      ghost var n := |all|;
      slots[head] := s;
      head := (head + 1) % SLOTS;
      if count < SLOTS {
        count := count + 1;
      }
      NextSlot(n);
      all := all + [s];
      forall k | n + 1 - count <= k < n ensures Held(k) {
        assert old(Held(k));
        OtherSlot(k, n);
      }
    }

    /** ss_compute_score, which is called after the sample has been stored */
    method ComputeScore(now: real) returns (score: int)
      requires Valid()
      ensures score == Score(Last(all), now)
    {
      var latencies: seq<nat>, fail := [], 0;
      ghost var last := Last(all);
      for i := 0 to count
        invariant latencies == Latencies(last[..i], now) && fail == Failures(last[..i], now)
      {
        var slot := (head + SLOTS - count + i) % SLOTS;
        SlotOfSample(|all|, count, i);
        var s := slots[slot];
        assert Held(|all| - count + i);
        assert s == last[i] && last[..i + 1][..i] == last[..i];
        if now - s.ts <= WINDOW_SEC {
          if s.errored {
            fail := fail + 1;
          } else {
            latencies := latencies + [Least(s.latency, MAX_RTT_MS)];
          }
        }
      }
      assert last[..count] == last;
      score := ScoreOf(latencies, fail);
    }
  }

  lemma {:induction false} NextSlot(n: nat)
    ensures (n % SLOTS + 1) % SLOTS == (n + 1) % SLOTS
  {}

  lemma {:induction false} OtherSlot(k: nat, n: nat)
    requires k < n < k + SLOTS
    ensures k % SLOTS != n % SLOTS
  {}

  lemma {:induction false} SlotOfSample(n: nat, count: nat, i: nat)
    requires count <= n && count <= SLOTS && i < count
    ensures (n % SLOTS + SLOTS - count + i) % SLOTS == (n - count + i) % SLOTS
  {}
}
