/** The server selector (src/server_selector.c).  Worker threads and the main loop report failures,
    successes and probes of up to eight servers; each report is one critical section under the
    selector's lock, so a run is the sequence of the critical sections in lock order. */
module ServerSelector {
  import opened Bytes
  import opened Options

  const MAX_SERVERS := 8
  const SWITCH_THRESHOLD := 6

  type U32 = x: int | 0 <= x < TWO32

  datatype Health = Unknown | Ok | Failed

  function Rank(h: Health): nat {
    match h case Ok => 0 case Unknown => 1 case Failed => 2
  }

  datatype Server = Server(health: Health, failures: nat, score: U32)

  /** The published index and what it is chosen from. */
  datatype State = State(best: nat, servers: seq<Server>)
  {
    ghost predicate Valid() { 0 < |servers| <= MAX_SERVERS && best < |servers| }
  }

  predicate Better(a: Server, b: Server) {
    Rank(a.health) < Rank(b.health) || (Rank(a.health) == Rank(b.health) && a.score < b.score)
  }

  // ---------- the order of preference ----------

  /** `i` may be chosen, and nothing that may be is better. */
  ghost predicate IsBest(s: seq<Server>, tried: set<nat>, i: nat) {
    i < |s| && i !in tried && forall j :: 0 <= j < |s| && j !in tried ==> !Better(s[j], s[i])
  }

  /** What the scan of ss_candidate_locked arrives at: it starts from the incumbent. */
  function Candidate(s: State, tried: set<nat>): (r: Option<nat>) {
    CandidateFrom(s.servers, tried, 0, if s.best < |s.servers| && s.best !in tried then Some(s.best) else None)
  }

  function CandidateFrom(s: seq<Server>, tried: set<nat>, i: nat, best: Option<nat>): (r: Option<nat>)
    decreases |s| - i
  {
    if i >= |s| then best
    else if i in tried then CandidateFrom(s, tried, i + 1, best)
    else if best.None? || (best.value < |s| && Better(s[i], s[best.value])) then CandidateFrom(s, tried, i + 1, Some(i))
    else CandidateFrom(s, tried, i + 1, best)
  }

  lemma {:induction false} CandidateFromIsBest(s: seq<Server>, tried: set<nat>, i: nat, best: Option<nat>)
    requires i <= |s|
    requires best.Some? ==> best.value < |s| && best.value !in tried
    requires best.Some? ==> forall j :: 0 <= j < i && j !in tried ==> !Better(s[j], s[best.value])
    requires best.None? ==> forall j :: 0 <= j < i ==> j in tried
    ensures match CandidateFrom(s, tried, i, best)
            case Some(k) => IsBest(s, tried, k)
            case None => forall j :: 0 <= j < |s| ==> j in tried
    decreases |s| - i
  {
    if i < |s| {
      if i in tried {
        CandidateFromIsBest(s, tried, i + 1, best);
      } else if best.None? || Better(s[i], s[best.value]) {
        CandidateFromIsBest(s, tried, i + 1, Some(i));
      } else {
        CandidateFromIsBest(s, tried, i + 1, best);
      }
    }
  }

  /** The candidate is a best server among the untried, and there is none only when all have been
      tried. */
  lemma {:induction false} CandidateIsBest(s: State, tried: set<nat>)
    ensures match Candidate(s, tried)
            case Some(k) => IsBest(s.servers, tried, k)
            case None => forall j :: 0 <= j < |s.servers| ==> j in tried
  {
    CandidateFromIsBest(s.servers, tried, 0, if s.best < |s.servers| && s.best !in tried then Some(s.best) else None);
  }

  lemma {:induction false} CandidateFromKeeps(s: seq<Server>, tried: set<nat>, i: nat, best: nat)
    requires i <= |s| && best < |s| && best !in tried && forall j :: i <= j < |s| && j !in tried ==> !Better(s[j], s[best])
    ensures CandidateFrom(s, tried, i, Some(best)) == Some(best)
    decreases |s| - i
  {
    if i < |s| { CandidateFromKeeps(s, tried, i + 1, best); }
  }

  /** Ties go to the incumbent. */
  lemma {:induction false} IncumbentWinsTies(s: State, tried: set<nat>)
    requires IsBest(s.servers, tried, s.best)
    ensures Candidate(s, tried) == Some(s.best)
  {
    CandidateFromKeeps(s.servers, tried, 0, s.best);
  }

  // ---------- choosing ----------

  /** ss_update_best_locked: the index published afterwards. */
  function UpdatedBest(s: State, failed: Option<nat>, allowScoreSwitch: bool): nat
    requires s.Valid()
  {
    var first := Candidate(s, {});
    if first.None? then s.best
    else
      var force := failed == Some(s.best) && |s.servers| > 1;
      var second := if force && first.value == s.best then Candidate(s, {s.best}) else first;
      if second.None? || second.value == s.best || second.value >= |s.servers| then s.best
      else
        var prev, next := s.servers[s.best], s.servers[second.value];
        if force then second.value
        else if prev.health == next.health &&
                (!allowScoreSwitch || next.score >= prev.score || prev.score - next.score <= SWITCH_THRESHOLD)
        then s.best
        else second.value
  }

  /** No server has a better health rank than the published one. */
  ghost predicate MinimalRank(s: State)
    requires s.Valid()
  {
    forall j :: 0 <= j < |s.servers| ==> Rank(s.servers[s.best].health) <= Rank(s.servers[j].health)
  }

  function Republished(s: State, failed: Option<nat>, allowScoreSwitch: bool): (r: State)
    requires s.Valid()
    ensures r.Valid() && r.servers == s.servers
  {
    s.(best := UpdatedBest(s, failed, allowScoreSwitch))
  }

  /** Publishing leaves an index in range and of minimal rank, whatever was published before. */
  lemma {:induction false} PublishedIsMinimal(s: State, failed: Option<nat>, allowScoreSwitch: bool)
    requires s.Valid() && (failed.Some? ==> failed.value < |s.servers| && s.servers[failed.value].health.Failed?)
    ensures var r := Republished(s, failed, allowScoreSwitch); r.Valid() && MinimalRank(r)
  {
    CandidateIsBest(s, {});
    CandidateIsBest(s, {s.best});
  }

  lemma {:induction false} FailedIncumbentIsLeft(s: State)
    requires s.Valid() && |s.servers| > 1
    ensures UpdatedBest(s, Some(s.best), false) != s.best
  {
    CandidateIsBest(s, {});
    var tried := {s.best};
    CandidateIsBest(s, tried);
    var other := if s.best == 0 then 1 else 0;
    assert other !in tried && s.best in tried;
  }

  /** Without a failure of the incumbent, it is left exactly for a better health rank, or, when
      scores may switch, for one of the same rank whose score is lower by more than the threshold. */
  lemma {:induction false} SwitchesExactly(s: State, failed: Option<nat>, allowScoreSwitch: bool)
    requires s.Valid() && failed != Some(s.best)
    ensures UpdatedBest(s, failed, allowScoreSwitch) != s.best <==>
            exists j :: 0 <= j < |s.servers| && WorthIt(s.servers[s.best], s.servers[j], allowScoreSwitch)
    ensures allowScoreSwitch ==>
            var b := s.servers[UpdatedBest(s, failed, true)];
            forall j :: 0 <= j < |s.servers| && s.servers[j].health == b.health ==> b.score <= s.servers[j].score + SWITCH_THRESHOLD
  {
    CandidateIsBest(s, {});
    var k := Candidate(s, {}).value;
    SameRank(s.servers[s.best].health, s.servers[k].health);
    if UpdatedBest(s, failed, allowScoreSwitch) != s.best {
      LeftForBetter(s, k);
      assert WorthIt(s.servers[s.best], s.servers[k], allowScoreSwitch);
    } else {
      forall j | 0 <= j < |s.servers| ensures !WorthIt(s.servers[s.best], s.servers[j], allowScoreSwitch) {
        assert !Better(s.servers[j], s.servers[k]);
      }
    }
  }

  predicate WorthIt(prev: Server, next: Server, allowScoreSwitch: bool) {
    Rank(next.health) < Rank(prev.health) ||
    (allowScoreSwitch && next.health == prev.health && prev.score - next.score > SWITCH_THRESHOLD)
  }

  lemma {:induction false} SameRank(a: Health, b: Health)
    ensures Rank(a) == Rank(b) <==> a == b
  {}

  lemma {:induction false} LeftForBetter(s: State, k: nat)
    requires s.Valid() && Candidate(s, {}) == Some(k) && k != s.best
    ensures k < |s.servers| && Better(s.servers[k], s.servers[s.best])
  {
    CandidateIsBest(s, {});
    if !Better(s.servers[k], s.servers[s.best]) {
      NoBetterThanTied(s, k);
      IncumbentWinsTies(s, {});
    }
  }

  lemma {:induction false} NoBetterThanTied(s: State, k: nat)
    requires s.Valid() && IsBest(s.servers, {}, k) && !Better(s.servers[k], s.servers[s.best])
    ensures IsBest(s.servers, {}, s.best)
  {
    forall j | 0 <= j < |s.servers| ensures !Better(s.servers[j], s.servers[s.best]) {
      assert !Better(s.servers[j], s.servers[k]) && !Better(s.servers[s.best], s.servers[k]);
    }
  }

  // ---------- the critical sections ----------

  class Selector {
    const health: array<Health>
    const failureEpoch: array<nat>
    const score: array<U32>
    var bestIdx: nat
    var probesRemaining: int

    ghost predicate Valid()
      reads this
    {
      0 < health.Length <= MAX_SERVERS && health.Length == failureEpoch.Length == score.Length && bestIdx < health.Length
    }

    ghost function Abs(): (s: State)
      requires Valid()
      reads this, health, failureEpoch, score
      ensures s.Valid() && s.best == bestIdx && |s.servers| == health.Length
    {
      State(bestIdx, seq(health.Length, i requires 0 <= i < health.Length reads health, failureEpoch, score
                                          => ServerAt(i)))
    }

    function ServerAt(i: nat): Server
      requires health.Length == failureEpoch.Length == score.Length && i < health.Length
      reads health, failureEpoch, score
    {
      Server(health[i], failureEpoch[i], score[i])
    }

    /** server_selector_init */
    constructor (count: nat)
      requires 0 < count <= MAX_SERVERS
      ensures Valid() && fresh(health) && fresh(failureEpoch) && fresh(score)
      ensures Abs() == Initial(count) && probesRemaining == 0
    {
      health := new Health[count](i => Unknown);
      failureEpoch := new nat[count](i => 0);
      score := new U32[count](i => TWO32 - 1);
      bestIdx, probesRemaining := 0, 0;
    }

    /** ss_candidate_locked */
    method CandidateLocked(tried: set<nat>) returns (best: Option<nat>)
      requires Valid()
      ensures best == Candidate(Abs(), tried)
    {
      ghost var s := Abs().servers;
      best := if bestIdx in tried then None else Some(bestIdx);
      for i := 0 to health.Length
        invariant best.Some? ==> best.value < health.Length
        invariant CandidateFrom(s, tried, i, best) == Candidate(Abs(), tried)
      {
        if i !in tried && (best.None? || Better(ServerAt(i), ServerAt(best.value))) {
          best := Some(i);
        }
      }
    }

    /** ss_update_best_locked */
    method UpdateBestLocked(failed: Option<nat>, allowScoreSwitch: bool)
      requires Valid()
      modifies this`bestIdx
      ensures Valid() && bestIdx == old(UpdatedBest(Abs(), failed, allowScoreSwitch))
    {
      var prev := bestIdx;
      var best := CandidateLocked({});
      CandidateIsBest(Abs(), {});
      CandidateIsBest(Abs(), {prev});
      if best.None? {
        return;
      }
      var force := failed == Some(prev) && health.Length > 1;
      if force && best.value == prev {
        best := CandidateLocked({prev});
      }
      if best.None? || best.value == prev {
        return;
      }
      var b := best.value;
      if !force && !allowScoreSwitch && health[b] == health[prev] {
        return;
      }
      if !force && health[b] == health[prev] && (score[b] >= score[prev] || score[prev] - score[b] <= SWITCH_THRESHOLD) {
        return;
      }
      bestIdx := b;
    }

    /** server_selector_report_tcp_failure */
    method ReportFailure(i: nat)
      requires Valid()
      modifies this`bestIdx, health, failureEpoch
      ensures Valid() && Abs() == old(if i < |Abs().servers| then Fail(Abs(), i) else Abs())
    {
      if i >= health.Length {
        return;
      }
      ghost var s := Abs();
      failureEpoch[i] := failureEpoch[i] + 1;
      health[i] := Failed;
      assert Abs().servers == s.servers[i := s.servers[i].(health := Failed, failures := s.servers[i].failures + 1)];
      UpdateBestLocked(Some(i), false);
    }

    /** server_selector_report_tcp_success */
    method ReportSuccess(i: nat, epoch: nat)
      requires Valid()
      modifies this`bestIdx, health
      ensures Valid() && Abs() == old(if i < |Abs().servers| then Succeed(Abs(), i, epoch) else Abs())
    {
      if i >= health.Length {
        return;
      }
      ghost var s := Abs();
      if epoch == failureEpoch[i] {
        health[i] := Ok;
        assert Abs().servers == s.servers[i := s.servers[i].(health := Ok)];
        UpdateBestLocked(None, false);
      }
    }

    /** The critical section of ss_record_probe, after the score has been computed. */
    method RecordProbe(i: nat, errored: bool, epoch: nat, newScore: U32)
      requires Valid() && i < health.Length
      modifies this`bestIdx, health, failureEpoch, score
      ensures Valid() && Abs() == old(Probed(Abs(), i, errored, epoch, newScore))
    {
      ghost var s := Abs();
      score[i] := newScore;
      if errored {
        failureEpoch[i] := failureEpoch[i] + 1;
        health[i] := Failed;
      } else if epoch == failureEpoch[i] {
        health[i] := Ok;
      }
      assert Abs().servers == s.servers[i := ProbedServer(s.servers[i], errored, epoch, newScore)];
      UpdateBestLocked(if errored then Some(i) else None, false);
    }

    /** ss_probe_done */
    method ProbeDone()
      requires Valid()
      modifies this`bestIdx, this`probesRemaining
      ensures Valid() && probesRemaining == old(probesRemaining) - 1
      ensures Abs() == old(if probesRemaining == 1 then Republished(Abs(), None, true) else Abs())
    {
      ghost var s := Abs();
      probesRemaining := probesRemaining - 1;
      assert Abs() == s;
      if probesRemaining == 0 {
        UpdateBestLocked(None, true);
      }
    }
  }

  /** server_selector_init */
  function Initial(count: nat): State {
    State(0, seq(count, i => Server(Unknown, 0, TWO32 - 1)))
  }

  function Fail(s: State, i: nat): (r: State)
    requires s.Valid() && i < |s.servers|
    ensures r.Valid() && |r.servers| == |s.servers|
  {
    var server := s.servers[i].(health := Failed, failures := s.servers[i].failures + 1);
    Republished(s.(servers := s.servers[i := server]), Some(i), false)
  }

  function Succeed(s: State, i: nat, epoch: nat): (r: State)
    requires s.Valid() && i < |s.servers|
    ensures r.Valid() && |r.servers| == |s.servers|
  {
    if epoch != s.servers[i].failures then s
    else Republished(s.(servers := s.servers[i := s.servers[i].(health := Ok)]), None, false)
  }

  function ProbedServer(v: Server, errored: bool, epoch: nat, newScore: U32): Server {
    if errored then Server(Failed, v.failures + 1, newScore)
    else if epoch == v.failures then Server(Ok, v.failures, newScore)
    else v.(score := newScore)
  }

  function Probed(s: State, i: nat, errored: bool, epoch: nat, newScore: U32): (r: State)
    requires s.Valid() && i < |s.servers|
    ensures r.Valid() && |r.servers| == |s.servers|
  {
    Republished(s.(servers := s.servers[i := ProbedServer(s.servers[i], errored, epoch, newScore)]),
            if errored then Some(i) else None, false)
  }

  // ---------- runs ----------

  /** A critical section of some thread.  A success and a probe name the position of the attempt
      they belong to, which is when the failure epoch they carry was read. */
  datatype Action =
    | Attempt(i: nat)
    | Failure(i: nat)
    | Success(i: nat, attempt: nat)
    | Probe(i: nat, errored: bool, attempt: nat, score: U32)
    | RoundComplete

  ghost predicate Proper(count: nat, h: seq<Action>) {
    forall n :: 0 <= n < |h| ==> ProperAt(count, h, n)
  }

  ghost predicate ProperAt(count: nat, h: seq<Action>, n: nat)
    requires n < |h|
  {
    (!h[n].RoundComplete? ==> h[n].i < count) &&
    (h[n].Success? || h[n].Probe? ==> h[n].attempt < n && h[h[n].attempt] == Attempt(h[n].i))
  }

  /** The epoch read by the attempt at position `k`: the failures of its server before it. */
  function Failures(h: seq<Action>, i: nat): nat {
    if h == [] then 0
    else Failures(h[..|h| - 1], i) + if FailureOf(h[|h| - 1], i) then 1 else 0
  }

  predicate FailureOf(a: Action, i: nat) { (a.Failure? || (a.Probe? && a.errored)) && a.i == i }

  predicate SuccessOf(a: Action, i: nat) { (a.Success? || (a.Probe? && !a.errored)) && a.i == i }

  function Step(s: State, a: Action, epoch: nat): (r: State)
    requires s.Valid() && (!a.RoundComplete? ==> a.i < |s.servers|)
    ensures r.Valid() && |r.servers| == |s.servers|
  {
    match a
    case Attempt(_) => s
    case Failure(i) => Fail(s, i)
    case Success(i, _) => Succeed(s, i, epoch)
    case Probe(i, errored, _, newScore) => Probed(s, i, errored, epoch, newScore)
    case RoundComplete => Republished(s, None, true)
  }

  function EpochFor(h: seq<Action>, a: Action): nat {
    if (a.Success? || a.Probe?) && a.attempt < |h| then Failures(h[..a.attempt], a.i) else 0
  }

  /** The state after a run. */
  function After(count: nat, h: seq<Action>): (s: State)
    requires 0 < count <= MAX_SERVERS && Proper(count, h)
    ensures s.Valid() && |s.servers| == count
    decreases |h|
  {
    if h == [] then Initial(count)
    else
      var g, a := h[..|h| - 1], h[|h| - 1];
      ProperPrefix(count, h, |h| - 1);
      assert ProperAt(count, h, |h| - 1);
      Step(After(count, g), a, EpochFor(g, a))
  }

  lemma {:induction false} ProperPrefix(count: nat, h: seq<Action>, n: nat)
    requires Proper(count, h) && n <= |h|
    ensures Proper(count, h[..n])
  {
    forall m | 0 <= m < n ensures ProperAt(count, h[..n], m) {
      assert ProperAt(count, h, m);
    }
  }

  /** After every step of every run the published index is in range and of minimal health rank. */
  lemma {:induction false} PublishedAlwaysMinimal(count: nat, h: seq<Action>)
    requires 0 < count <= MAX_SERVERS && Proper(count, h)
    ensures After(count, h).Valid() && MinimalRank(After(count, h))
    decreases |h|
  {
    if h != [] {
      var g, a := h[..|h| - 1], h[|h| - 1];
      ProperPrefix(count, h, |h| - 1);
      assert ProperAt(count, h, |h| - 1);
      PublishedAlwaysMinimal(count, g);
      StepKeepsMinimal(After(count, g), a, EpochFor(g, a));
    }
  }

  lemma {:induction false} StepKeepsMinimal(s: State, a: Action, epoch: nat)
    requires s.Valid() && MinimalRank(s) && (!a.RoundComplete? ==> a.i < |s.servers|)
    ensures MinimalRank(Step(s, a, epoch))
  {
    match a
    case Attempt(_) =>
    case Failure(i) =>
      PublishedIsMinimal(s.(servers := s.servers[i := s.servers[i].(health := Failed, failures := s.servers[i].failures + 1)]), Some(i), false);
    case Success(i, _) =>
      PublishedIsMinimal(s.(servers := s.servers[i := s.servers[i].(health := Ok)]), None, false);
    case Probe(i, errored, _, newScore) =>
      PublishedIsMinimal(s.(servers := s.servers[i := ProbedServer(s.servers[i], errored, epoch, newScore)]),
                         if errored then Some(i) else None, false);
    case RoundComplete => PublishedIsMinimal(s, None, true);
  }

  // ---------- what healthy means ----------

  ghost predicate NoFailureSince(h: seq<Action>, i: nat, k: nat) {
    forall m :: k <= m < |h| ==> !FailureOf(h[m], i)
  }

  /** A success at `j` of an attempt that began after the last failure. */
  ghost predicate Vouches(h: seq<Action>, i: nat, j: nat) {
    j < |h| && SuccessOf(h[j], i) && NoFailureSince(h, i, h[j].attempt)
  }

  lemma {:induction false} FailuresBetween(h: seq<Action>, i: nat, k: nat)
    requires k <= |h|
    ensures Failures(h[..k], i) <= Failures(h, i)
    ensures Failures(h[..k], i) == Failures(h, i) <==> NoFailureSince(h, i, k)
    decreases |h|
  {
    if k == |h| {
      assert h[..k] == h;
    } else {
      var n := |h| - 1;
      assert h[..n][..k] == h[..k];
      FailuresBetween(h[..n], i, k);
      assert NoFailureSince(h, i, k) <==> NoFailureSince(h[..n], i, k) && !FailureOf(h[n], i);
    }
  }

  /** A server is healthy exactly when some success of it belongs to an attempt that began after
      its last failure, however the threads interleave. */
  lemma {:induction false} HealthyExactly(count: nat, h: seq<Action>, i: nat)
    requires 0 < count <= MAX_SERVERS && Proper(count, h) && i < count
    ensures After(count, h).servers[i].health.Ok? <==> exists j :: Vouches(h, i, j)
    ensures After(count, h).servers[i].failures == Failures(h, i)
    decreases |h|
  {
    if h != [] {
      var n := |h| - 1;
      var g, a := h[..n], h[n];
      ProperPrefix(count, h, n);
      assert ProperAt(count, h, n);
      HealthyExactly(count, g, i);
      if SuccessOf(a, i) {
        FailuresBetween(g, i, a.attempt);
        assert NoFailureSince(h, i, a.attempt) <==> NoFailureSince(g, i, a.attempt);
        assert Vouches(h, i, n) <==> EpochFor(g, a) == Failures(g, i);
      }
      VouchedBefore(count, h, i);
    }
  }

  lemma {:induction false} VouchedBefore(count: nat, h: seq<Action>, i: nat)
    requires h != [] && Proper(count, h)
    ensures var n := |h| - 1;
            (exists j :: Vouches(h, i, j)) <==>
            (!FailureOf(h[n], i) && exists j :: Vouches(h[..n], i, j)) || Vouches(h, i, n)
  {
    var n := |h| - 1;
    var g := h[..n];
    forall j: nat | j < n ensures Vouches(h, i, j) <==> Vouches(g, i, j) && !FailureOf(h[n], i) {
      if SuccessOf(h[j], i) {
        assert ProperAt(count, h, j);
        var k := h[j].attempt;
        assert NoFailureSince(h, i, k) ==> NoFailureSince(g, i, k) && !FailureOf(h[n], i);
      }
    }
  }

  /** A published server that fails, by business report or by probe, does not stay published when
      there is another. */
  lemma {:induction false} FailedServerIsLeft(s: State, epoch: nat, newScore: U32)
    requires s.Valid() && |s.servers| > 1
    ensures Fail(s, s.best).best != s.best
    ensures Probed(s, s.best, true, epoch, newScore).best != s.best
  {
    var v := s.servers[s.best];
    FailedIncumbentIsLeft(s.(servers := s.servers[s.best := v.(health := Failed, failures := v.failures + 1)]));
    FailedIncumbentIsLeft(s.(servers := s.servers[s.best := ProbedServer(v, true, epoch, newScore)]));
  }
}
