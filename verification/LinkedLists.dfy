/** Doubly linked lists whose nodes are numbers and whose links are kept in two tables. */
module LinkedLists {
  import opened Options
  import opened Sequences

  type Links = seq<Option<nat>>

  function At(s: seq<nat>, i: int): Option<nat> {
    if 0 <= i < |s| then Some(s[i]) else None
  }

  ghost predicate NextOk(next: Links, s: seq<nat>, i: nat)
    requires i < |s|
  {
    s[i] < |next| && next[s[i]] == At(s, i + 1)
  }

  ghost predicate PrevOk(prev: Links, s: seq<nat>, i: nat)
    requires i < |s|
  {
    s[i] < |prev| && prev[s[i]] == At(s, i - 1)
  }

  ghost predicate Forward(next: Links, s: seq<nat>) {
    forall i :: 0 <= i < |s| ==> NextOk(next, s, i)
  }

  /** The links make up the list `s`, in both directions. */
  ghost predicate Linked(next: Links, prev: Links, s: seq<nat>) {
    Distinct(s) && Forward(next, s) && forall i :: 0 <= i < |s| ==> PrevOk(prev, s, i)
  }

  lemma {:induction false} ForwardFrame(next: Links, next': Links, s: seq<nat>)
    requires Forward(next, s) && |next'| == |next| && forall x :: x in s && x < |next| ==> next'[x] == next[x]
    ensures Forward(next', s)
  {
    forall i | 0 <= i < |s| ensures NextOk(next', s, i) {
      assert NextOk(next, s, i);
    }
  }

  lemma {:induction false} Frame(next: Links, prev: Links, next': Links, prev': Links, s: seq<nat>)
    requires Linked(next, prev, s) && |next'| == |next| && |prev'| == |prev|
    requires forall x :: x in s && x < |next| ==> next'[x] == next[x]
    requires forall x :: x in s && x < |prev| ==> prev'[x] == prev[x]
    ensures Linked(next', prev', s)
  {
    ForwardFrame(next, next', s);
    forall i | 0 <= i < |s| ensures PrevOk(prev', s, i) {
      assert PrevOk(prev, s, i);
    }
  }

  lemma {:induction false} Differ(s: seq<nat>, i: nat, j: nat)
    requires Distinct(s) && i < |s| && j < |s| && i != j
    ensures s[i] != s[j]
  {}

  /** A link set only when there is something to set it in. */
  function Set(links: Links, at: Option<nat>, to: Option<nat>): (r: Links)
    requires at.Some? ==> at.value < |links|
    ensures |r| == |links|
    ensures forall x :: 0 <= x < |links| && at != Some(x) ==> r[x] == links[x]
    ensures at.Some? ==> r[at.value] == to
  {
    if at.Some? then links[at.value := to] else links
  }

  lemma {:induction false} DistinctPush(s: seq<nat>, x: nat)
    requires Distinct(s) && x !in s
    ensures Distinct([x] + s) && Distinct(s + [x])
  {}

  lemma {:induction false} DistinctCut(s: seq<nat>, k: nat)
    requires Distinct(s) && k < |s|
    ensures Distinct(s[..k] + s[k + 1..]) && s[k] !in s[..k] + s[k + 1..]
  {
    var r := s[..k] + s[k + 1..];
    assert forall i :: 0 <= i < |r| ==> r[i] == if i < k then s[i] else s[i + 1];
  }

  lemma {:induction false} PushFront(next: Links, prev: Links, s: seq<nat>, x: nat)
    requires Linked(next, prev, s) && x < |next| && x < |prev| && x !in s
    ensures s != [] ==> PrevOk(prev, s, 0)
    ensures Linked(next[x := At(s, 0)], Set(prev[x := None], At(s, 0), Some(x)), [x] + s)
  {
    DistinctPush(s, x);
    assert s != [] ==> PrevOk(prev, s, 0);
    var next', prev' := next[x := At(s, 0)], Set(prev[x := None], At(s, 0), Some(x));
    var r := [x] + s;
    forall i | 0 <= i < |r| ensures NextOk(next', r, i) && PrevOk(prev', r, i) {
      if i > 0 {
        assert r[i] == s[i - 1];
        assert NextOk(next, s, i - 1) && PrevOk(prev, s, i - 1);
        if i > 1 { Differ(s, 0, i - 1); }
      }
    }
  }

  lemma {:induction false} Append(next: Links, prev: Links, s: seq<nat>, x: nat)
    requires Linked(next, prev, s) && x < |next| == |prev| && x !in s && s != []
    ensures var last := s[|s| - 1];
            last < |next| && Linked(next[x := None][last := Some(x)], prev[x := Some(last)], s + [x])
  {
    DistinctPush(s, x);
    var n := |s| - 1;
    var last := s[n];
    assert NextOk(next, s, n);
    var next', prev', r := next[x := None][last := Some(x)], prev[x := Some(last)], s + [x];
    forall i | 0 <= i < |r| ensures NextOk(next', r, i) && PrevOk(prev', r, i) {
      if i <= n {
        assert r[i] == s[i];
        assert NextOk(next, s, i) && PrevOk(prev, s, i);
        if i < n { Differ(s, i, n); }
      }
    }
  }

  /** The links around `x` taken past it. */
  function NextPast(next: Links, prev: Links, x: nat): (r: Links)
    requires x < |next| == |prev| && (prev[x].Some? ==> prev[x].value < |next|)
    ensures |r| == |next|
  {
    Set(next, prev[x], next[x])
  }

  function PrevPast(next: Links, prev: Links, x: nat): (r: Links)
    requires x < |next| == |prev| && (next[x].Some? ==> next[x].value < |next|)
    ensures |r| == |prev|
  {
    Set(prev, next[x], prev[x])
  }

  lemma {:induction false} NeighboursInTable(next: Links, prev: Links, s: seq<nat>, k: nat)
    requires Linked(next, prev, s) && k < |s| && |next| == |prev|
    ensures s[k] < |next| && next[s[k]] == At(s, k + 1) && prev[s[k]] == At(s, k - 1)
    ensures prev[s[k]].Some? ==> prev[s[k]].value < |next|
    ensures next[s[k]].Some? ==> next[s[k]].value < |next|
  {
    assert NextOk(next, s, k) && PrevOk(prev, s, k);
    if k > 0 { assert NextOk(next, s, k - 1); }
    if k + 1 < |s| { assert NextOk(next, s, k + 1); }
  }

  lemma {:induction false} Unlink(next: Links, prev: Links, s: seq<nat>, k: nat)
    requires Linked(next, prev, s) && k < |s| && |next| == |prev|
    ensures var x := s[k];
            x < |next| && (prev[x].Some? ==> prev[x].value < |next|) && (next[x].Some? ==> next[x].value < |next|) &&
            Linked(NextPast(next, prev, x), PrevPast(next, prev, x), s[..k] + s[k + 1..])
  {
    var x := s[k];
    NeighboursInTable(next, prev, s, k);
    DistinctCut(s, k);
    var next', prev', r := NextPast(next, prev, x), PrevPast(next, prev, x), s[..k] + s[k + 1..];
    forall i | 0 <= i < |r| ensures NextOk(next', r, i) && PrevOk(prev', r, i) {
      UnlinkAt(next, prev, s, k, i);
    }
  }

  lemma {:induction false} UnlinkAt(next: Links, prev: Links, s: seq<nat>, k: nat, i: nat)
    requires Linked(next, prev, s) && k < |s| && i < |s| - 1 && |next| == |prev|
    requires s[k] < |next| && next[s[k]] == At(s, k + 1) && prev[s[k]] == At(s, k - 1)
    requires prev[s[k]].Some? ==> prev[s[k]].value < |next|
    requires next[s[k]].Some? ==> next[s[k]].value < |next|
    ensures var r := s[..k] + s[k + 1..];
            NextOk(NextPast(next, prev, s[k]), r, i) && PrevOk(PrevPast(next, prev, s[k]), r, i)
  {
    var r := s[..k] + s[k + 1..];
    var j := if i < k then i else i + 1;
    assert r[i] == s[j];
    assert NextOk(next, s, j) && PrevOk(prev, s, j);
    assert At(r, i + 1) == if i + 1 < k then At(s, i + 1) else At(s, i + 2);
    assert At(r, i - 1) == if i - 1 < k then At(s, i - 1) else At(s, i);
    if k > 0 && j != k - 1 { Differ(s, j, k - 1); }
    if k + 1 < |s| && j != k + 1 { Differ(s, j, k + 1); }
  }

  /** `s` without `x`. */
  function Without(s: seq<nat>, x: nat): seq<nat> {
    if s == [] then [] else if s[0] == x then Without(s[1..], x) else [s[0]] + Without(s[1..], x)
  }

  lemma {:induction false} WithoutAbsent(s: seq<nat>, x: nat)
    requires x !in s
    ensures Without(s, x) == s
  {
    if s != [] { WithoutAbsent(s[1..], x); }
  }

  lemma {:induction false} WithoutAt(s: seq<nat>, k: nat)
    requires Distinct(s) && k < |s|
    ensures Without(s, s[k]) == s[..k] + s[k + 1..]
  {
    if k == 0 {
      WithoutAbsent(s[1..], s[0]);
    } else {
      WithoutAt(s[1..], k - 1);
      assert s[1..][..k - 1] == s[1..k] && s[1..][k..] == s[k + 1..];
      assert s[..k] == [s[0]] + s[1..k];
    }
  }

  lemma {:induction false} WithoutMembers(s: seq<nat>, x: nat)
    ensures forall y :: y in Without(s, x) <==> y in s && y != x
  {
    if s != [] {
      WithoutMembers(s[1..], x);
      assert s == [s[0]] + s[1..];
    }
  }
}
