/** Sending the queued replies of a batch (src/udp_proxy.c, udp_tproxy_flush_client_sends): the sends
    are grouped by socket, by swapping their indices, and each group goes out with one call. */
module UdpFlush {
  import opened Division
  import opened Sequences

  /** One sendmmsg: the socket's entry, and which sends of the batch go with it. */
  datatype Group = Group(entry: nat, members: seq<nat>)

  function AllMembers(groups: seq<Group>): seq<nat> {
    if groups == [] then [] else groups[0].members + AllMembers(groups[1..])
  }

  ghost predicate InTable(sources: seq<nat>, indices: seq<nat>) {
    forall k :: 0 <= k < |indices| ==> indices[k] < |sources|
  }

  function UpTo(n: nat): (s: seq<nat>)
    ensures |s| == n && forall i :: 0 <= i < n ==> s[i] == i
  {
    seq(n, i => i)
  }

  // ---------- what the swaps do ----------

  /** The first moves behind the others. */
  function Turned(s: seq<nat>): (r: seq<nat>)
    ensures |r| == |s|
  {
    if s == [] then [] else s[1..] + [s[0]]
  }

  /** The sends of `entry`, in their order. */
  ghost function Taken(sources: seq<nat>, r: seq<nat>, entry: nat): (t: seq<nat>)
    requires InTable(sources, r)
    ensures |t| <= |r| && InTable(sources, t)
  {
    if r == [] then []
    else
      var last := r[|r| - 1];
      Taken(sources, r[..|r| - 1], entry) + if sources[last] == entry then [last] else []
  }

  /** The other sends: each swap turns those passed so far. */
  ghost function Left(sources: seq<nat>, r: seq<nat>, entry: nat): (l: seq<nat>)
    requires InTable(sources, r)
    ensures |l| + |Taken(sources, r, entry)| == |r| && InTable(sources, l)
  {
    if r == [] then []
    else
      var last, l := r[|r| - 1], Left(sources, r[..|r| - 1], entry);
      if sources[last] == entry then Turned(l) else l + [last]
  }

  /** The groups of the sends `r`. */
  ghost function Groups(sources: seq<nat>, r: seq<nat>): seq<Group>
    requires InTable(sources, r)
    decreases |r|
  {
    if r == [] then []
    else
      var entry := sources[r[0]];
      FirstIsTaken(sources, r);
      [Group(entry, Taken(sources, r, entry))] + Groups(sources, Left(sources, r, entry))
  }

  lemma {:induction false} GroupsOn(sources: seq<nat>, r: seq<nat>)
    requires InTable(sources, r) && r != []
    ensures var t := Taken(sources, r, sources[r[0]]);
            t != [] && Groups(sources, r) == [Group(sources[r[0]], t)] + Groups(sources, Left(sources, r, sources[r[0]]))
  {
    FirstIsTaken(sources, r);
  }

  lemma {:induction false} FirstIsTaken(sources: seq<nat>, r: seq<nat>)
    requires InTable(sources, r) && r != []
    ensures Taken(sources, r, sources[r[0]]) != []
  {
    if |r| > 1 {
      FirstIsTaken(sources, r[..|r| - 1]);
    }
  }

  function Swap(s: seq<nat>, a: nat, b: nat): (r: seq<nat>)
    requires a < |s| && b < |s|
    ensures |r| == |s|
  {
    s[a := s[b]][b := s[a]]
  }

  /** Passing the next send, or swapping it with the first of those passed. */
  lemma {:induction false} SwapTurns(front: seq<nat>, t: seq<nat>, l: seq<nat>, x: nat, rest: seq<nat>, indices: seq<nat>)
    requires indices == front + t + l + ([x] + rest)
    ensures indices[|front| + |t| + |l|] == x && indices == front + t + (l + [x]) + rest
    ensures l == [] ==> indices == front + (t + [x]) + l + rest
    ensures l != [] ==> Swap(indices, |front| + |t|, |front| + |t| + |l|) == front + (t + [x]) + Turned(l) + rest
  {
    var at := |front| + |t|;
    assert l != [] ==> indices[at] == l[0];
  }

  /** `indices` when the inner loop, started at slot `i`, has come to slot `j`. */
  ghost predicate Gathering(sources: seq<nat>, before: seq<nat>, entry: nat, i: nat, j: nat, indices: seq<nat>, count: nat) {
    InTable(sources, before) && i <= j <= |before| &&
    count == |Taken(sources, before[i..j], entry)| &&
    indices == before[..i] + Taken(sources, before[i..j], entry) + Left(sources, before[i..j], entry) + before[j..]
  }

  lemma {:induction false} TakenOn(sources: seq<nat>, r: seq<nat>, x: nat, entry: nat)
    requires InTable(sources, r) && x < |sources|
    ensures InTable(sources, r + [x])
    ensures Taken(sources, r + [x], entry) == Taken(sources, r, entry) + if sources[x] == entry then [x] else []
    ensures Left(sources, r + [x], entry) == if sources[x] == entry then Turned(Left(sources, r, entry)) else Left(sources, r, entry) + [x]
  {
    assert (r + [x])[..|r|] == r;
  }

  lemma {:induction false} NextSlot(sources: seq<nat>, before: seq<nat>, entry: nat, i: nat, j: nat, indices: seq<nat>, count: nat)
    requires Gathering(sources, before, entry, i, j, indices, count) && j < |before|
    ensures |indices| == |before| && i + count <= j && indices[j] == before[j] < |sources|
  {}

  lemma {:induction false} GatherStep(sources: seq<nat>, before: seq<nat>, entry: nat, i: nat, j: nat, indices: seq<nat>, count: nat)
    requires Gathering(sources, before, entry, i, j, indices, count)
    requires j < |before| && |indices| == |before| && i + count <= j && before[j] < |sources|
    ensures if sources[before[j]] != entry then Gathering(sources, before, entry, i, j + 1, indices, count)
            else Gathering(sources, before, entry, i, j + 1, if j == i + count then indices else Swap(indices, i + count, j), count + 1)
  {
    hide Taken, Left, Turned, Swap, InTable;
    var r, x, rest := before[i..j], before[j], before[j + 1..];
    InTablePart(sources, before, i, j);
    TakenOn(sources, r, x, entry);
    Around(before, i, j);
    SwapTurns(before[..i], Taken(sources, r, entry), Left(sources, r, entry), x, rest, indices);
  }

  lemma {:induction false} Around(s: seq<nat>, i: nat, j: nat)
    requires i <= j < |s|
    ensures s[i..j + 1] == s[i..j] + [s[j]] && s[j..] == [s[j]] + s[j + 1..]
  {}

  lemma {:induction false} InTablePart(sources: seq<nat>, r: seq<nat>, i: nat, j: nat)
    requires InTable(sources, r) && i <= j <= |r|
    ensures InTable(sources, r[i..j])
  {}

  /** The inner loop of udp_tproxy_flush_client_sends, for the entry of slot `i`. */
  method Gather(sources: seq<nat>, before: seq<nat>, i: nat) returns (indices: seq<nat>, count: nat)
    requires InTable(sources, before) && i < |before|
    ensures var entry := sources[before[i]];
            count == |Taken(sources, before[i..], entry)| &&
            indices == before[..i] + Taken(sources, before[i..], entry) + Left(sources, before[i..], entry)
  {
    indices, count := before, 0;
    var entry := sources[before[i]];
    GatheringBegins(sources, before, entry, i);
    hide Swap, Gathering, Taken, Left;
    for j := i to |before|
      invariant Gathering(sources, before, entry, i, j, indices, count)
    {
      NextSlot(sources, before, entry, i, j, indices, count);
      GatherStep(sources, before, entry, i, j, indices, count);
      if sources[indices[j]] == entry {
        if j != i + count {
          indices := Swap(indices, i + count, j);
        }
        count := count + 1;
      }
    }
    GatheringEnds(sources, before, entry, i, indices, count);
  }

  lemma {:induction false} GatheringBegins(sources: seq<nat>, before: seq<nat>, entry: nat, i: nat)
    requires InTable(sources, before) && i <= |before|
    ensures Gathering(sources, before, entry, i, i, before, 0)
  {
    assert before[i..i] == [] && before == before[..i] + [] + [] + before[i..];
  }

  lemma {:induction false} GatheringEnds(sources: seq<nat>, before: seq<nat>, entry: nat, i: nat, indices: seq<nat>, count: nat)
    requires Gathering(sources, before, entry, i, |before|, indices, count)
    ensures count == |Taken(sources, before[i..], entry)|
    ensures indices == before[..i] + Taken(sources, before[i..], entry) + Left(sources, before[i..], entry)
  {
    assert before[i..|before|] == before[i..] && before[|before|..] == [];
    hide Taken, Left;
  }

  /** A gathered group has its sends in the order in which the slots held them, whatever that was. */
  lemma {:induction false} TakenKeepsOrder(sources: seq<nat>, r: seq<nat>, entry: nat, i: nat, j: nat) returns (p: nat, q: nat)
    requires InTable(sources, r) && i < j < |r| && sources[r[i]] == sources[r[j]] == entry
    ensures var t := Taken(sources, r, entry); p < q < |t| && t[p] == r[i] && t[q] == r[j]
  {
    var init := r[..|r| - 1];
    if j < |init| {
      p, q := TakenKeepsOrder(sources, init, entry, i, j);
    } else {
      p := TakenAt(sources, init, entry, i);
      q := |Taken(sources, init, entry)|;
    }
  }

  lemma {:induction false} TakenAt(sources: seq<nat>, r: seq<nat>, entry: nat, i: nat) returns (p: nat)
    requires InTable(sources, r) && i < |r| && sources[r[i]] == entry
    ensures var t := Taken(sources, r, entry); p < |t| && t[p] == r[i]
  {
    var init := r[..|r| - 1];
    if i < |init| {
      p := TakenAt(sources, init, entry, i);
    } else {
      p := |Taken(sources, init, entry)|;
    }
  }

  /** What has been sent, and what is still to come. */
  ghost predicate Sending(sources: seq<nat>, indices: seq<nat>, i: nat, groups: seq<Group>) {
    |indices| == |sources| && i <= |indices| && InTable(sources, indices) &&
    groups + Groups(sources, indices[i..]) == Groups(sources, UpTo(|sources|))
  }

  lemma {:induction false} SendStep(sources: seq<nat>, before: seq<nat>, i: nat, groups: seq<Group>, indices: seq<nat>, count: nat)
    requires Sending(sources, before, i, groups) && i < |before|
    requires var entry := sources[before[i]];
             count == |Taken(sources, before[i..], entry)| &&
             indices == before[..i] + Taken(sources, before[i..], entry) + Left(sources, before[i..], entry)
    ensures 0 < count <= |sources| - i
    ensures Sending(sources, indices, i + count, groups + [Group(sources[before[i]], indices[i..i + count])])
  {
    hide Taken, Left, Groups;
    var r, entry := before[i..], sources[before[i]];
    GroupsOn(sources, r);
    var t, l := Taken(sources, r, entry), Left(sources, r, entry);
    assert indices[i..i + count] == t && indices[i + count..] == l;
    assert groups + Groups(sources, r) == groups + [Group(entry, t)] + Groups(sources, l);
  }

  /** udp_tproxy_flush_client_sends */
  method Flush(sources: seq<nat>) returns (groups: seq<Group>)
    ensures groups == Groups(sources, UpTo(|sources|))
    ensures Distinct(AllMembers(groups)) && forall m: nat :: m in AllMembers(groups) <==> m < |sources|
    ensures GroupsOk(sources, groups) && (groups != [] ==> Ascends(groups[0].members))
    ensures Fits(sources) ==> KeepOrder(groups)
  {
    groups := [];
    var indices, i := UpTo(|sources|), 0;
    assert indices[0..] == indices;
    while i < |sources|
      invariant Sending(sources, indices, i, groups)
      decreases |sources| - i
    {
      var before, count := indices, 0;
      indices, count := Gather(sources, before, i);
      SendStep(sources, before, i, groups, indices, count);
      groups := groups + [Group(sources[before[i]], indices[i..i + count])];
      i := i + count;
    }
    AllSent(sources, indices, groups);
    BatchGroups(sources);
  }

  lemma {:induction false} AllSent(sources: seq<nat>, indices: seq<nat>, groups: seq<Group>)
    requires Sending(sources, indices, |sources|, groups)
    ensures groups == Groups(sources, UpTo(|sources|))
  {
    assert indices[|sources|..] == [] && groups + [] == groups;
  }

  /** What is said of the groups of any queue, said of a whole batch. */
  lemma {:induction false} BatchGroups(sources: seq<nat>)
    ensures InTable(sources, UpTo(|sources|))
    ensures var groups := Groups(sources, UpTo(|sources|));
            GroupsOk(sources, groups) && (groups != [] ==> Ascends(groups[0].members)) && (Fits(sources) ==> KeepOrder(groups)) &&
            Distinct(AllMembers(groups)) && forall m: nat :: m in AllMembers(groups) <==> m < |sources|
  {
    var r := UpTo(|sources|);
    BatchMembers(sources, r);
    assert InTable(sources, r) && Ascends(r) && EntriesOf(sources, r) == sources;
    hide Groups, Taken, Left, Skipped, Fits, AllMembers, KeepOrder, GroupsOk;
    GroupsAreOk(sources, r);
    if Fits(sources) { FittingKeepsOrder(sources, r); }
    FirstKeepsOrder(sources, r);
  }

  lemma {:induction false} BatchMembers(sources: seq<nat>, r: seq<nat>)
    requires r == UpTo(|sources|) && InTable(sources, r)
    ensures Distinct(AllMembers(Groups(sources, r)))
    ensures forall m: nat :: m in AllMembers(Groups(sources, r)) <==> m < |sources|
  {
    hide Groups, AllMembers;
    GroupsCover(sources, r);
    forall m: nat ensures m in r <==> m < |sources| {
      if m < |sources| { assert r[m] == m; }
    }
  }

  lemma {:induction false} FirstKeepsOrder(sources: seq<nat>, r: seq<nat>)
    requires InTable(sources, r) && Ascends(r)
    ensures Groups(sources, r) != [] ==> Ascends(Groups(sources, r)[0].members)
  {
    if r != [] { SkippedAscends(sources, r, sources[r[0]]); }
  }

  // ---------- every send once, with its own socket ----------

  /** The members of each group are of its entry, and no entry has two groups. */
  ghost predicate GroupsOk(sources: seq<nat>, groups: seq<Group>) {
    (forall g :: 0 <= g < |groups| ==> GroupOk(sources, groups[g])) &&
    forall g, h :: 0 <= g < h < |groups| ==> groups[g].entry != groups[h].entry
  }

  ghost predicate GroupOk(sources: seq<nat>, g: Group) {
    g.members != [] && forall k :: 0 <= k < |g.members| ==> g.members[k] < |sources| && sources[g.members[k]] == g.entry
  }

  lemma {:induction false} TakenMembers(sources: seq<nat>, r: seq<nat>, entry: nat)
    requires InTable(sources, r)
    ensures forall m :: m in Taken(sources, r, entry) <==> m in r && sources[m] == entry
  {
    if r != [] {
      TakenMembers(sources, r[..|r| - 1], entry);
      assert r == r[..|r| - 1] + [r[|r| - 1]];
    }
  }

  lemma {:induction false} LeftMembers(sources: seq<nat>, r: seq<nat>, entry: nat)
    requires InTable(sources, r)
    ensures forall m :: m in Left(sources, r, entry) <==> m in r && sources[m] != entry
  {
    if r != [] {
      var init := r[..|r| - 1];
      LeftMembers(sources, init, entry);
      assert r == init + [r[|r| - 1]];
      TurnedMembers(Left(sources, init, entry));
    }
  }

  lemma {:induction false} TurnedMembers(s: seq<nat>)
    ensures forall m :: m in Turned(s) <==> m in s
    ensures Distinct(s) ==> Distinct(Turned(s))
  {
    if s != [] {
      assert s == [s[0]] + s[1..];
    }
  }

  lemma {:induction false} DistinctOn(s: seq<nat>, x: nat)
    requires Distinct(s) && x !in s
    ensures Distinct(s + [x])
  {}

  lemma {:induction false} TakenDistinct(sources: seq<nat>, r: seq<nat>, entry: nat)
    requires InTable(sources, r) && Distinct(r)
    ensures Distinct(Taken(sources, r, entry)) && Distinct(Left(sources, r, entry))
  {
    if r != [] {
      var init, x := r[..|r| - 1], r[|r| - 1];
      TakenDistinct(sources, init, entry);
      TakenMembers(sources, init, entry);
      LeftMembers(sources, init, entry);
      assert x !in init;
      if sources[x] == entry {
        DistinctOn(Taken(sources, init, entry), x);
        TurnedMembers(Left(sources, init, entry));
      } else {
        DistinctOn(Left(sources, init, entry), x);
      }
    }
  }

  lemma {:induction false} DistinctJoin(s: seq<nat>, t: seq<nat>)
    requires Distinct(s) && Distinct(t) && forall m :: m in s ==> m !in t
    ensures Distinct(s + t)
  {
    var u := s + t;
    forall i, j | 0 <= i < j < |u| ensures u[i] != u[j] {
      if i < |s| <= j {
        assert u[i] in s && u[j] == t[j - |s|] && t[j - |s|] in t;
      }
    }
  }

  lemma {:induction false} GroupsCover(sources: seq<nat>, r: seq<nat>)
    requires InTable(sources, r) && Distinct(r)
    ensures Distinct(AllMembers(Groups(sources, r)))
    ensures forall m: nat :: m in AllMembers(Groups(sources, r)) <==> m in r
    decreases |r|
  {
    if r != [] {
      var entry := sources[r[0]];
      var t, l := Taken(sources, r, entry), Left(sources, r, entry);
      FirstIsTaken(sources, r);
      TakenDistinct(sources, r, entry);
      TakenMembers(sources, r, entry);
      LeftMembers(sources, r, entry);
      GroupsCover(sources, l);
      var gs := Groups(sources, r);
      assert gs[0].members == t && gs[1..] == Groups(sources, l);
      DistinctJoin(t, AllMembers(gs[1..]));
    }
  }

  lemma {:induction false} GroupsAreOk(sources: seq<nat>, r: seq<nat>)
    requires InTable(sources, r)
    ensures GroupsOk(sources, Groups(sources, r))
    ensures forall g :: 0 <= g < |Groups(sources, r)| ==>
              exists m :: m in r && sources[m] == Groups(sources, r)[g].entry
    decreases |r|
  {
    if r != [] {
      var entry := sources[r[0]];
      var t, l := Taken(sources, r, entry), Left(sources, r, entry);
      FirstIsTaken(sources, r);
      TakenMembers(sources, r, entry);
      LeftMembers(sources, r, entry);
      GroupsAreOk(sources, l);
      var gs := Groups(sources, r);
      assert gs[1..] == Groups(sources, l);
      forall g | 0 < g < |gs| ensures GroupOk(sources, gs[g]) && gs[g].entry != entry && exists m :: m in r && sources[m] == gs[g].entry {
        assert gs[g] == gs[1..][g - 1];
      }
      assert gs[0] == Group(entry, t) && r[0] in r;
      forall g, h | 0 < g < h < |gs| ensures gs[g].entry != gs[h].entry {
        assert gs[g] == gs[1..][g - 1] && gs[h] == gs[1..][h - 1];
      }
    }
  }

  // ---------- when the groups keep the order ----------

  ghost predicate Ascends(s: seq<nat>) {
    forall a, b :: 0 <= a < b < |s| ==> s[a] < s[b]
  }

  ghost predicate KeepOrder(groups: seq<Group>) {
    forall g :: 0 <= g < |groups| ==> Ascends(groups[g].members)
  }

  /** How many of the first `q` entries are not `a`. */
  function Others(entries: seq<nat>, a: nat, q: nat): (k: nat)
    requires q <= |entries|
    ensures k <= q
  {
    if q == 0 then 0 else Others(entries, a, q - 1) + if entries[q - 1] == a then 0 else 1
  }

  /** How many entries right before position `q` are `a`. */
  function RunBefore(entries: seq<nat>, a: nat, q: nat): (n: nat)
    requires q <= |entries|
    ensures n <= q
  {
    if q == 0 || entries[q - 1] != a then 0 else 1 + RunBefore(entries, a, q - 1)
  }

  predicate Whole(k: nat, n: nat) { k == 0 || n % k == 0 }

  /** Each run of `a` before one of the first `q` others is a multiple of the others before it. */
  predicate FitBefore(entries: seq<nat>, a: nat, q: nat)
    requires q <= |entries|
  {
    forall p :: 0 <= p < q && entries[p] != a ==> Whole(Others(entries, a, p), RunBefore(entries, a, p))
  }

  /** The length of each maximal run of `a` is a multiple of the number of others before it. */
  predicate RunsFit(entries: seq<nat>, a: nat) {
    FitBefore(entries, a, |entries|) && Whole(Others(entries, a, |entries|), RunBefore(entries, a, |entries|))
  }

  /** `s` turned `n` times. */
  function TurnedBy(s: seq<nat>, n: nat): (r: seq<nat>)
    ensures |r| == |s|
  {
    if n == 0 then s else Turned(TurnedBy(s, n - 1))
  }

  lemma {:induction false} TurnedByIs(s: seq<nat>, n: nat)
    requires s != []
    ensures TurnedBy(s, n) == s[n % |s|..] + s[..n % |s|]
  {
    if n > 0 {
      TurnedByIs(s, n - 1);
      NextRemainder(n - 1, |s|);
      TurnedOn(s, (n - 1) % |s|);
    }
  }

  lemma {:induction false} TurnedOn(s: seq<nat>, m: nat)
    requires m < |s|
    ensures Turned(s[m..] + s[..m]) == if m + 1 == |s| then s[0..] + s[..0] else s[m + 1..] + s[..m + 1]
  {}

  lemma {:induction false} TurnedOnce(s: seq<nat>, n: nat)
    ensures TurnedBy(Turned(s), n) == TurnedBy(s, n + 1)
  {
    if n > 0 {
      TurnedOnce(s, n - 1);
    }
  }

  /** Turned, an ascending sequence ascends exactly when it is back where it was. */
  lemma {:induction false} TurnedAscends(s: seq<nat>, n: nat)
    requires Ascends(s)
    ensures Ascends(TurnedBy(s, n)) <==> Whole(|s|, n)
    ensures Whole(|s|, n) ==> TurnedBy(s, n) == s
  {
    if s != [] {
      TurnedByIs(s, n);
      var m, t := n % |s|, TurnedBy(s, n);
      if m > 0 {
        assert t[|s| - 1 - m] == s[|s| - 1] && t[|s| - m] == s[0];
      }
    } else {
      TurnedNothing(n);
    }
  }

  lemma {:induction false} TurnedNothing(n: nat)
    ensures TurnedBy([], n) == []
  {
    if n > 0 {
      TurnedNothing(n - 1);
    }
  }

  /** However often it is turned, it does not ascend. */
  ghost predicate NeverAscends(s: seq<nat>) {
    forall n: nat :: !Ascends(TurnedBy(s, n))
  }

  /** A greater number at the end of what does not ascend cannot be turned right. */
  lemma {:induction false} NeverAgain(s: seq<nat>, x: nat)
    requires !Ascends(s) && forall k :: 0 <= k < |s| ==> s[k] < x
    ensures NeverAscends(s + [x])
  {
    var t := s + [x];
    forall n: nat ensures !Ascends(TurnedBy(t, n)) {
      TurnedByIs(t, n);
      var m, u := n % |t|, TurnedBy(t, n);
      if m == 0 {
        assert u == t;
        var a, b :| 0 <= a < b < |s| && s[a] >= s[b];
        assert t[a] >= t[b];
      } else {
        assert u[|t| - 1 - m] == x && u[|t| - m] == s[0];
      }
    }
  }

  lemma {:induction false} StillNever(s: seq<nat>)
    requires NeverAscends(s)
    ensures NeverAscends(Turned(s)) && !Ascends(s)
  {
    forall n: nat ensures !Ascends(TurnedBy(Turned(s), n)) {
      TurnedOnce(s, n);
    }
    assert TurnedBy(s, 0) == s;
  }

  ghost function EntriesOf(sources: seq<nat>, r: seq<nat>): (e: seq<nat>)
    requires InTable(sources, r)
    ensures |e| == |r| && forall k :: 0 <= k < |r| ==> e[k] == sources[r[k]]
  {
    seq(|r|, k requires 0 <= k < |r| => sources[r[k]])
  }

  /** The sends of the other entries, in their order. */
  ghost function Skipped(sources: seq<nat>, r: seq<nat>, entry: nat): (s: seq<nat>)
    requires InTable(sources, r)
    ensures |s| <= |r| && InTable(sources, s)
  {
    if r == [] then []
    else
      var last := r[|r| - 1];
      Skipped(sources, r[..|r| - 1], entry) + if sources[last] == entry then [] else [last]
  }

  lemma {:induction false} SkippedAscends(sources: seq<nat>, r: seq<nat>, entry: nat)
    requires InTable(sources, r) && Ascends(r)
    ensures Ascends(Skipped(sources, r, entry)) && Ascends(Taken(sources, r, entry))
    ensures forall k :: 0 <= k < |Skipped(sources, r, entry)| ==> Skipped(sources, r, entry)[k] <= r[|r| - 1]
    ensures forall k :: 0 <= k < |Taken(sources, r, entry)| ==> Taken(sources, r, entry)[k] <= r[|r| - 1]
  {
    if |r| > 0 {
      var init, x := r[..|r| - 1], r[|r| - 1];
      SkippedAscends(sources, init, entry);
      AscendsOn(Skipped(sources, init, entry), x);
      AscendsOn(Taken(sources, init, entry), x);
    }
  }

  lemma {:induction false} AscendsOn(s: seq<nat>, x: nat)
    requires Ascends(s) && forall k :: 0 <= k < |s| ==> s[k] < x
    ensures Ascends(s + [x]) && (forall k :: 0 <= k < |s + [x]| ==> (s + [x])[k] <= x)
    ensures Ascends(s + []) && (forall k :: 0 <= k < |s + []| ==> (s + [])[k] <= x)
  {
    assert s + [] == s;
  }

  /** The others `l` are `s` turned as often as the last run is long, if all runs before it were
      whole; if not, no later run can turn them right. */
  ghost predicate TurnedSoFar(l: seq<nat>, s: seq<nat>, fit: bool, run: nat) {
    |l| == |s| && if fit then l == TurnedBy(s, run) else NeverAscends(l)
  }

  lemma {:induction false} TurnedByOwn(l: seq<nat>, s: seq<nat>, fit: bool, run: nat)
    requires TurnedSoFar(l, s, fit, run)
    ensures TurnedSoFar(Turned(l), s, fit, run + 1)
  {
    if !fit { StillNever(l); }
  }

  lemma {:induction false} TurnedByOther(l: seq<nat>, s: seq<nat>, fit: bool, run: nat, x: nat)
    requires TurnedSoFar(l, s, fit, run) && Ascends(s)
    requires forall k :: 0 <= k < |l| ==> l[k] < x
    ensures TurnedSoFar(l + [x], s + [x], fit && Whole(|s|, run), 0)
  {
    TurnedAscends(s, run);
    if !(fit && Whole(|s|, run)) {
      if !fit { StillNever(l); }
      NeverAgain(l, x);
    }
  }

  lemma {:induction false} SkippedOn(sources: seq<nat>, r: seq<nat>, x: nat, entry: nat)
    requires InTable(sources, r) && x < |sources|
    ensures Skipped(sources, r + [x], entry) == if sources[x] == entry then Skipped(sources, r, entry) else Skipped(sources, r, entry) + [x]
  {
    assert (r + [x])[..|r|] == r;
  }

  lemma {:induction false} NothingLeft(sources: seq<nat>, entry: nat)
    ensures Skipped(sources, [], entry) == [] && TurnedSoFar(Left(sources, [], entry), [], true, 0)
  {}

  lemma {:induction false} NoneBefore(entries: seq<nat>, a: nat)
    ensures FitBefore(entries, a, 0) && RunBefore(entries, a, 0) == 0 && Others(entries, a, 0) == 0
  {}

  lemma {:induction false} LeftIs(sources: seq<nat>, r: seq<nat>, entry: nat, q: nat)
    requires InTable(sources, r) && Ascends(r) && q <= |r|
    ensures InTable(sources, r[..q])
    ensures var e, s := EntriesOf(sources, r), Skipped(sources, r[..q], entry);
            |s| == Others(e, entry, q) &&
            TurnedSoFar(Left(sources, r[..q], entry), s, FitBefore(e, entry, q), RunBefore(e, entry, q))
    decreases q
  {
    NothingLeft(sources, entry);
    hide Left, Taken, Skipped, FitBefore, NeverAscends, TurnedSoFar, TurnedBy, Others, RunBefore, EntriesOf, Turned, Ascends, Whole;
    if q == 0 {
      NoneBefore(EntriesOf(sources, r), entry);
      assert r[..q] == [];
    } else {
      var e, r', x := EntriesOf(sources, r), r[..q - 1], r[q - 1];
      AscendsBefore(r, q - 1);
      LeftIs(sources, r, entry, q - 1);
      assert e[q - 1] == sources[x];
      TakenOn(sources, r', x, entry);
      SkippedOn(sources, r', x, entry);
      assert r[..q] == r' + [x];
      var l, s := Left(sources, r', entry), Skipped(sources, r', entry);
      FitOn(e, entry, q - 1);
      if e[q - 1] == entry {
        TurnedByOwn(l, s, FitBefore(e, entry, q - 1), RunBefore(e, entry, q - 1));
      } else {
        SkippedAscends(sources, r', entry);
        LeftBelow(sources, r', entry, x);
        TurnedByOther(l, s, FitBefore(e, entry, q - 1), RunBefore(e, entry, q - 1), x);
      }
    }
  }

  lemma {:induction false} AscendsBefore(s: seq<nat>, q: nat)
    requires Ascends(s) && q < |s|
    ensures Ascends(s[..q]) && forall k :: 0 <= k < q ==> s[..q][k] < s[q]
  {}

  lemma {:induction false} FitOn(entries: seq<nat>, a: nat, q: nat)
    requires q < |entries|
    ensures FitBefore(entries, a, q + 1) <==>
            FitBefore(entries, a, q) && (entries[q] != a ==> Whole(Others(entries, a, q), RunBefore(entries, a, q)))
    ensures Others(entries, a, q + 1) == Others(entries, a, q) + if entries[q] == a then 0 else 1
    ensures RunBefore(entries, a, q + 1) == if entries[q] == a then RunBefore(entries, a, q) + 1 else 0
  {}

  lemma {:induction false} LeftBelow(sources: seq<nat>, r: seq<nat>, entry: nat, x: nat)
    requires InTable(sources, r) && forall k :: 0 <= k < |r| ==> r[k] < x
    ensures forall k :: 0 <= k < |Left(sources, r, entry)| ==> Left(sources, r, entry)[k] < x
  {
    LeftMembers(sources, r, entry);
    forall k | 0 <= k < |Left(sources, r, entry)| ensures Left(sources, r, entry)[k] < x {
      assert Left(sources, r, entry)[k] in r;
    }
  }

  /** The other sends keep their order exactly when the runs of the group's own sends fit. */
  lemma {:induction false} LeftAscends(sources: seq<nat>, r: seq<nat>, entry: nat)
    requires InTable(sources, r) && Ascends(r)
    ensures Ascends(Left(sources, r, entry)) <==> RunsFit(EntriesOf(sources, r), entry)
    ensures RunsFit(EntriesOf(sources, r), entry) ==> Left(sources, r, entry) == Skipped(sources, r, entry)
  {
    assert r[..|r|] == r;
    LeftIs(sources, r, entry, |r|);
    SkippedAscends(sources, r, entry);
    var e := EntriesOf(sources, r);
    if FitBefore(e, entry, |r|) {
      TurnedAscends(Skipped(sources, r, entry), RunBefore(e, entry, |r|));
    } else {
      StillNever(Left(sources, r, entry));
    }
  }

  /** The entries that are not `a`. */
  function Rest(entries: seq<nat>, a: nat): (r: seq<nat>)
    ensures |r| <= |entries| && (a in entries ==> |r| < |entries|)
  {
    if entries == [] then []
    else
      var last, r := entries[|entries| - 1], Rest(entries[..|entries| - 1], a);
      assert entries == entries[..|entries| - 1] + [last];
      if last == a then r else r + [last]
  }

  /** The runs fit at each socket's turn. */
  predicate Fits(entries: seq<nat>)
    decreases |entries|
  {
    entries == [] || (RunsFit(entries, entries[0]) && Fits(Rest(entries, entries[0])))
  }

  lemma {:induction false} EntriesOfSkipped(sources: seq<nat>, r: seq<nat>, entry: nat)
    requires InTable(sources, r)
    ensures EntriesOf(sources, Skipped(sources, r, entry)) == Rest(EntriesOf(sources, r), entry)
  {
    if r != [] {
      var r' := r[..|r| - 1];
      EntriesOfSkipped(sources, r', entry);
      assert EntriesOf(sources, r)[..|r| - 1] == EntriesOf(sources, r');
    }
  }

  /** With any number of sockets: when the runs fit, every group keeps the order of its sends. */
  lemma {:induction false} FittingKeepsOrder(sources: seq<nat>, r: seq<nat>)
    requires InTable(sources, r) && Ascends(r) && Fits(EntriesOf(sources, r))
    ensures KeepOrder(Groups(sources, r))
    decreases |r|
  {
    if r != [] {
      var entry := sources[r[0]];
      FirstIsTaken(sources, r);
      LeftAscends(sources, r, entry);
      SkippedAscends(sources, r, entry);
      EntriesOfSkipped(sources, r, entry);
      FittingKeepsOrder(sources, Left(sources, r, entry));
      KeepOrderOn(Group(entry, Taken(sources, r, entry)), Groups(sources, Left(sources, r, entry)));
    }
  }

  lemma {:induction false} KeepOrderOn(g: Group, groups: seq<Group>)
    ensures KeepOrder([g] + groups) <==> Ascends(g.members) && KeepOrder(groups)
  {
    var gs := [g] + groups;
    if KeepOrder(gs) {
      forall k | 0 <= k < |groups| ensures Ascends(groups[k].members) { assert gs[k + 1] == groups[k]; }
      assert gs[0] == g;
    }
  }

  lemma {:induction false} OneSocket(sources: seq<nat>, r: seq<nat>, entry: nat)
    requires InTable(sources, r) && forall k :: 0 <= k < |r| ==> sources[r[k]] == entry
    ensures Taken(sources, r, entry) == r && Left(sources, r, entry) == []
    ensures Groups(sources, r) == if r == [] then [] else [Group(entry, r)]
  {
    if r != [] {
      OneSocket(sources, r[..|r| - 1], entry);
      assert r == r[..|r| - 1] + [r[|r| - 1]];
    }
  }

  /** With two sockets every group keeps the order of its sends exactly when each maximal run of
      sends of the first one is a multiple, in length, of the sends of the other before it. */
  lemma {:induction false} TwoSocketsExactly(sources: seq<nat>, other: nat)
    requires sources != [] && forall m :: 0 <= m < |sources| ==> sources[m] == sources[0] || sources[m] == other
    ensures KeepOrder(Groups(sources, UpTo(|sources|))) <==> RunsFit(sources, sources[0])
  {
    hide Taken, Left, Groups, RunsFit, KeepOrder, Skipped;
    var r, entry := UpTo(|sources|), sources[0];
    GroupsOn(sources, r);
    assert EntriesOf(sources, r) == sources;
    var t, l := Taken(sources, r, entry), Left(sources, r, entry);
    LeftMembers(sources, r, entry);
    forall k | 0 <= k < |l| ensures sources[l[k]] == other { assert l[k] in l; }
    OneSocket(sources, l, other);
    LeftAscends(sources, r, entry);
    SkippedAscends(sources, r, entry);
    KeepOrderOn(Group(entry, t), Groups(sources, l));
    if l != [] {
      KeepOrderOn(Group(other, l), []);
      assert [Group(other, l)] + [] == [Group(other, l)];
    }
    NoGroups();
  }

  lemma {:induction false} NoGroups()
    ensures KeepOrder([]) && Ascends([])
  {}

  /** The sends of each socket stand together. */
  ghost predicate Contiguous(entries: seq<nat>) {
    forall i, j, k :: 0 <= i < j < k < |entries| && entries[i] == entries[k] ==> entries[j] == entries[i]
  }

  lemma {:induction false} RestBehind(entries: seq<nat>, a: nat, n: nat)
    requires n <= |entries| && (forall k :: 0 <= k < n ==> entries[k] == a) && forall k :: n <= k < |entries| ==> entries[k] != a
    ensures Rest(entries, a) == entries[n..]
  {
    if entries != [] {
      var init := entries[..|entries| - 1];
      if n == |entries| {
        RestBehind(init, a, n - 1);
      } else {
        RestBehind(init, a, n);
        assert init[n..] + [entries[|entries| - 1]] == entries[n..];
      }
    }
  }

  lemma {:induction false} OthersSince(entries: seq<nat>, a: nat, q: nat)
    requires q <= |entries| && Others(entries, a, q) > 0
    ensures exists p :: 0 <= p < q && entries[p] != a
  {
    if entries[q - 1] == a {
      OthersSince(entries, a, q - 1);
    } else {
      assert entries[q - 1] != a;
    }
  }

  /** Sends that stand together fit. */
  lemma {:induction false} ContiguousFits(entries: seq<nat>)
    requires Contiguous(entries)
    ensures Fits(entries)
    decreases |entries|
  {
    if entries != [] {
      var a := entries[0];
      RunsFitAt(entries, a);
      var n := OwnRun(entries, a);
      FirstBehind(entries, a, n);
      RestBehind(entries, a, n);
      ContiguousFits(entries[n..]);
    }
  }

  lemma {:induction false} FirstBehind(entries: seq<nat>, a: nat, n: nat)
    requires Contiguous(entries) && 0 < n <= |entries| && entries[0] == a && (n < |entries| ==> entries[n] != a)
    ensures forall k :: n <= k < |entries| ==> entries[k] != a
    ensures Contiguous(entries[n..])
  {}

  lemma {:induction false} RunsFitAt(entries: seq<nat>, a: nat)
    requires Contiguous(entries) && entries != [] && entries[0] == a
    ensures RunsFit(entries, a)
  {
    forall q | 0 <= q <= |entries| ensures Whole(Others(entries, a, q), RunBefore(entries, a, q)) {
      if Others(entries, a, q) > 0 {
        OthersSince(entries, a, q);
        var p :| 0 <= p < q && entries[p] != a;
        assert q - 1 > p ==> entries[q - 1] != a;
      }
    }
  }

  /** How many entries in front are `a`. */
  ghost function OwnRun(entries: seq<nat>, a: nat): (n: nat)
    ensures n <= |entries| && (forall k :: 0 <= k < n ==> entries[k] == a) && (n < |entries| ==> entries[n] != a)
  {
    if entries == [] || entries[0] != a then 0 else 1 + OwnRun(entries[1..], a)
  }

  /** Bringing the last of four sends up to the first turns the two in between around. */
  lemma {:induction false} LaterGroupTurned(sources: seq<nat>)
    requires sources == [0, 1, 1, 0]
    ensures Groups(sources, UpTo(4)) == [Group(0, [0, 3]), Group(1, [2, 1])] && !KeepOrder(Groups(sources, UpTo(4)))
  {
    var r := UpTo(4);
    assert r == [0, 1, 2, 3];
    TurnedTwo(sources, r);
    hide Taken, Left, Groups;
    GroupsOn(sources, r);
    OneSocket(sources, [2, 1], 1);
    var gs := Groups(sources, r);
    assert gs[1] == Group(1, [2, 1]);
    assert gs[1].members[0] > gs[1].members[1];
  }

  lemma {:induction false} TakenNone(sources: seq<nat>, entry: nat)
    ensures Taken(sources, [], entry) == [] && Left(sources, [], entry) == []
  {}

  lemma {:induction false} TurnedTwo(sources: seq<nat>, r: seq<nat>)
    requires sources == [0, 1, 1, 0] && r == [0, 1, 2, 3]
    ensures Taken(sources, r, 0) == [0, 3] && Left(sources, r, 0) == [2, 1]
  {
    hide Taken, Left;
    OneOwn(sources, 0, 0);
    OtherAfterOwn(sources, 0, 1, 0);
    TwoOthers(sources, 0, 1, 2, 0);
    OwnLast(sources, [0, 1, 2], 3, 0, 0, 1, 2);
    assert r == [0, 1, 2] + [3];
  }

  lemma {:induction false} OneOwn(sources: seq<nat>, a: nat, entry: nat)
    requires a < |sources| && sources[a] == entry
    ensures Taken(sources, [a], entry) == [a] && Left(sources, [a], entry) == []
  {
    TakenNone(sources, entry);
    TakenOn(sources, [], a, entry);
    assert [] + [a] == [a];
  }

  lemma {:induction false} OtherAfterOwn(sources: seq<nat>, a: nat, b: nat, entry: nat)
    requires a < |sources| && sources[a] == entry && b < |sources| && sources[b] != entry
    ensures Taken(sources, [a, b], entry) == [a] && Left(sources, [a, b], entry) == [b]
  {
    OneOwn(sources, a, entry);
    hide Taken, Left;
    TakenOn(sources, [a], b, entry);
    assert [a] + [b] == [a, b] && [] + [b] == [b] && [a] + [] == [a];
  }

  lemma {:induction false} TwoOthers(sources: seq<nat>, a: nat, b: nat, c: nat, entry: nat)
    requires a < |sources| && sources[a] == entry && b < |sources| && sources[b] != entry && c < |sources| && sources[c] != entry
    ensures Taken(sources, [a, b, c], entry) == [a] && Left(sources, [a, b, c], entry) == [b, c]
  {
    OtherAfterOwn(sources, a, b, entry);
    hide Taken, Left;
    TakenOn(sources, [a, b], c, entry);
    assert [a, b] + [c] == [a, b, c] && [b] + [c] == [b, c] && [a] + [] == [a];
  }

  lemma {:induction false} OwnLast(sources: seq<nat>, r: seq<nat>, x: nat, entry: nat, a: nat, b: nat, c: nat)
    requires InTable(sources, r) && x < |sources| && sources[x] == entry
    requires Taken(sources, r, entry) == [a] && Left(sources, r, entry) == [b, c]
    ensures Taken(sources, r + [x], entry) == [a, x] && Left(sources, r + [x], entry) == [c, b]
  {
    hide Taken, Left;
    TakenOn(sources, r, x, entry);
    assert [a] + [x] == [a, x] && Turned([b, c]) == [c, b];
  }
}
