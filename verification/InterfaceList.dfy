/**
 The interface list of a state: which interfaces it names, and in which order.
 A list is a sequence of positions in the block, as `if_list` stores them.
 */
module InterfaceList {
  import opened IfFlags
  import opened IfStates
  import opened StateModel
  import opened StateRuns

  predicate Listed(s: State, acc: seq<int>, name: IfName) {
    acc != [] && (At(s, acc[|acc| - 1]).ifname == name || Listed(s, acc[..|acc| - 1], name))
  }

  /** A name is listed exactly when some entry has it. */
  lemma {:induction false} ListedMeans(s: State, acc: seq<int>, name: IfName)
    ensures Listed(s, acc, name) <==> exists k :: 0 <= k < |acc| && At(s, acc[k]).ifname == name
  {
    if acc != [] {
      var n := |acc| - 1;
      ListedMeans(s, acc[..n], name);
      if Listed(s, acc[..n], name) {
        var k :| 0 <= k < n && At(s, acc[..n][k]).ifname == name;
        assert At(s, acc[k]).ifname == name;
      }
      if k :| 0 <= k < |acc| && At(s, acc[k]).ifname == name {
        if k < n { assert acc[..n][k] == acc[k]; }
      }
    }
  }

  // ----- what the two-pointer loop computes

  function MergeFrom(s: State, i: nat, j: nat): seq<int>
    requires i <= |s.v4| && j <= |s.v6|
    decreases |s.v4| - i + |s.v6| - j
  {
    if i < |s.v4| && (j == |s.v6| || s.v4[i].rank <= s.v6[j].rank) then [i] + MergeFrom(s, i + 1, j)
    else if j < |s.v6| then [s.max + j] + MergeFrom(s, i, j + 1)
    else []
  }

  function AddOne(s: State, acc: seq<int>, p: int): seq<int> {
    if NotInIfList(At(s, p).flags) || |acc| >= s.max || Listed(s, acc, At(s, p).ifname) then acc
    else acc + [p]
  }

  function Collect(s: State, acc: seq<int>, m: seq<int>): seq<int>
    decreases |m|
  {
    if m == [] then acc else Collect(s, AddOne(s, acc, m[0]), m[1..])
  }

  /** The list that collecting the rest of the merge onto `acc` will give. */
  function Remaining(s: State, i: nat, j: nat, acc: seq<int>): seq<int>
    requires i <= |s.v4| && j <= |s.v6|
  {
    Collect(s, acc, MergeFrom(s, i, j))
  }

  function IfList(s: State): seq<int> {
    Remaining(s, 0, 0, [])
  }

  /** The next IPv4 record goes before the next IPv6 record. */
  predicate V4Next(s: State, i: nat, j: nat)
    requires i <= |s.v4| && j <= |s.v6|
  {
    i < |s.v4| && (j == |s.v6| || s.v4[i].rank <= s.v6[j].rank)
  }

  function AddNext(s: State, acc: seq<int>, i: nat, j: nat): seq<int>
    requires i <= |s.v4| && j <= |s.v6|
  {
    AddOne(s, acc, if V4Next(s, i, j) then i else s.max + j)
  }

  /** Taking the next record leaves what the loop will end with as it was. */
  lemma Taken(s: State, i: nat, j: nat, acc: seq<int>, acc': seq<int>)
    requires i <= |s.v4| && j <= |s.v6| && (i < |s.v4| || j < |s.v6|)
    requires acc' == AddNext(s, acc, i, j)
    ensures Remaining(s, i, j, acc) ==
            if V4Next(s, i, j) then Remaining(s, i + 1, j, acc') else Remaining(s, i, j + 1, acc')
  {
    var p, rest := if V4Next(s, i, j) then i else s.max + j, if V4Next(s, i, j) then MergeFrom(s, i + 1, j) else MergeFrom(s, i, j + 1);
    assert MergeFrom(s, i, j) == [p] + rest;
    assert ([p] + rest)[1..] == rest;
  }

  lemma NothingLeft(s: State, acc: seq<int>)
    ensures Remaining(s, |s.v4|, |s.v6|, acc) == acc
  {
  }

  // ----- a reference: filter, keep the first of each name, cut at the capacity

  function Eligible(s: State, m: seq<int>): seq<int> {
    if m == [] then []
    else if NotInIfList(At(s, m[0]).flags) then Eligible(s, m[1..])
    else [m[0]] + Eligible(s, m[1..])
  }

  /** The positions whose names are not those of `acc`. */
  function Unlisted(s: State, m: seq<int>, acc: seq<int>): (r: seq<int>)
    ensures |r| <= |m|
    decreases |m|
  {
    if m == [] then []
    else if Listed(s, acc, At(s, m[0]).ifname) then Unlisted(s, m[1..], acc)
    else [m[0]] + Unlisted(s, m[1..], acc)
  }

  function FirstOfEachName(s: State, m: seq<int>): seq<int>
    decreases |m|
  {
    if m == [] then [] else [m[0]] + FirstOfEachName(s, Unlisted(s, m[1..], [m[0]]))
  }

  function Take(n: nat, m: seq<int>): seq<int> {
    if |m| <= n then m else m[..n]
  }

  lemma ListedAppend(s: State, acc: seq<int>, p: int, name: IfName)
    ensures Listed(s, acc + [p], name) <==> Listed(s, acc, name) || At(s, p).ifname == name
    ensures Listed(s, [p], name) <==> At(s, p).ifname == name
  {
    assert (acc + [p])[..|acc|] == acc && (acc + [p])[|acc|] == p;
    assert [p][..0] == [];
  }

  lemma {:induction false} UnlistedTwice(s: State, m: seq<int>, acc: seq<int>, p: int)
    ensures Unlisted(s, Unlisted(s, m, acc), [p]) == Unlisted(s, m, acc + [p])
    decreases |m|
  {
    if m != [] {
      UnlistedTwice(s, m[1..], acc, p);
      ListedAppend(s, acc, p, At(s, m[0]).ifname);
      var rest := Unlisted(s, m[1..], acc);
      assert ([m[0]] + rest)[1..] == rest;
    }
  }

  lemma {:induction false} UnlistedNone(s: State, m: seq<int>)
    ensures Unlisted(s, m, []) == m
  {
    if m != [] { UnlistedNone(s, m[1..]); }
  }

  lemma {:induction false} CollectIsFirstOfEach(s: State, acc: seq<int>, m: seq<int>)
    requires |acc| <= s.max
    ensures Collect(s, acc, m) == Take(s.max, acc + FirstOfEachName(s, Unlisted(s, Eligible(s, m), acc)))
    decreases |m|
  {
    if m == [] {
      assert acc + [] == acc;
    } else {
      var p, rest := m[0], Eligible(s, m[1..]);
      CollectIsFirstOfEach(s, AddOne(s, acc, p), m[1..]);
      if !NotInIfList(At(s, p).flags) {
        assert ([p] + rest)[1..] == rest;
        if !Listed(s, acc, At(s, p).ifname) && |acc| < s.max { AcceptedIsFirst(s, acc, p, rest); }
      }
    }
  }

  lemma AcceptedIsFirst(s: State, acc: seq<int>, p: int, rest: seq<int>)
    requires !Listed(s, acc, At(s, p).ifname)
    ensures acc + FirstOfEachName(s, Unlisted(s, [p] + rest, acc)) ==
            (acc + [p]) + FirstOfEachName(s, Unlisted(s, rest, acc + [p]))
  {
    var u := Unlisted(s, rest, acc);
    assert ([p] + rest)[1..] == rest;
    assert Unlisted(s, [p] + rest, acc) == [p] + u;
    assert ([p] + u)[1..] == u;
    UnlistedTwice(s, rest, acc, p);
  }

  /** The list is the first `max` of: merge by rank, drop the ineligible, keep the first of each name. */
  lemma IfListIsReference(s: State)
    ensures IfList(s) == Take(s.max, FirstOfEachName(s, Eligible(s, MergeFrom(s, 0, 0))))
  {
    var m := Eligible(s, MergeFrom(s, 0, 0));
    CollectIsFirstOfEach(s, [], MergeFrom(s, 0, 0));
    UnlistedNone(s, m);
    assert [] + FirstOfEachName(s, m) == FirstOfEachName(s, m);
  }

  // ----- what the list means when both families are sorted by rank

  ghost predicate AllLive(s: State, m: seq<int>) {
    forall k :: 0 <= k < |m| ==> Live(s, m[k])
  }

  /** Better rank first; on equal ranks IPv4 before IPv6, and earlier before later in a family. */
  predicate Before(s: State, p: int, q: int) {
    At(s, p).rank < At(s, q).rank || (At(s, p).rank == At(s, q).rank && p < q)
  }

  ghost predicate InOrder(s: State, m: seq<int>) {
    forall a, b :: 0 <= a < b < |m| ==> Before(s, m[a], m[b])
  }

  ghost predicate Sorted(s: State) {
    |s.v4| <= s.max && RankSorted(s.v4) && RankSorted(s.v6)
  }

  ghost predicate AtLeast(s: State, p: int, i: nat, j: nat) {
    i <= p < |s.v4| || s.max + j <= p < s.max + |s.v6|
  }

  lemma {:induction false} MergeInOrder(s: State, i: nat, j: nat)
    requires Sorted(s) && i <= |s.v4| && j <= |s.v6|
    ensures forall k :: 0 <= k < |MergeFrom(s, i, j)| ==> AtLeast(s, MergeFrom(s, i, j)[k], i, j)
    ensures InOrder(s, MergeFrom(s, i, j))
    decreases |s.v4| - i + |s.v6| - j
  {
    var m := MergeFrom(s, i, j);
    if i < |s.v4| && (j == |s.v6| || s.v4[i].rank <= s.v6[j].rank) {
      MergeInOrder(s, i + 1, j);
      forall b | 1 <= b < |m| ensures Before(s, m[0], m[b]) {
        assert AtLeast(s, m[1..][b - 1], i + 1, j);
      }
    } else if j < |s.v6| {
      MergeInOrder(s, i, j + 1);
      forall b | 1 <= b < |m| ensures Before(s, m[0], m[b]) {
        assert AtLeast(s, m[1..][b - 1], i, j + 1);
      }
    }
    if m != [] {
      forall a, b | 1 <= a < b < |m| ensures Before(s, m[a], m[b]) {
        assert m[1..][a - 1] == m[a] && m[1..][b - 1] == m[b];
      }
    }
  }

  lemma {:induction false} MergeComplete(s: State, i: nat, j: nat, p: int)
    requires i <= |s.v4| && j <= |s.v6| && AtLeast(s, p, i, j)
    ensures p in MergeFrom(s, i, j)
    decreases |s.v4| - i + |s.v6| - j
  {
    if i < |s.v4| && (j == |s.v6| || s.v4[i].rank <= s.v6[j].rank) {
      if p != i { MergeComplete(s, i + 1, j, p); }
    } else if j < |s.v6| {
      if p != s.max + j { MergeComplete(s, i, j + 1, p); }
    }
  }

  /** The entry of index k speaks for p: same interface, at least as good. */
  predicate SpeaksFor(s: State, q: int, p: int) {
    At(s, q).ifname == At(s, p).ifname && (q == p || Before(s, q, p))
  }

  /** p is represented by an entry of its name at least as good, or the list is full of better ones. */
  ghost predicate Covered(s: State, acc: seq<int>, p: int) {
    || (exists k :: 0 <= k < |acc| && SpeaksFor(s, acc[k], p))
    || (|acc| == s.max && forall k :: 0 <= k < |acc| ==> Before(s, acc[k], p))
  }

  ghost predicate DistinctNames(s: State, acc: seq<int>) {
    forall a, b :: 0 <= a < b < |acc| ==> At(s, acc[a]).ifname != At(s, acc[b]).ifname
  }

  ghost predicate BestFirst(s: State, acc: seq<int>, seen: seq<int>) {
    && |acc| <= s.max
    && InOrder(s, acc) && DistinctNames(s, acc)
    && (forall k :: 0 <= k < |acc| ==> acc[k] in seen && !NotInIfList(At(s, acc[k]).flags))
    && (forall k :: 0 <= k < |seen| && !NotInIfList(At(s, seen[k]).flags) ==> Covered(s, acc, seen[k]))
  }

  lemma AddOneBestFirst(s: State, acc: seq<int>, seen: seq<int>, p: int)
    requires BestFirst(s, acc, seen)
    requires forall k :: 0 <= k < |seen| ==> Before(s, seen[k], p)
    ensures BestFirst(s, AddOne(s, acc, p), seen + [p])
  {
    forall k | 0 <= k < |acc| ensures Before(s, acc[k], p) && acc[k] in seen + [p] {
      assert acc[k] in seen;
      var x :| 0 <= x < |seen| && seen[x] == acc[k];
      assert (seen + [p])[x] == acc[k] && Before(s, seen[x], p);
    }
    if AddOne(s, acc, p) == acc {
      RefusedBestFirst(s, acc, seen, p);
    } else {
      AcceptedBestFirst(s, acc, seen, p);
    }
  }

  lemma RefusedBestFirst(s: State, acc: seq<int>, seen: seq<int>, p: int)
    requires BestFirst(s, acc, seen) && AddOne(s, acc, p) == acc
    requires forall k :: 0 <= k < |acc| ==> Before(s, acc[k], p) && acc[k] in seen + [p]
    ensures BestFirst(s, acc, seen + [p])
  {
    if !NotInIfList(At(s, p).flags) && |acc| < s.max {
      assert |acc + [p]| != |acc|;
      ListedMeans(s, acc, At(s, p).ifname);
      var k :| 0 <= k < |acc| && At(s, acc[k]).ifname == At(s, p).ifname;
      assert SpeaksFor(s, acc[k], p);
    }
  }

  lemma AcceptedBestFirst(s: State, acc: seq<int>, seen: seq<int>, p: int)
    requires BestFirst(s, acc, seen) && |acc| < s.max && !Listed(s, acc, At(s, p).ifname) && !NotInIfList(At(s, p).flags)
    requires forall k :: 0 <= k < |acc| ==> Before(s, acc[k], p) && acc[k] in seen + [p]
    ensures BestFirst(s, acc + [p], seen + [p])
  {
    AcceptedInOrder(s, acc, p);
    forall k | 0 <= k < |acc + [p]| ensures (acc + [p])[k] in seen + [p] && !NotInIfList(At(s, (acc + [p])[k]).flags) {
      if k == |acc| { assert (seen + [p])[|seen|] == p; } else { assert acc[k] in seen + [p]; }
    }
    forall k | 0 <= k < |seen + [p]| && !NotInIfList(At(s, (seen + [p])[k]).flags) ensures Covered(s, acc + [p], (seen + [p])[k]) {
      if k == |seen| { assert SpeaksFor(s, (acc + [p])[|acc|], p); }
      else { CoveredExtends(s, acc, p, seen[k]); }
    }
  }

  lemma AcceptedInOrder(s: State, acc: seq<int>, p: int)
    requires InOrder(s, acc) && DistinctNames(s, acc) && !Listed(s, acc, At(s, p).ifname)
    requires forall k :: 0 <= k < |acc| ==> Before(s, acc[k], p)
    ensures InOrder(s, acc + [p]) && DistinctNames(s, acc + [p])
  {
    ListedMeans(s, acc, At(s, p).ifname);
  }

  lemma CoveredExtends(s: State, acc: seq<int>, p: int, q: int)
    requires |acc| < s.max && Covered(s, acc, q)
    ensures Covered(s, acc + [p], q)
  {
    var k :| 0 <= k < |acc| && SpeaksFor(s, acc[k], q);
    assert (acc + [p])[k] == acc[k];
  }

  lemma {:induction false} CollectBestFirst(s: State, acc: seq<int>, seen: seq<int>, m: seq<int>)
    requires BestFirst(s, acc, seen) && InOrder(s, seen + m)
    ensures BestFirst(s, Collect(s, acc, m), seen + m)
    decreases |m|
  {
    if m == [] {
      assert seen + m == seen;
    } else {
      forall k | 0 <= k < |seen| ensures Before(s, seen[k], m[0]) {
        assert (seen + m)[k] == seen[k] && (seen + m)[|seen|] == m[0];
      }
      AddOneBestFirst(s, acc, seen, m[0]);
      assert seen + [m[0]] + m[1..] == seen + m;
      CollectBestFirst(s, AddOne(s, acc, m[0]), seen + [m[0]], m[1..]);
    }
  }

  /** q is a live, eligible record of the interface that p belongs to. */
  ghost predicate SameInterface(s: State, p: int, q: int) {
    Live(s, q) && !NotInIfList(At(s, q).flags) && At(s, q).ifname == At(s, p).ifname
  }

  /** An entry speaks for every eligible record of its interface. */
  lemma ListedAtBest(s: State, acc: seq<int>, k: nat, q: int)
    requires DistinctNames(s, acc) && k < |acc|
    requires SameInterface(s, acc[k], q) && Covered(s, acc, q)
    ensures SpeaksFor(s, acc[k], q)
  {
  }

  /**
   With both families sorted, the list is strictly ordered, names no interface twice, lists each
   at its best eligible record, and leaves an eligible interface out only when it is full of
   better ones.
   */
  lemma IfListBestRanks(s: State)
    requires Sorted(s)
    ensures var l := IfList(s);
            && AllLive(s, l) && |l| <= s.max && InOrder(s, l) && DistinctNames(s, l)
            && (forall k :: 0 <= k < |l| ==> !NotInIfList(At(s, l[k]).flags))
            && (forall p :: Live(s, p) && !NotInIfList(At(s, p).flags) ==> Covered(s, l, p))
            && (forall k, q :: 0 <= k < |l| && SameInterface(s, l[k], q) ==> SpeaksFor(s, l[k], q))
  {
    MergeInOrder(s, 0, 0);
    var m, l := MergeFrom(s, 0, 0), IfList(s);
    assert [] + m == m;
    CollectBestFirst(s, [], [], m);
    assert BestFirst(s, l, m);
    forall k | 0 <= k < |l| ensures Live(s, l[k]) {
      var x :| 0 <= x < |m| && m[x] == l[k];
      assert AtLeast(s, m[x], 0, 0);
    }
    forall p | Live(s, p) && !NotInIfList(At(s, p).flags) ensures Covered(s, l, p) {
      assert AtLeast(s, p, 0, 0);
      MergeComplete(s, 0, 0, p);
      var k :| 0 <= k < |m| && m[k] == p;
    }
    forall k, q | 0 <= k < |l| && SameInterface(s, l[k], q) ensures SpeaksFor(s, l[k], q) {
      ListedAtBest(s, l, k, q);
    }
  }
}
