/** The difference of two states: one tagged record per interface of either, in each family. */
module StateDiff {
  import opened IfFlags
  import opened IfStates
  import opened Options
  import opened StateModel

  /** The address octets that count for the family. */
  function Significant(e: IfState): seq<bv8> {
    if e.af == Inet then e.address[..4] else e.address
  }

  predicate HasChanged(e1: IfState, e2: IfState) {
    || e1.flags.public != e2.flags.public
    || (if e1.af == Inet then e1.address[..4] != e2.address[..4] else e1.address != e2.address)
  }

  function Classify(old_: seq<IfState>, e: IfState): Diff {
    var i := IndexOf(old_, e.ifname);
    if i < 0 then Added
    else if HasChanged(old_[i], e) then Changed
    else if old_[i].rank < e.rank then RankDown
    else if old_[i].rank > e.rank then RankUp
    else Unchanged
  }

  function Tag(e: IfState, d: Diff): IfState {
    e.(flags := e.flags.(diff := d))
  }

  function TagAll(old_: seq<IfState>, new_: seq<IfState>): seq<IfState> {
    seq(|new_|, i requires 0 <= i < |new_| => Tag(new_[i], Classify(old_, new_[i])))
  }

  /** The records of `old_` whose names `new_` no longer has. */
  function RemovedFrom(old_: seq<IfState>, new_: seq<IfState>): (r: seq<IfState>)
    ensures |r| <= |old_|
  {
    if old_ == [] then []
    else
      var e := old_[|old_| - 1];
      var r := RemovedFrom(old_[..|old_| - 1], new_);
      if IndexOf(new_, e.ifname) >= 0 then r else r + [Tag(e, Removed)]
  }

  function DiffList(old_: seq<IfState>, new_: seq<IfState>): (r: seq<IfState>)
    ensures |r| <= |old_| + |new_|
  {
    TagAll(old_, new_) + RemovedFrom(old_, new_)
  }

  lemma TagAllStep(old_: seq<IfState>, new_: seq<IfState>, i: nat)
    requires i < |new_|
    ensures TagAll(old_, new_[..i + 1]) == TagAll(old_, new_[..i]) + [Tag(new_[i], Classify(old_, new_[i]))]
  {
  }

  lemma RemovedStep(old_: seq<IfState>, new_: seq<IfState>, i: nat)
    requires i < |old_|
    ensures var r := RemovedFrom(old_[..i], new_);
            RemovedFrom(old_[..i + 1], new_) == if IndexOf(new_, old_[i].ifname) >= 0 then r else r + [Tag(old_[i], Removed)]
  {
    assert old_[..i + 1][..i] == old_[..i];
  }

  /** Part way through the removals, a name is in the difference exactly when the new list has it. */
  lemma LookupWhileRemoving(old_: seq<IfState>, new_: seq<IfState>, i: nat)
    requires UniqueNames(old_) && i < |old_|
    ensures IndexOf(TagAll(old_, new_) + RemovedFrom(old_[..i], new_), old_[i].ifname) >= 0 <==>
            IndexOf(new_, old_[i].ifname) >= 0
  {
    var t, r, name := TagAll(old_, new_), RemovedFrom(old_[..i], new_), old_[i].ifname;
    RemovedNames(old_[..i], new_);
    forall k | 0 <= k < |r| ensures r[k].ifname != name {
      assert HasName(old_[..i], r[k].ifname);
    }
    var j := IndexOf(new_, name);
    if j >= 0 { assert (t + r)[j].ifname == name; }
    else { assert !HasName(t, name); NameInConcat(t, r, name); }
  }

  /** One turn of the removal loop: append the record unless its name is there already. */
  lemma RemovalTurn(old_: seq<IfState>, new_: seq<IfState>, i: nat)
    requires UniqueNames(old_) && i < |old_|
    ensures var l := TagAll(old_, new_) + RemovedFrom(old_[..i], new_);
            TagAll(old_, new_) + RemovedFrom(old_[..i + 1], new_) ==
            if IndexOf(l, old_[i].ifname) >= 0 then l else l + [Tag(old_[i], Removed)]
  {
    LookupWhileRemoving(old_, new_, i);
    RemovedStep(old_, new_, i);
    var t, r := TagAll(old_, new_), RemovedFrom(old_[..i], new_);
    assert t + r + [Tag(old_[i], Removed)] == t + (r + [Tag(old_[i], Removed)]);
  }

  function MaxCount(s: State): nat {
    if |s.v4| >= |s.v6| then |s.v4| else |s.v6|
  }

  /** The whole difference, with room per family for the worst case. */
  function DiffState(old_: State, new_: State): State {
    State(MaxCount(old_) + MaxCount(new_), DiffList(old_.v4, new_.v4), DiffList(old_.v6, new_.v6))
  }

  // ----- what the difference says of each interface

  /** The tag of an interface, from the two lists alone. */
  function TagOf(old_: seq<IfState>, new_: seq<IfState>, name: IfName): Option<Diff> {
    var i, j := IndexOf(old_, name), IndexOf(new_, name);
    if i < 0 && j < 0 then None
    else if i < 0 then Some(Added)
    else if j < 0 then Some(Removed)
    else if HasChanged(old_[i], new_[j]) then Some(Changed)
    else if old_[i].rank < new_[j].rank then Some(RankDown)
    else if old_[i].rank > new_[j].rank then Some(RankUp)
    else Some(Unchanged)
  }

  function RecordedTag(diff: seq<IfState>, name: IfName): Option<Diff> {
    var i := IndexOf(diff, name);
    if i < 0 then None else Some(diff[i].flags.diff)
  }

  lemma {:induction false} RemovedNames(old_: seq<IfState>, new_: seq<IfState>)
    requires UniqueNames(old_)
    ensures var r := RemovedFrom(old_, new_);
            && UniqueNames(r)
            && forall k :: 0 <= k < |r| ==> HasName(old_, r[k].ifname) && !HasName(new_, r[k].ifname) && r[k].flags.diff == Removed
    ensures forall i :: 0 <= i < |old_| && !HasName(new_, old_[i].ifname) ==> HasName(RemovedFrom(old_, new_), old_[i].ifname)
  {
    if old_ != [] {
      var n := |old_| - 1;
      var init, e := old_[..n], old_[n];
      RemovedNames(init, new_);
      var q, r := RemovedFrom(init, new_), RemovedFrom(old_, new_);
      assert IndexOf(new_, e.ifname) >= 0 <==> HasName(new_, e.ifname);
      forall k | 0 <= k < |r| ensures HasName(old_, r[k].ifname) {
        if k < |q| {
          assert HasName(init, q[k].ifname);
          var x :| 0 <= x < |init| && init[x].ifname == q[k].ifname;
          assert old_[x].ifname == r[k].ifname;
        }
      }
      forall k | 0 <= k < |q| ensures q[k].ifname != e.ifname {
        assert HasName(init, q[k].ifname);
      }
      forall i | 0 <= i < |old_| && !HasName(new_, old_[i].ifname) ensures HasName(r, old_[i].ifname) {
        if i < n {
          assert init[i] == old_[i] && HasName(q, init[i].ifname);
          var x :| 0 <= x < |q| && q[x].ifname == init[i].ifname;
          assert r[x].ifname == old_[i].ifname;
        } else {
          assert r[|q|].ifname == e.ifname;
        }
      }
    }
  }

  lemma DiffUnique(old_: seq<IfState>, new_: seq<IfState>)
    requires UniqueNames(old_) && UniqueNames(new_)
    ensures UniqueNames(DiffList(old_, new_))
  {
    var t, r := TagAll(old_, new_), RemovedFrom(old_, new_);
    RemovedNames(old_, new_);
    assert forall i :: 0 <= i < |t| ==> t[i].ifname == new_[i].ifname;
    assert UniqueNames(t) && UniqueNames(r);
    forall i, k | 0 <= i < |t| && 0 <= k < |r| ensures t[i].ifname != r[k].ifname {
      assert !HasName(new_, r[k].ifname);
    }
  }

  lemma NameInConcat(t: seq<IfState>, r: seq<IfState>, name: IfName)
    requires !HasName(t, name)
    ensures IndexOf(t + r, name) == if IndexOf(r, name) < 0 then -1 else |t| + IndexOf(r, name)
  {
    var j, k := IndexOf(r, name), IndexOf(t + r, name);
    if j >= 0 { assert (t + r)[|t| + j] == r[j]; }
    if k >= 0 { assert k >= |t| && (t + r)[k] == r[k - |t|]; }
  }

  /** The difference names every interface of either list once, and tags each one correctly. */
  lemma DiffTagsAll(old_: seq<IfState>, new_: seq<IfState>, name: IfName)
    requires UniqueNames(old_) && UniqueNames(new_)
    ensures UniqueNames(DiffList(old_, new_))
    ensures RecordedTag(DiffList(old_, new_), name) == TagOf(old_, new_, name)
  {
    DiffUnique(old_, new_);
    var t, r, d := TagAll(old_, new_), RemovedFrom(old_, new_), DiffList(old_, new_);
    var j := IndexOf(new_, name);
    if j >= 0 {
      assert d[j] == t[j] == Tag(new_[j], Classify(old_, new_[j]));
      IndexOfUnique(d, j);
    } else {
      assert !HasName(t, name);
      NameInConcat(t, r, name);
      RemovedTag(old_, new_, name);
    }
  }

  /**
   The tag recorded for a name that both lists have: changed when the public flags or the address octets
   of the family differ, else by how the rank moved.
   */
  lemma CommonTag(old_: seq<IfState>, new_: seq<IfState>, i: nat, j: nat)
    requires UniqueNames(old_) && UniqueNames(new_) && i < |old_| && j < |new_| && old_[i].ifname == new_[j].ifname
    ensures var a, b := old_[i], new_[j];
            RecordedTag(DiffList(old_, new_), b.ifname) == Some(
              if a.flags.public != b.flags.public then Changed
              else if a.af == Inet && a.address[..4] != b.address[..4] then Changed
              else if a.af == Inet6 && a.address != b.address then Changed
              else if a.rank < b.rank then RankDown
              else if a.rank > b.rank then RankUp
              else Unchanged)
  {
    DiffTagsAll(old_, new_, new_[j].ifname);
    IndexOfUnique(old_, i);
    IndexOfUnique(new_, j);
  }

  /** The tag recorded for any other name: there is one exactly when one of the lists has the name. */
  lemma LoneTag(old_: seq<IfState>, new_: seq<IfState>, name: IfName)
    requires UniqueNames(old_) && UniqueNames(new_) && !(HasName(old_, name) && HasName(new_, name))
    ensures RecordedTag(DiffList(old_, new_), name) ==
            if HasName(new_, name) then Some(Added) else if HasName(old_, name) then Some(Removed) else None
  {
    DiffTagsAll(old_, new_, name);
    assert IndexOf(old_, name) >= 0 <==> HasName(old_, name);
    assert IndexOf(new_, name) >= 0 <==> HasName(new_, name);
  }

  lemma RemovedTag(old_: seq<IfState>, new_: seq<IfState>, name: IfName)
    requires UniqueNames(old_) && IndexOf(new_, name) < 0
    ensures RecordedTag(RemovedFrom(old_, new_), name) == if IndexOf(old_, name) < 0 then None else Some(Removed)
  {
    RemovedNames(old_, new_);
    var i, k := IndexOf(old_, name), IndexOf(RemovedFrom(old_, new_), name);
    if i >= 0 { assert HasName(RemovedFrom(old_, new_), old_[i].ifname); }
    if k >= 0 { assert HasName(old_, RemovedFrom(old_, new_)[k].ifname); }
  }

  function Dual(d: Diff): Diff {
    match d
    case Added => Removed
    case Removed => Added
    case RankUp => RankDown
    case RankDown => RankUp
    case _ => d
  }

  ghost predicate OneFamily(l: seq<IfState>, af: Af) {
    forall i :: 0 <= i < |l| ==> l[i].af == af
  }

  /** Swapping the arguments turns additions into removals and rises into falls; nothing else changes. */
  lemma DiffDual(old_: seq<IfState>, new_: seq<IfState>, af: Af, name: IfName)
    requires UniqueNames(old_) && UniqueNames(new_) && OneFamily(old_, af) && OneFamily(new_, af)
    ensures var there, back := RecordedTag(DiffList(old_, new_), name), RecordedTag(DiffList(new_, old_), name);
            if there.None? then back.None? else back == Some(Dual(there.value))
  {
    DiffTagsAll(old_, new_, name);
    DiffTagsAll(new_, old_, name);
    TagDual(old_, new_, af, name);
  }

  lemma TagDual(old_: seq<IfState>, new_: seq<IfState>, af: Af, name: IfName)
    requires OneFamily(old_, af) && OneFamily(new_, af)
    ensures var there, back := TagOf(old_, new_, name), TagOf(new_, old_, name);
            if there.None? then back.None? else back == Some(Dual(there.value))
  {
    var i, j := IndexOf(old_, name), IndexOf(new_, name);
    if i >= 0 && j >= 0 {
      assert HasChanged(old_[i], new_[j]) <==> HasChanged(new_[j], old_[i]);
    }
  }

  datatype Facts = Facts(public: bv8, address: seq<bv8>, rank: Rank)

  /** What the difference compares about an interface. */
  function FactsOf(l: seq<IfState>, name: IfName): Option<Facts> {
    var i := IndexOf(l, name);
    if i < 0 then None else Some(Facts(l[i].flags.public, Significant(l[i]), l[i].rank))
  }

  /** A name is tagged as anything but unchanged exactly when the two lists say different things of it. */
  lemma MarkedIffFactsDiffer(old_: seq<IfState>, new_: seq<IfState>, af: Af, name: IfName)
    requires UniqueNames(old_) && UniqueNames(new_) && OneFamily(old_, af) && OneFamily(new_, af)
    ensures RecordedTag(DiffList(old_, new_), name) !in {None, Some(Unchanged)} <==> FactsOf(old_, name) != FactsOf(new_, name)
  {
    DiffTagsAll(old_, new_, name);
  }

  ghost predicate AllUnchanged(diff: seq<IfState>) {
    forall i :: 0 <= i < |diff| ==> diff[i].flags.diff == Unchanged
  }

  /** Every record is unchanged exactly when both lists say the same of every interface. */
  lemma UnchangedIffSameFacts(old_: seq<IfState>, new_: seq<IfState>, af: Af)
    requires UniqueNames(old_) && UniqueNames(new_) && OneFamily(old_, af) && OneFamily(new_, af)
    ensures AllUnchanged(DiffList(old_, new_)) <==> forall name :: FactsOf(old_, name) == FactsOf(new_, name)
  {
    var d := DiffList(old_, new_);
    if AllUnchanged(d) {
      forall name ensures FactsOf(old_, name) == FactsOf(new_, name) {
        DiffTagsAll(old_, new_, name);
      }
    }
    if forall name :: FactsOf(old_, name) == FactsOf(new_, name) {
      forall i | 0 <= i < |d| ensures d[i].flags.diff == Unchanged {
        DiffTagsAll(old_, new_, d[i].ifname);
        IndexOfUnique(d, i);
        assert FactsOf(old_, d[i].ifname) == FactsOf(new_, d[i].ifname);
      }
    }
  }

  /** Where the records lie in `old_` whose names `new_` no longer has. */
  function Gone(old_: seq<IfState>, new_: seq<IfState>): seq<nat> {
    if old_ == [] then []
    else
      var n := |old_| - 1;
      var g := Gone(old_[..n], new_);
      if IndexOf(new_, old_[n].ifname) >= 0 then g else g + [n]
  }

  /** They are in order, and just those. */
  lemma {:induction false} GoneInOrder(old_: seq<IfState>, new_: seq<IfState>)
    ensures var g := Gone(old_, new_);
            && (forall i :: 0 <= i < |g| ==> g[i] < |old_|)
            && (forall i, j :: 0 <= i < j < |g| ==> g[i] < g[j])
            && forall k :: 0 <= k < |old_| ==> (k in g <==> !HasName(new_, old_[k].ifname))
  {
    if old_ != [] {
      var n := |old_| - 1;
      GoneInOrder(old_[..n], new_);
      var g, g' := Gone(old_[..n], new_), Gone(old_, new_);
      assert n !in g;
      forall k | 0 <= k < |old_| ensures k in g' <==> !HasName(new_, old_[k].ifname) {
        if k < n { assert old_[..n][k] == old_[k] && (k in g <==> !HasName(new_, old_[..n][k].ifname)); }
        else { assert HasName(new_, old_[n].ifname) <==> IndexOf(new_, old_[n].ifname) >= 0; }
      }
    }
  }

  lemma {:induction false} RemovedAreGone(old_: seq<IfState>, new_: seq<IfState>)
    ensures var r, g := RemovedFrom(old_, new_), Gone(old_, new_);
            |r| == |g| && forall i :: 0 <= i < |g| ==> g[i] < |old_| && r[i] == Tag(old_[g[i]], Removed)
  {
    if old_ != [] { RemovedAreGone(old_[..|old_| - 1], new_); }
  }

  /**
   The order of the result: the new records as they were, then exactly the old ones whose names are
   gone, tagged as removed, in their old order.
   */
  lemma DiffOrder(old_: seq<IfState>, new_: seq<IfState>)
    ensures var d, g := DiffList(old_, new_), Gone(old_, new_);
            && |d| == |new_| + |g|
            && (forall i :: 0 <= i < |new_| ==> d[i] == new_[i].(flags := new_[i].flags.(diff := d[i].flags.diff)))
            && (forall i :: 0 <= i < |g| ==> g[i] < |old_| && d[|new_| + i] == old_[g[i]].(flags := old_[g[i]].flags.(diff := Removed)))
            && (forall i, j :: 0 <= i < j < |g| ==> g[i] < g[j])
            && forall k :: 0 <= k < |old_| ==> (k in g <==> !HasName(new_, old_[k].ifname))
  {
    GoneInOrder(old_, new_);
    RemovedAreGone(old_, new_);
  }

  /** The difference has room for the larger family of each state, which both of its families fit. */
  lemma DiffFits(old_: State, new_: State)
    ensures DiffState(old_, new_).max
            == (if |old_.v4| < |old_.v6| then |old_.v6| else |old_.v4|) + (if |new_.v4| < |new_.v6| then |new_.v6| else |new_.v4|)
    ensures |DiffState(old_, new_).v4| <= DiffState(old_, new_).max
    ensures |DiffState(old_, new_).v6| <= DiffState(old_, new_).max
  {
  }
}
