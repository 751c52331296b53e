/**
 The value of one `nwi_state` block: the live records of both families, with their relative
 links as stored. The functions say what each operation of the block does to that value; the
 lemmas say what every run of them keeps.
 */
module StateModel {
  import opened IfFlags
  import opened IfStates
  import opened Options

  datatype State = State(max: nat, v4: seq<IfState>, v6: seq<IfState>) {

    function List(af: Af): seq<IfState> {
      if af == Inet then v4 else v6
    }

    function With(af: Af, l: seq<IfState>): State {
      if af == Inet then this.(v4 := l) else this.(v6 := l)
    }

    /** Where record i of a family lies in the block: IPv6 follows the `max` IPv4 slots. */
    function Pos(af: Af, i: int): int {
      if af == Inet then i else max + i
    }

    /** The link that record i of a family should hold: the distance to its namesake, or 0. */
    function Link(af: Af, i: nat): int
      requires i < |List(af)|
    {
      var j := IndexOf(List(OtherAf(af)), List(af)[i].ifname);
      if j < 0 then 0 else Pos(OtherAf(af), j) - Pos(af, i)
    }
  }

  /** s' is s with one list replaced. */
  predicate Replaced(s: State, s': State, af: Af, l: seq<IfState>) {
    s'.max == s.max && s'.List(af) == l && s'.List(OtherAf(af)) == s.List(OtherAf(af))
  }

  lemma ReplacedIsWith(s: State, s': State, af: Af, l: seq<IfState>)
    ensures Replaced(s, s', af, l) <==> s' == s.With(af, l)
  {
  }

  ghost predicate LastMarked(l: seq<IfState>) {
    forall i :: 0 <= i < |l| ==> (l[i].flags.last <==> i == |l| - 1)
  }

  ghost predicate RankSorted(l: seq<IfState>) {
    forall i, j :: 0 <= i < j < |l| ==> l[i].rank <= l[j].rank
  }

  /** What holds of each family on its own. */
  ghost predicate FamilyOk(s: State, af: Af) {
    var l := s.List(af);
    && |l| <= s.max
    && (forall i :: 0 <= i < |l| ==> l[i].af == af)
    && UniqueNames(l)
    && LastMarked(l)
  }

  /** Every stored link leads to the record of the same name in the other family, or is 0. */
  ghost predicate LinkedFrom(s: State, af: Af) {
    forall i :: 0 <= i < |s.List(af)| ==> s.List(af)[i].aliasOffset == s.Link(af, i)
  }

  ghost predicate Linked(s: State) {
    LinkedFrom(s, Inet) && LinkedFrom(s, Inet6)
  }

  ghost predicate FamiliesOk(s: State) {
    FamilyOk(s, Inet) && FamilyOk(s, Inet6)
  }

  // ----- adding a record

  datatype Update = Update(name: IfName, af: Af, word: bv64, rank: Rank, ifa: Option<AddressUnion>, reachFlags: bv32)

  function SetAddress(current: AddressUnion, af: Af, ifa: Option<AddressUnion>): AddressUnion {
    match ifa
    case None => current
    case Some(a) => if af == Inet then a[..4] + current[4..] else a
  }

  function Assign(e: IfState, u: Update): IfState {
    e.(address := SetAddress(e.address, u.af, u.ifa),
       reachFlags := u.reachFlags,
       rank := u.rank,
       flags := e.flags.(public := Public(u.word)))
  }

  function Unmark(l: seq<IfState>): seq<IfState> {
    if l == [] then l else l[|l| - 1 := l[|l| - 1].(flags := l[|l| - 1].flags.(last := false))]
  }

  /** Record i of a family and its namesake in the other linked to each other, if there is one. */
  function LinkUp(s: State, af: Af, i: nat): State
    requires i < |s.List(af)|
  {
    var l, o := s.List(af), s.List(OtherAf(af));
    var j := IndexOf(o, l[i].ifname);
    if j < 0 then s
    else
      var d := s.Pos(OtherAf(af), j) - s.Pos(af, i);
      s.With(af, l[i := l[i].(aliasOffset := d)]).With(OtherAf(af), o[j := o[j].(aliasOffset := -d)])
  }

  /** Both links, one after the other. */
  lemma LinkedUp(s: State, t: State, u: State, af: Af, i: nat, j: nat, d: int)
    requires i < |s.List(af)| && j == IndexOf(s.List(OtherAf(af)), s.List(af)[i].ifname)
    requires d == s.Pos(OtherAf(af), j) - s.Pos(af, i)
    requires t == s.With(af, s.List(af)[i := s.List(af)[i].(aliasOffset := d)])
    requires j < |t.List(OtherAf(af))| && u == t.With(OtherAf(af), t.List(OtherAf(af))[j := t.List(OtherAf(af))[j].(aliasOffset := -d)])
    ensures u == LinkUp(s, af, i)
  {
  }

  function MarkedBlank(name: IfName, af: Af): IfState {
    Blank(name, af).(flags := Flags(0, Unchanged, true))
  }

  /** A blank record appended, marked as the last one and linked to its namesake. */
  function AppendBlank(s: State, name: IfName, af: Af): State {
    var l := s.List(af);
    LinkUp(s.With(af, Unmark(l) + [MarkedBlank(name, af)]), af, |l|)
  }

  function AppendRecord(s: State, u: Update): State {
    var n, s' := |s.List(u.af)|, AppendBlank(s, u.name, u.af);
    s'.With(u.af, s'.List(u.af)[n := Assign(s'.List(u.af)[n], u)])
  }

  /** The new state, and the index of the record set, if any. */
  function Add(s: State, u: Update): (State, Option<nat>) {
    var l := s.List(u.af);
    var i := IndexOf(l, u.name);
    if i >= 0 then
      if l[i].rank < u.rank then (s, None)
      else (s.With(u.af, l[i := Assign(l[i], u)]), Some(i))
    else if |l| == s.max then (s, None)
    else (AppendRecord(s, u), Some(|l|))
  }

  // ----- growing and clearing

  function ShiftOne(e: IfState, delta: int): IfState {
    if e.aliasOffset == 0 then e else e.(aliasOffset := e.aliasOffset + delta)
  }

  function Shift(l: seq<IfState>, delta: int): seq<IfState> {
    seq(|l|, i requires 0 <= i < |l| => ShiftOne(l[i], delta))
  }

  function Grow(s: State, max: nat): State {
    if max <= s.max then s
    else State(max, Shift(s.v4, max - s.max), Shift(s.v6, s.max - max))
  }

  function Clear(s: State, af: Af): State {
    s.With(af, [])
  }

  // ----- one step keeps the invariants

  /** The appended record, given the index j of its namesake in the other family. */
  function NewRecord(s: State, u: Update, j: int): IfState {
    Assign(MarkedBlank(u.name, u.af), u)
      .(aliasOffset := if j < 0 then 0 else s.Pos(OtherAf(u.af), j) - s.Pos(u.af, |s.List(u.af)|))
  }

  /** What appending does, seen from both lists. */
  lemma AppendParts(s: State, u: Update)
    ensures var s' := AppendRecord(s, u);
            var l, l' := s.List(u.af), s'.List(u.af);
            && s'.max == s.max
            && l' == Unmark(l) + [NewRecord(s, u, IndexOf(s.List(OtherAf(u.af)), u.name))]
    ensures var s', other := AppendRecord(s, u), OtherAf(u.af);
            var o, o', j := s.List(other), s'.List(other), IndexOf(s.List(other), u.name);
            && |o'| == |o|
            && forall k :: 0 <= k < |o| ==>
                 o'[k] == if k == j then o[k].(aliasOffset := s.Pos(u.af, |s.List(u.af)|) - s.Pos(other, j)) else o[k]
  {
    var l := s.List(u.af);
    assert (Unmark(l) + [MarkedBlank(u.name, u.af)])[|l|] == MarkedBlank(u.name, u.af);
  }

  /** The list an append leaves: unique names, only its final record marked. */
  lemma AppendedList(l: seq<IfState>, e: IfState)
    requires UniqueNames(l) && LastMarked(l) && IndexOf(l, e.ifname) < 0 && e.flags.last
    ensures UniqueNames(Unmark(l) + [e]) && LastMarked(Unmark(l) + [e])
  {
  }

  lemma AppendKeepsFamily(s: State, u: Update)
    requires FamiliesOk(s) && |s.List(u.af)| < s.max && IndexOf(s.List(u.af), u.name) < 0
    ensures FamiliesOk(AppendRecord(s, u))
  {
    AppendParts(s, u);
    var s', other := AppendRecord(s, u), OtherAf(u.af);
    AppendedList(s.List(u.af), NewRecord(s, u, IndexOf(s.List(other), u.name)));
    assert FamilyOk(s, u.af) && FamilyOk(s, other);
    assert FamilyOk(s', u.af) by {
      var l, l' := s.List(u.af), s'.List(u.af);
      assert forall i :: 0 <= i < |l| ==> l'[i].af == l[i].af;
    }
    assert FamilyOk(s', other) by {
      var o, o' := s.List(other), s'.List(other);
      assert forall k :: 0 <= k < |o| ==> o'[k] == o[k].(aliasOffset := o'[k].aliasOffset);
    }
  }

  lemma AppendKeepsLinks(s: State, u: Update)
    requires FamiliesOk(s) && Linked(s) && IndexOf(s.List(u.af), u.name) < 0
    ensures Linked(AppendRecord(s, u))
  {
    AppendParts(s, u);
    var s', af, other := AppendRecord(s, u), u.af, OtherAf(u.af);
    assert LinkedFrom(s', af) by { AppendLinksForward(s, u); }
    assert LinkedFrom(s', other) by { AppendLinksBack(s, u); }
  }

  lemma AppendLinksForward(s: State, u: Update)
    requires LinkedFrom(s, u.af) && IndexOf(s.List(u.af), u.name) < 0
    ensures LinkedFrom(AppendRecord(s, u), u.af)
  {
    var s', af := AppendRecord(s, u), u.af;
    forall i | 0 <= i < |s'.List(af)| ensures s'.List(af)[i].aliasOffset == s'.Link(af, i) {
      AppendLinkForward(s, u, i);
    }
  }

  lemma AppendLinkForward(s: State, u: Update, i: nat)
    requires LinkedFrom(s, u.af) && i < |AppendRecord(s, u).List(u.af)|
    ensures AppendRecord(s, u).List(u.af)[i].aliasOffset == AppendRecord(s, u).Link(u.af, i)
  {
    AppendParts(s, u);
    var s', other := AppendRecord(s, u), OtherAf(u.af);
    var l, l' := s.List(u.af), s'.List(u.af);
    IndexOfNames(s.List(other), s'.List(other), l'[i].ifname);
    if i < |l| { assert l'[i].ifname == l[i].ifname && s.Link(u.af, i) == l[i].aliasOffset == l'[i].aliasOffset; }
  }

  lemma AppendLinksBack(s: State, u: Update)
    requires LinkedFrom(s, OtherAf(u.af)) && UniqueNames(s.List(OtherAf(u.af)))
    requires IndexOf(s.List(u.af), u.name) < 0
    ensures LinkedFrom(AppendRecord(s, u), OtherAf(u.af))
  {
    var s', other := AppendRecord(s, u), OtherAf(u.af);
    forall k | 0 <= k < |s'.List(other)| ensures s'.List(other)[k].aliasOffset == s'.Link(other, k) {
      AppendLinkBack(s, u, k);
    }
  }

  lemma AppendNames(l: seq<IfState>, e: IfState, name: IfName)
    ensures IndexOf(Unmark(l) + [e], name)
         == if IndexOf(l, name) >= 0 then IndexOf(l, name) else if e.ifname == name then |l| else -1
  {
    IndexOfNames(l, Unmark(l) + [e], name);
  }

  lemma AppendLinkBack(s: State, u: Update, k: nat)
    requires LinkedFrom(s, OtherAf(u.af)) && UniqueNames(s.List(OtherAf(u.af)))
    requires IndexOf(s.List(u.af), u.name) < 0 && k < |AppendRecord(s, u).List(OtherAf(u.af))|
    ensures AppendRecord(s, u).List(OtherAf(u.af))[k].aliasOffset == AppendRecord(s, u).Link(OtherAf(u.af), k)
  {
    AppendParts(s, u);
    var s', other := AppendRecord(s, u), OtherAf(u.af);
    var o, o' := s.List(other), s'.List(other);
    assert o'[k].ifname == o[k].ifname;
    AppendNames(s.List(u.af), NewRecord(s, u, IndexOf(o, u.name)), o[k].ifname);
    IndexOfUnique(o, k);
    assert s.Link(other, k) == o[k].aliasOffset;
  }

  lemma AddKeepsFamilies(s: State, u: Update)
    requires FamiliesOk(s)
    ensures FamiliesOk(Add(s, u).0)
  {
    if IndexOf(s.List(u.af), u.name) < 0 && |s.List(u.af)| < s.max {
      AppendKeepsFamily(s, u);
    }
  }

  /** Changing records in place, names and links apart, keeps the links. */
  lemma SameNamesSameLinks(s: State, s': State)
    requires s'.max == s.max && |s'.v4| == |s.v4| && |s'.v6| == |s.v6|
    requires forall i :: 0 <= i < |s.v4| ==> s'.v4[i].ifname == s.v4[i].ifname && s'.v4[i].aliasOffset == s.v4[i].aliasOffset
    requires forall i :: 0 <= i < |s.v6| ==> s'.v6[i].ifname == s.v6[i].ifname && s'.v6[i].aliasOffset == s.v6[i].aliasOffset
    requires Linked(s)
    ensures Linked(s')
  {
    forall i | 0 <= i < |s.v4| ensures s'.v4[i].aliasOffset == s'.Link(Inet, i) {
      IndexOfNames(s.v6, s'.v6, s.v4[i].ifname);
      assert s.List(Inet)[i].aliasOffset == s.Link(Inet, i);
    }
    forall i | 0 <= i < |s.v6| ensures s'.v6[i].aliasOffset == s'.Link(Inet6, i) {
      IndexOfNames(s.v4, s'.v4, s.v6[i].ifname);
      assert s.List(Inet6)[i].aliasOffset == s.Link(Inet6, i);
    }
  }

  lemma AddKeepsLinks(s: State, u: Update)
    requires FamiliesOk(s) && Linked(s)
    ensures Linked(Add(s, u).0)
  {
    if IndexOf(s.List(u.af), u.name) >= 0 {
      SameNamesSameLinks(s, Add(s, u).0);
    } else if |s.List(u.af)| < s.max {
      AppendKeepsLinks(s, u);
    }
  }

  lemma GrowKeepsFamilies(s: State, max: nat)
    requires FamiliesOk(s)
    ensures FamiliesOk(Grow(s, max))
  {
    if max > s.max {
      assert FamilyOk(s, Inet) && FamilyOk(s, Inet6);
      assert FamilyOk(Grow(s, max), Inet) && FamilyOk(Grow(s, max), Inet6);
    }
  }

  lemma GrowKeepsLinks(s: State, max: nat)
    requires FamiliesOk(s) && Linked(s)
    ensures Linked(Grow(s, max))
  {
    if max > s.max {
      GrowKeepsLinksFrom(s, max, Inet);
      GrowKeepsLinksFrom(s, max, Inet6);
    }
  }

  lemma GrowKeepsLinksFrom(s: State, max: nat, af: Af)
    requires FamiliesOk(s) && LinkedFrom(s, af) && max > s.max
    ensures LinkedFrom(Grow(s, max), af)
  {
    forall i | 0 <= i < |s.List(af)| ensures Grow(s, max).List(af)[i].aliasOffset == Grow(s, max).Link(af, i) {
      GrowKeepsLink(s, max, af, i);
    }
  }

  lemma GrowKeepsLink(s: State, max: nat, af: Af, i: nat)
    requires FamiliesOk(s) && LinkedFrom(s, af) && max > s.max && i < |s.List(af)|
    ensures Grow(s, max).List(af)[i].aliasOffset == Grow(s, max).Link(af, i)
  {
    var s', other := Grow(s, max), OtherAf(af);
    var delta := if af == Inet then max - s.max else s.max - max;
    assert s'.List(af) == Shift(s.List(af), delta) && s'.List(other) == Shift(s.List(other), -delta);
    IndexOfNames(s.List(other), s'.List(other), s.List(af)[i].ifname);
    assert s.List(af)[i].aliasOffset == s.Link(af, i);
    assert FamilyOk(s, Inet);
  }

  /** Clearing both families leaves a linked state. */
  lemma ClearBothLinked(s: State)
    ensures Linked(Clear(Clear(s, Inet), Inet6))
  {
  }

  /** Clearing one family alone leaves every link of the other behind: it is safe exactly when there were none. */
  lemma ClearOneLinked(s: State, af: Af)
    ensures Linked(Clear(s, af)) <==>
            forall i :: 0 <= i < |s.List(OtherAf(af))| ==> s.List(OtherAf(af))[i].aliasOffset == 0
  {
    var s', other := Clear(s, af), OtherAf(af);
    assert s'.List(other) == s.List(other);
    assert forall i :: 0 <= i < |s.List(other)| ==> s'.Link(other, i) == 0;
    assert LinkedFrom(s', af);
    if LinkedFrom(s', other) {
      forall i | 0 <= i < |s.List(other)| ensures s.List(other)[i].aliasOffset == 0 {
        assert s'.List(other)[i].aliasOffset == s'.Link(other, i);
      }
    }
  }
}
