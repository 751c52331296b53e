/** Runs of the block's operations: the invariants every run keeps, and what links are for. */
module StateRuns {
  import opened IfFlags
  import opened IfStates
  import opened Options
  import opened StateModel

  datatype Op = AddOp(u: Update) | GrowOp(max: nat) | ClearOp(af: Af) | ClearBothOp

  function Apply(s: State, op: Op): State {
    match op
    case AddOp(u) => Add(s, u).0
    case GrowOp(max) => Grow(s, max)
    case ClearOp(af) => Clear(s, af)
    case ClearBothOp => Clear(Clear(s, Inet), Inet6)
  }

  function Run(max: nat, ops: seq<Op>): State {
    if ops == [] then State(max, [], [])
    else Apply(Run(max, ops[..|ops| - 1]), ops[|ops| - 1])
  }

  /** Capacity, family tags, unique names and the last-item mark hold after any run whatever. */
  lemma {:induction false} RunFamilies(max: nat, ops: seq<Op>)
    ensures FamiliesOk(Run(max, ops))
  {
    if ops != [] {
      var before, op := Run(max, ops[..|ops| - 1]), ops[|ops| - 1];
      RunFamilies(max, ops[..|ops| - 1]);
      match op
      case AddOp(u) => AddKeepsFamilies(before, u);
      case GrowOp(m) => GrowKeepsFamilies(before, m);
      case ClearOp(af) =>
        assert FamilyOk(before, Inet) && FamilyOk(before, Inet6);
      case ClearBothOp =>
    }
  }

  ghost predicate Clears(op: Op, af: Af) {
    op == ClearOp(af) || op == ClearBothOp
  }

  /** Wherever one family is cleared, the other is before the next add. */
  ghost predicate ClearsTogether(ops: seq<Op>) {
    forall k :: 0 <= k < |ops| && ops[k].ClearOp? ==> exists m: nat :: OtherClearedAt(ops, k, m)
  }

  ghost predicate OtherClearedAt(ops: seq<Op>, k: nat, m: nat)
    requires k < |ops| && ops[k].ClearOp?
  {
    k < m < |ops| && Clears(ops[m], OtherAf(ops[k].af)) && forall j :: k < j < m ==> !ops[j].AddOp?
  }

  /** Of the first n operations the k-th cleared one family, and neither a clear of the other nor an add followed. */
  ghost predicate HalfCleared(ops: seq<Op>, n: nat, k: nat) {
    k < n <= |ops| && ops[k].ClearOp? && forall j :: k < j < n ==> !Clears(ops[j], OtherAf(ops[k].af)) && !ops[j].AddOp?
  }

  ghost predicate LinkedOrHalf(max: nat, ops: seq<Op>, n: nat)
    requires n <= |ops|
  {
    Linked(Run(max, ops[..n])) || exists k: nat :: HalfCleared(ops, n, k) && Run(max, ops[..n]).List(ops[k].af) == []
  }

  /** One more operation when all links are right. */
  lemma LinkedStep(max: nat, ops: seq<Op>, n: nat)
    requires n < |ops| && Linked(Run(max, ops[..n])) && Run(max, ops[..n + 1]) == Apply(Run(max, ops[..n]), ops[n])
    ensures LinkedOrHalf(max, ops, n + 1)
  {
    var before := Run(max, ops[..n]);
    RunFamilies(max, ops[..n]);
    match ops[n]
    case AddOp(u) => AddKeepsLinks(before, u);
    case GrowOp(m) => GrowKeepsLinks(before, m);
    case ClearBothOp => ClearBothLinked(before);
    case ClearOp(af) => assert HalfCleared(ops, n + 1, n);
  }

  /** One more operation when one family alone was cleared. */
  lemma HalfStep(max: nat, ops: seq<Op>, n: nat, k: nat)
    requires n < |ops| && ClearsTogether(ops) && HalfCleared(ops, n, k) && Run(max, ops[..n]).List(ops[k].af) == []
    requires Run(max, ops[..n + 1]) == Apply(Run(max, ops[..n]), ops[n])
    ensures LinkedOrHalf(max, ops, n + 1)
  {
    var m: nat :| OtherClearedAt(ops, k, m);
    var before := Run(max, ops[..n]);
    if Clears(ops[n], OtherAf(ops[k].af)) {
      ClearedBoth(before, ops[n], ops[k].af);
    } else {
      assert n < m;
      StaysEmpty(before, ops[n], ops[k].af);
      assert HalfCleared(ops, n + 1, k);
    }
  }

  lemma ClearedBoth(s: State, op: Op, af: Af)
    requires s.List(af) == [] && Clears(op, OtherAf(af))
    ensures Linked(Apply(s, op))
  {
    assert Apply(s, op).v4 == [] && Apply(s, op).v6 == [];
  }

  lemma StaysEmpty(s: State, op: Op, af: Af)
    requires s.List(af) == [] && !op.AddOp?
    ensures Apply(s, op).List(af) == []
  {
    if op.GrowOp? { assert |Grow(s, op.max).List(af)| == 0; }
  }

  lemma {:induction false} RunLinkedOrHalf(max: nat, ops: seq<Op>, n: nat)
    requires n <= |ops| && ClearsTogether(ops)
    ensures LinkedOrHalf(max, ops, n)
  {
    if n == 0 {
      assert Linked(Run(max, ops[..0]));
    } else {
      RunLinkedOrHalf(max, ops, n - 1);
      assert ops[..n][..n - 1] == ops[..n - 1];
      if Linked(Run(max, ops[..n - 1])) {
        LinkedStep(max, ops, n - 1);
      } else {
        var k: nat :| HalfCleared(ops, n - 1, k) && Run(max, ops[..n - 1]).List(ops[k].af) == [];
        HalfStep(max, ops, n - 1, k);
      }
    }
  }

  /** Links are right after any run in which a clear of one family is followed by that of the other before an add. */
  lemma RunLinked(max: nat, ops: seq<Op>)
    requires ClearsTogether(ops)
    ensures Linked(Run(max, ops))
  {
    RunLinkedOrHalf(max, ops, |ops|);
    assert ops[..|ops|] == ops;
  }

  function AddNamed(name: IfName, af: Af): Op {
    AddOp(Update(name, af, 0, 0, None, 0))
  }

  /** A run that clears one family alone: the record of the other is left with a link to nothing. */
  lemma ClearOneBreaksLinks(max: nat, name: IfName, af: Af)
    requires max > 0
    ensures var s := Run(max, [AddNamed(name, af), AddNamed(name, OtherAf(af)), ClearOp(af)]);
            && !Linked(s) && s.List(af) == [] && |s.List(OtherAf(af))| == 1
            && s.List(OtherAf(af))[0].ifname == name && s.List(OtherAf(af))[0].aliasOffset != 0
  {
    var first, second := AddNamed(name, af), AddNamed(name, OtherAf(af));
    RunThree(max, first, second, ClearOp(af));
    var s := State(max, [], []);
    AddToEmpty(s, first.u);
    AddNamesake(Add(s, first.u).0, second.u);
    ClearOneLinked(Add(Add(s, first.u).0, second.u).0, af);
  }

  lemma RunThree(max: nat, a: Op, b: Op, c: Op)
    ensures Run(max, [a, b, c]) == Apply(Apply(Apply(State(max, [], []), a), b), c)
  {
    assert [] + [a] == [a] && [a] + [b] == [a, b] && [a, b] + [c] == [a, b, c];
    assert Run(max, [a]) == Apply(State(max, [], []), a) by { RunNext(max, [], a); }
    assert Run(max, [a, b]) == Apply(Run(max, [a]), b) by { RunNext(max, [a], b); }
    RunNext(max, [a, b], c);
  }

  lemma RunNext(max: nat, ops: seq<Op>, op: Op)
    ensures Run(max, ops + [op]) == Apply(Run(max, ops), op)
  {
    assert (ops + [op])[..|ops|] == ops;
  }

  lemma AddToEmpty(s: State, u: Update)
    requires s == State(s.max, [], []) && s.max > 0
    ensures var s' := Add(s, u).0;
            s'.max == s.max && |s'.List(u.af)| == 1 && s'.List(u.af)[0].ifname == u.name && s'.List(OtherAf(u.af)) == []
  {
    AppendParts(s, u);
  }

  lemma AddNamesake(s: State, u: Update)
    requires s.max > 0 && s.List(u.af) == [] && |s.List(OtherAf(u.af))| == 1 && s.List(OtherAf(u.af))[0].ifname == u.name
    ensures var l := Add(s, u).0.List(u.af); |l| == 1 && l[0].ifname == u.name && l[0].aliasOffset != 0
  {
    AppendParts(s, u);
    IndexOfUnique(s.List(OtherAf(u.af)), 0);
  }

  // ----- rank order

  /** Step j supplied a rank to this family, which was not cleared since. */
  ghost predicate Standing(ops: seq<Op>, af: Af, j: int) {
    0 <= j < |ops| && ops[j].AddOp? && ops[j].u.af == af && forall k :: j < k < |ops| ==> !Clears(ops[k], af)
  }

  /** Each rank supplied is no better than those this family was given since it was last cleared. */
  ghost predicate RanksInOrder(ops: seq<Op>) {
    forall n, j :: 0 <= j < n < |ops| && ops[n].AddOp? && Standing(ops[..n], ops[n].u.af, j)
                   ==> ops[j].u.rank <= ops[n].u.rank
  }

  ghost predicate Supplied(ops: seq<Op>, af: Af, rank: Rank) {
    exists j :: Standing(ops, af, j) && ops[j].u.rank == rank
  }

  ghost predicate RanksSupplied(ops: seq<Op>, af: Af, l: seq<IfState>) {
    forall i :: 0 <= i < |l| ==> Supplied(ops, af, l[i].rank)
  }

  lemma {:induction false} RunRanksSupplied(max: nat, ops: seq<Op>, af: Af)
    ensures RanksSupplied(ops, af, Run(max, ops).List(af))
  {
    if ops != [] {
      var n := |ops| - 1;
      RunRanksSupplied(max, ops[..n], af);
      StepRanksSupplied(ops[..n], ops[n], Run(max, ops[..n]), af);
      assert ops == ops[..n] + [ops[n]];
    }
  }

  lemma StepRanksSupplied(init: seq<Op>, op: Op, s: State, af: Af)
    requires RanksSupplied(init, af, s.List(af))
    ensures RanksSupplied(init + [op], af, Apply(s, op).List(af))
  {
    var l, l' := s.List(af), Apply(s, op).List(af);
    if Clears(op, af) {
      assert l' == [];
    } else {
      forall i | 0 <= i < |l'| ensures Supplied(init + [op], af, l'[i].rank) {
        if i < |l| && l'[i].rank == l[i].rank {
          SuppliedExtends(init, op, af, l[i].rank);
        } else {
          NewRankIsSupplied(s, op, af, i);
          assert Standing(init + [op], af, |init|);
        }
      }
    }
  }

  lemma SuppliedExtends(init: seq<Op>, op: Op, af: Af, rank: Rank)
    requires Supplied(init, af, rank) && !Clears(op, af)
    ensures Supplied(init + [op], af, rank)
  {
    var j :| Standing(init, af, j) && init[j].u.rank == rank;
    assert Standing(init + [op], af, j);
  }

  /** A rank that a step changed is the rank that step supplied. */
  lemma NewRankIsSupplied(s: State, op: Op, af: Af, i: nat)
    requires i < |Apply(s, op).List(af)|
    requires i >= |s.List(af)| || Apply(s, op).List(af)[i].rank != s.List(af)[i].rank
    ensures op.AddOp? && op.u.af == af && Apply(s, op).List(af)[i].rank == op.u.rank
  {
    if op.AddOp? { AddRanks(s, op.u); }
  }

  lemma AddRanks(s: State, u: Update)
    ensures var l, l' := s.List(u.af), Add(s, u).0.List(u.af);
            && |l| <= |l'| <= |l| + 1
            && (|l'| > |l| ==> l'[|l|].rank == u.rank)
            && forall i :: 0 <= i < |l| ==> l'[i].rank == l[i].rank || l'[i].rank == u.rank
    ensures var o, o' := s.List(OtherAf(u.af)), Add(s, u).0.List(OtherAf(u.af));
            |o'| == |o| && forall i :: 0 <= i < |o| ==> o'[i].rank == o[i].rank
  {
    if IndexOf(s.List(u.af), u.name) < 0 { AppendParts(s, u); }
  }

  /** A rank that is not lower than those there changes none of them. */
  lemma AddInOrder(s: State, u: Update)
    requires forall i :: 0 <= i < |s.List(u.af)| ==> s.List(u.af)[i].rank <= u.rank
    ensures var l, l' := s.List(u.af), Add(s, u).0.List(u.af);
            && |l| <= |l'| <= |l| + 1 && (|l'| > |l| ==> l'[|l|].rank == u.rank)
            && forall i :: 0 <= i < |l| ==> l'[i].rank == l[i].rank
  {
    if IndexOf(s.List(u.af), u.name) < 0 { AppendParts(s, u); }
  }

  lemma SortedByRanks(l: seq<IfState>, l': seq<IfState>, rank: Rank)
    requires RankSorted(l) && |l| <= |l'| <= |l| + 1 && (|l'| > |l| ==> l'[|l|].rank == rank)
    requires forall i :: 0 <= i < |l| ==> l'[i].rank == l[i].rank <= rank
    ensures RankSorted(l')
  {
  }

  lemma AddKeepsSorted(s: State, u: Update)
    requires RankSorted(s.v4) && RankSorted(s.v6)
    requires forall i :: 0 <= i < |s.List(u.af)| ==> s.List(u.af)[i].rank <= u.rank
    ensures RankSorted(Add(s, u).0.v4) && RankSorted(Add(s, u).0.v6)
  {
    AddRanks(s, u);
    AddInOrder(s, u);
    var s' := Add(s, u).0;
    SortedByRanks(s.List(u.af), s'.List(u.af), u.rank);
    assert RankSorted(s'.List(OtherAf(u.af)));
  }

  /** Ranks supplied in order per family keep both families sorted by rank. */
  lemma {:induction false} RunSorted(max: nat, ops: seq<Op>)
    requires RanksInOrder(ops)
    ensures RankSorted(Run(max, ops).v4) && RankSorted(Run(max, ops).v6)
  {
    if ops != [] {
      var n := |ops| - 1;
      var init, s := ops[..n], Run(max, ops[..n]);
      InOrderPrefix(ops);
      RunSorted(max, init);
      match ops[n]
      case AddOp(u) =>
        RunRanksSupplied(max, init, u.af);
        var l := s.List(u.af);
        forall i | 0 <= i < |l| ensures l[i].rank <= u.rank {
          assert Supplied(init, u.af, l[i].rank);
          var j :| Standing(init, u.af, j) && init[j].u.rank == l[i].rank;
          assert ops[..n] == init;
        }
        AddKeepsSorted(s, u);
      case _ =>
    }
  }

  lemma InOrderPrefix(ops: seq<Op>)
    requires RanksInOrder(ops) && ops != []
    ensures RanksInOrder(ops[..|ops| - 1])
  {
    var init := ops[..|ops| - 1];
    forall n, j | 0 <= j < n < |init| && init[n].AddOp? && Standing(init[..n], init[n].u.af, j)
      ensures init[j].u.rank <= init[n].u.rank
    {
      assert init[..n] == ops[..n];
    }
  }

  // ----- what one add does

  /** A record without its place in the block: link and last-item mark dropped. */
  function Content(e: IfState): IfState {
    e.(aliasOffset := 0, flags := e.flags.(last := false))
  }

  ghost predicate SameContent(l: seq<IfState>, l': seq<IfState>) {
    |l| == |l'| && forall i :: 0 <= i < |l| ==> Content(l'[i]) == Content(l[i])
  }

  /** An add is refused exactly when it is out-ranked or the family is full, and then changes nothing. */
  lemma AddRefused(s: State, u: Update)
    ensures Add(s, u).1.None? <==>
            if HasName(s.List(u.af), u.name)
            then s.List(u.af)[IndexOf(s.List(u.af), u.name)].rank < u.rank
            else |s.List(u.af)| == s.max
    ensures Add(s, u).1.None? ==> Add(s, u).0 == s
  {
  }

  /** An accepted add sets the named record, appending it if need be, and no other content. */
  lemma AddAccepted(s: State, u: Update)
    requires Add(s, u).1.Some?
    ensures var (s', r) := Add(s, u);
            var l, l', i := s.List(u.af), s'.List(u.af), r.value;
            && i < |l'|
            && (if HasName(l, u.name) then |l'| == |l| else |l'| == |l| + 1 && i == |l|)
            && l'[i].ifname == u.name && l'[i].rank == u.rank && l'[i].reachFlags == u.reachFlags
            && l'[i].flags.public == Public(u.word)
            && (u.ifa.Some? ==> if u.af == Inet then l'[i].address[..4] == u.ifa.value[..4]
                                else l'[i].address == u.ifa.value)
            && (forall k :: 0 <= k < |l| && k != i ==> Content(l'[k]) == Content(l[k]))
    ensures var (s', r) := Add(s, u);
            var l, e' := s.List(u.af), s'.List(u.af)[r.value];
            var e := if HasName(l, u.name) then l[IndexOf(l, u.name)] else Blank(u.name, u.af);
            && e'.af == e.af && e'.generation == e.generation && e'.flags.diff == e.flags.diff
            && e'.address == match u.ifa
                             case None => e.address
                             case Some(a) => if u.af == Inet then a[..4] + e.address[4..] else a
    ensures SameContent(s.List(OtherAf(u.af)), Add(s, u).0.List(OtherAf(u.af)))
  {
    if IndexOf(s.List(u.af), u.name) < 0 { AppendParts(s, u); }
  }

  // ----- following links

  predicate Live(s: State, p: int) {
    0 <= p < |s.v4| || s.max <= p < s.max + |s.v6|
  }

  /** The record at a position; positions that hold no live record read as blank. */
  function At(s: State, p: int): IfState {
    if 0 <= p < |s.v4| then s.v4[p]
    else if s.max <= p < s.max + |s.v6| then s.v6[p - s.max]
    else Blank("", Inet)
  }

  /** `nwi_ifstate_get_alias`: the record's position in the given family, if it has one there. */
  function Alias(s: State, p: int, af: Af): Option<int> {
    if At(s, p).af == af then Some(p)
    else if At(s, p).aliasOffset == 0 then None
    else Some(p + At(s, p).aliasOffset)
  }

  lemma AtPos(s: State, af: Af, i: nat)
    requires FamiliesOk(s) && i < |s.List(af)|
    ensures Live(s, s.Pos(af, i)) && At(s, s.Pos(af, i)) == s.List(af)[i]
  {
    assert FamilyOk(s, Inet);
  }

  /** The link of a record and that of its namesake, in terms of the namesake's index. */
  lemma LinkTarget(s: State, af: Af, i: nat)
    requires FamiliesOk(s) && Linked(s) && i < |s.List(af)|
    ensures var other, e := OtherAf(af), s.List(af)[i];
            var j := IndexOf(s.List(other), e.ifname);
            && (j < 0 ==> e.aliasOffset == 0)
            && (j >= 0 ==>
                  && e.aliasOffset == s.Pos(other, j) - s.Pos(af, i) != 0
                  && s.List(other)[j].aliasOffset == -e.aliasOffset)
  {
    var other, e := OtherAf(af), s.List(af)[i];
    assert FamilyOk(s, Inet) && FamilyOk(s, Inet6);
    assert e.aliasOffset == s.Link(af, i);
    var j := IndexOf(s.List(other), e.ifname);
    if j >= 0 {
      IndexOfUnique(s.List(af), i);
      assert s.List(other)[j].aliasOffset == s.Link(other, j);
    }
  }

  /** Resolution finds the first record of the other family with the same name. */
  lemma AliasByName(s: State, af: Af, i: nat)
    requires FamiliesOk(s) && Linked(s) && i < |s.List(af)|
    ensures Live(s, s.Pos(af, i))
    ensures var other := OtherAf(af);
            var j := IndexOf(s.List(other), s.List(af)[i].ifname);
            Alias(s, s.Pos(af, i), other) == if j < 0 then None else Some(s.Pos(other, j))
  {
    AtPos(s, af, i);
    LinkTarget(s, af, i);
    assert FamilyOk(s, af);
  }

  /** In a linked state, a record has a link exactly when the other family has its name. */
  lemma LinkIffNamesake(s: State, af: Af, i: nat)
    requires FamiliesOk(s) && Linked(s) && i < |s.List(af)|
    ensures Live(s, s.Pos(af, i))
    ensures s.List(af)[i].aliasOffset != 0 <==> HasName(s.List(OtherAf(af)), s.List(af)[i].ifname)
    ensures Alias(s, s.Pos(af, i), OtherAf(af)).None? <==> !HasName(s.List(OtherAf(af)), s.List(af)[i].ifname)
  {
    AtPos(s, af, i);
    AliasByName(s, af, i);
    LinkTarget(s, af, i);
    var o, name := s.List(OtherAf(af)), s.List(af)[i].ifname;
    assert IndexOf(o, name) >= 0 <==> HasName(o, name);
  }

  /** Following a link reaches the record of the same name, whose own link is the negative and leads back. */
  lemma LinkFollowed(s: State, af: Af, i: nat)
    requires FamiliesOk(s) && Linked(s) && i < |s.List(af)| && s.List(af)[i].aliasOffset != 0
    ensures var e, p := s.List(af)[i], s.Pos(af, i);
            var q := p + e.aliasOffset;
            && Live(s, p) && Live(s, q)
            && At(s, q).af == OtherAf(af) && At(s, q).ifname == e.ifname
            && At(s, q).aliasOffset == -e.aliasOffset
            && Alias(s, p, OtherAf(af)) == Some(q) && Alias(s, q, af) == Some(p)
  {
    var j := NamesakeOf(s, af, i);
    AtPos(s, af, i);
    AtPos(s, OtherAf(af), j);
  }

  /** The index of the record a link leads to. */
  lemma NamesakeOf(s: State, af: Af, i: nat) returns (j: nat)
    requires FamiliesOk(s) && Linked(s) && i < |s.List(af)| && s.List(af)[i].aliasOffset != 0
    ensures s.List(af)[i].af == af
    ensures var o := s.List(OtherAf(af));
            && j < |o| && o[j].ifname == s.List(af)[i].ifname && o[j].af == OtherAf(af)
            && s.List(af)[i].aliasOffset == s.Pos(OtherAf(af), j) - s.Pos(af, i)
            && o[j].aliasOffset == -s.List(af)[i].aliasOffset
  {
    LinkTarget(s, af, i);
    j := IndexOf(s.List(OtherAf(af)), s.List(af)[i].ifname);
    assert FamilyOk(s, af) && FamilyOk(s, OtherAf(af));
  }

  /** The index, in the other family, of the record that a record resolves to. */
  function ResolvedIndex(s: State, af: Af, i: int): Option<int> {
    match Alias(s, s.Pos(af, i), OtherAf(af))
    case None => None
    case Some(q) => Some(q - s.Pos(OtherAf(af), 0))
  }

  lemma ResolvedByName(s: State, af: Af, i: nat)
    requires FamiliesOk(s) && Linked(s) && i < |s.List(af)|
    ensures var j := IndexOf(s.List(OtherAf(af)), s.List(af)[i].ifname);
            ResolvedIndex(s, af, i) == if j < 0 then None else Some(j)
  {
    AliasByName(s, af, i);
  }

  /** Growing moves the IPv6 records, yet every record and the record it resolves to stay the same. */
  lemma GrowTransparent(s: State, max: nat, af: Af, i: nat)
    requires FamiliesOk(s) && Linked(s) && i < |s.List(af)|
    ensures i < |Grow(s, max).List(af)| == |s.List(af)| && Grow(s, max).max == if max <= s.max then s.max else max
    ensures Content(Grow(s, max).List(af)[i]) == Content(s.List(af)[i])
    ensures ResolvedIndex(Grow(s, max), af, i) == ResolvedIndex(s, af, i)
  {
    GrowKeepsFamilies(s, max);
    GrowKeepsLinks(s, max);
    ResolvedByName(s, af, i);
    ResolvedByName(Grow(s, max), af, i);
    IndexOfNames(s.List(OtherAf(af)), Grow(s, max).List(OtherAf(af)), s.List(af)[i].ifname);
  }
}
