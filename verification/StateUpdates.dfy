/** The operations on whole blocks: the difference of two, and the generations it carries over. */
module StateUpdates {
  import opened IfFlags
  import opened IfStates
  import opened StateModel
  import opened StateDiff
  import opened StateBlock
  import G = Generations

  /** A null block stands for a state with no interfaces. */
  ghost function ValueOf(b: Block?): State
    reads b
  {
    if b == null then State(0, [], []) else b.value
  }

  ghost predicate Sound(b: Block?)
    reads b, if b == null then {} else {b.ifstates}
  {
    b != null ==> b.Shape() && FamiliesOk(b.value)
  }

  // ----- the difference

  /** Copies a record to the end of its family; the caller answers for the room. */
  method Append(diff: Block, scan: IfState, d: Diff)
    requires diff.Shape() && diff.Count(scan.af) < diff.maxIfCount
    modifies diff`value, diff`ipv4Count, diff`ipv6Count, diff.ifstates
    ensures diff.Shape() && diff.Count(scan.af) == old(diff.Count(scan.af)) + 1
    ensures diff.value == old(diff.value).With(scan.af, old(diff.value).List(scan.af) + [Tag(scan, d)])
  {
    ghost var s := diff.value;
    diff.Counts(scan.af);
    var n := diff.Count(scan.af);
    diff.Push(scan.af, scan);
    ghost var t := diff.value;
    LastPut(s.List(scan.af), scan, Tag(scan, d));
    var last := diff.Get(scan.af, n);
    diff.Put(scan.af, n, last.(flags := last.flags.(diff := d)));
    AppendedTwice(s, t, diff.value, scan.af, scan, Tag(scan, d));
  }

  /** A record appended and then put in its final form. */
  lemma AppendedTwice(s: State, t: State, u: State, af: Af, e: IfState, e': IfState)
    requires t == s.With(af, s.List(af) + [e]) && u == t.With(af, t.List(af)[|s.List(af)| := e'])
    ensures u == s.With(af, s.List(af) + [e'])
  {
    LastPut(s.List(af), e, e');
  }

  /** How a record differs from its namesake in the old block. */
  method Compare(old_: Block?, scan: IfState) returns (d: Diff)
    requires old_ != null ==> old_.Shape()
    ensures d == Classify(ValueOf(old_).List(scan.af), scan)
    ensures var l := ValueOf(old_).List(scan.af);
            var i := IndexOf(l, scan.ifname);
            d == if i < 0 then Added
                 else if l[i].flags.public != scan.flags.public then Changed
                 else if l[i].af == Inet && l[i].address[..4] != scan.address[..4] then Changed
                 else if l[i].af == Inet6 && l[i].address != scan.address then Changed
                 else if l[i].rank < scan.rank then RankDown
                 else if l[i].rank > scan.rank then RankUp
                 else Unchanged
  {
    var existing := Block.GetWithName(old_, scan.af, scan.ifname);
    if existing == -1 { return Added; }
    old_.Counts(scan.af);
    var e := old_.Get(scan.af, existing - old_.Start(scan.af));
    if HasChanged(e, scan) { return Changed; }
    if e.rank < scan.rank { return RankDown; }
    if e.rank > scan.rank { return RankUp; }
    return Unchanged;
  }

  method AddChange(diff: Block, old_: Block?, scan: IfState, ghost o: seq<IfState>)
    requires diff.Shape() && diff.Count(scan.af) < diff.maxIfCount
    requires old_ != null ==> old_.Shape()
    requires o == ValueOf(old_).List(scan.af)
    modifies diff`value, diff`ipv4Count, diff`ipv6Count, diff.ifstates
    ensures diff.Shape() && diff.Count(scan.af) == old(diff.Count(scan.af)) + 1
    ensures diff.value == old(diff.value).With(scan.af, old(diff.value).List(scan.af) + [Tag(scan, Classify(o, scan))])
  {
    var d := Compare(old_, scan);
    Append(diff, scan, d);
  }

  method Remove(diff: Block, scan: IfState)
    requires diff.Shape() && diff.Count(scan.af) < diff.maxIfCount
    modifies diff`value, diff`ipv4Count, diff`ipv6Count, diff.ifstates
    ensures diff.Shape()
    ensures var l := old(diff.value).List(scan.af);
            diff.value == if IndexOf(l, scan.ifname) >= 0 then old(diff.value)
                            else old(diff.value).With(scan.af, l + [Tag(scan, Removed)])
  {
    var present := Block.GetWithName(diff, scan.af, scan.ifname);
    if present != -1 { return; }
    Append(diff, scan, Removed);
  }

  /** The changes of one family: every record of the new block, tagged against the old. */
  method PopulateChanges(diff: Block, old_: Block?, new_: Block, af: Af, ghost o: seq<IfState>, ghost n: seq<IfState>)
    requires diff.Shape() && new_.Shape() && new_ != diff && new_.ifstates != diff.ifstates
    requires old_ != null ==> old_.Shape() && old_ != diff && old_.ifstates != diff.ifstates
    requires o == ValueOf(old_).List(af) && n == new_.value.List(af) && OneFamily(n, af)
    requires diff.Count(af) == 0 && |n| <= diff.maxIfCount
    modifies diff`value, diff`ipv4Count, diff`ipv6Count, diff.ifstates
    ensures diff.Shape() && diff.value == old(diff.value).With(af, TagAll(o, n))
  {
    ghost var s := diff.value;
    new_.Counts(af);
    var count := new_.Count(af);
    for i := 0 to count
      invariant diff.Shape() && diff.value == s.With(af, TagAll(o, n[..i])) && diff.Count(af) == i
    {
      AddChange(diff, old_, new_.Get(af, i), o);
      TagAllStep(o, n, i);
    }
    assert n[..count] == n;
  }

  /** The turn of one record of the old block. */
  method RemoveTurn(diff: Block, scan: IfState, af: Af, i: nat, ghost s: State, ghost o: seq<IfState>, ghost n: seq<IfState>)
    requires diff.Shape() && i < |o| && scan == o[i] && OneFamily(o, af) && UniqueNames(o) && |n| + |o| <= diff.maxIfCount
    requires Replaced(s, diff.value, af, TagAll(o, n) + RemovedFrom(o[..i], n))
    modifies diff`value, diff`ipv4Count, diff`ipv6Count, diff.ifstates
    ensures diff.Shape() && Replaced(s, diff.value, af, TagAll(o, n) + RemovedFrom(o[..i + 1], n))
  {
    diff.Counts(af);
    RemovalTurn(o, n, i);
    Remove(diff, scan);
  }

  /** The removals of one family: the records of the old block whose names are gone. */
  method PopulateRemoves(diff: Block, old_: Block, af: Af, ghost o: seq<IfState>, ghost n: seq<IfState>)
    requires diff.Shape() && old_.Shape() && old_ != diff && old_.ifstates != diff.ifstates
    requires OneFamily(o, af) && UniqueNames(o)
    requires o == old_.value.List(af) && diff.value.List(af) == TagAll(o, n)
    requires |n| + |o| <= diff.maxIfCount
    modifies diff`value, diff`ipv4Count, diff`ipv6Count, diff.ifstates
    ensures diff.Shape() && diff.value == old(diff.value).With(af, DiffList(o, n))
  {
    ghost var s := diff.value;
    old_.Counts(af);
    var count := old_.Count(af);
    for i := 0 to count
      invariant diff.Shape() && Replaced(s, diff.value, af, TagAll(o, n) + RemovedFrom(o[..i], n))
    {
      RemoveTurn(diff, old_.Get(af, i), af, i, s, o, n);
    }
    assert o[..count] == o;
    ReplacedIsWith(s, diff.value, af, DiffList(o, n));
  }

  method MaxAfCount(state: Block) returns (n: nat)
    requires state.Shape()
    ensures n == MaxCount(state.value)
  {
    if state.ipv4Count >= state.ipv6Count { return state.ipv4Count; }
    return state.ipv6Count;
  }

  /** The difference block, or null when both blocks are null or empty. No append lacks room. */
  method DiffBlocks(old_: Block?, new_: Block?) returns (diff: Block?)
    requires Sound(old_) && Sound(new_)
    ensures diff == null <==> MaxCount(ValueOf(old_)) + MaxCount(ValueOf(new_)) == 0
    ensures diff != null ==> fresh(diff) && fresh(diff.ifstates)
    ensures diff != null ==> diff.Shape() && diff.value == DiffState(ValueOf(old_), ValueOf(new_))
  {
    ghost var o, n := ValueOf(old_), ValueOf(new_);
    var totalCount := TotalCount(old_, new_);
    if totalCount == 0 { return null; }
    diff := Block.New(null, totalCount);
    Populate(diff, old_, new_, o, n);
  }

  /** Room for the worst case. */
  method TotalCount(old_: Block?, new_: Block?) returns (totalCount: nat)
    requires Sound(old_) && Sound(new_)
    ensures totalCount == MaxCount(ValueOf(old_)) + MaxCount(ValueOf(new_))
  {
    totalCount := 0;
    if old_ != null {
      var n := MaxAfCount(old_);
      totalCount := totalCount + n;
    }
    if new_ != null {
      var n := MaxAfCount(new_);
      totalCount := totalCount + n;
    }
  }

  method Populate(diff: Block, old_: Block?, new_: Block?, ghost o: State, ghost n: State)
    requires Sound(old_) && Sound(new_) && o == ValueOf(old_) && n == ValueOf(new_)
    requires diff.Shape() && diff.value == State(MaxCount(o) + MaxCount(n), [], [])
    requires old_ != null ==> old_ != diff && old_.ifstates != diff.ifstates
    requires new_ != null ==> new_ != diff && new_.ifstates != diff.ifstates
    modifies diff`value, diff`ipv4Count, diff`ipv6Count, diff.ifstates
    ensures diff.Shape() && diff.value == DiffState(o, n)
  {
    if new_ != null { PopulateAllChanges(diff, old_, new_, o, n); }
    assert diff.value == State(diff.maxIfCount, TagAll(o.v4, n.v4), TagAll(o.v6, n.v6));
    if old_ != null { PopulateAllRemoves(diff, old_, o, n); }
  }

  method PopulateAllChanges(diff: Block, old_: Block?, new_: Block, ghost o: State, ghost n: State)
    requires diff.Shape() && diff.value == State(diff.maxIfCount, [], [])
    requires new_.Shape() && FamiliesOk(n) && n == new_.value && new_ != diff && new_.ifstates != diff.ifstates
    requires old_ != null ==> old_.Shape() && old_ != diff && old_.ifstates != diff.ifstates
    requires o == ValueOf(old_) && |n.v4| <= diff.maxIfCount && |n.v6| <= diff.maxIfCount
    modifies diff`value, diff`ipv4Count, diff`ipv6Count, diff.ifstates
    ensures diff.Shape() && diff.value == State(diff.maxIfCount, TagAll(o.v4, n.v4), TagAll(o.v6, n.v6))
  {
    assert FamilyOk(n, Inet) && FamilyOk(n, Inet6);
    PopulateChanges(diff, old_, new_, Inet, o.v4, n.v4);
    PopulateChanges(diff, old_, new_, Inet6, o.v6, n.v6);
  }

  method PopulateAllRemoves(diff: Block, old_: Block, ghost o: State, ghost n: State)
    requires diff.Shape() && diff.value == State(diff.maxIfCount, TagAll(o.v4, n.v4), TagAll(o.v6, n.v6))
    requires old_.Shape() && FamiliesOk(o) && o == old_.value && old_ != diff && old_.ifstates != diff.ifstates
    requires diff.maxIfCount == MaxCount(o) + MaxCount(n)
    modifies diff`value, diff`ipv4Count, diff`ipv6Count, diff.ifstates
    ensures diff.Shape() && diff.value == DiffState(o, n)
  {
    assert FamilyOk(o, Inet) && FamilyOk(o, Inet6);
    PopulateRemoves(diff, old_, Inet, o.v4, n.v4);
    PopulateRemoves(diff, old_, Inet6, o.v6, n.v6);
  }

  // ----- generations

  method InterfaceHasChanged(changes: Block, ifname: IfName) returns (r: bool)
    requires changes.Shape()
    ensures r == G.InterfaceChanged(changes.value, ifname)
    ensures r <==> var i, j := IndexOf(changes.value.v4, ifname), IndexOf(changes.value.v6, ifname);
                   (i >= 0 && changes.value.v4[i].flags.diff != Unchanged) || (j >= 0 && changes.value.v6[j].flags.diff != Unchanged)
  {
    changes.Counts(Inet);
    changes.Counts(Inet6);
    var p := Block.GetWithName(changes, Inet, ifname);
    if p != -1 && changes.Get(Inet, p).flags.diff != Unchanged { return true; }
    p := Block.GetWithName(changes, Inet6, ifname);
    if p != -1 && changes.Get(Inet6, p - changes.Start(Inet6)).flags.diff != Unchanged { return true; }
    return false;
  }

  /** The turn of one record in either loop. */
  method UpdateOne(old_: Block?, state: Block, changes: Block, af: Af, i: nat, ghost prev: seq<IfState>, ghost ch: State)
    requires state.Shape() && changes.Shape() && changes.ifstates != state.ifstates
    requires old_ != null ==> old_.Shape() && old_.ifstates != state.ifstates
    requires prev == ValueOf(old_).List(af) && ch == changes.value
    requires i < state.Count(af) && G.Carried(prev, state.Get(af, i), af, state.generationCount, ch)
    modifies state`value, state.ifstates
    ensures state.Shape() && i < |old(state.value).List(af)|
    ensures var l := old(state.value).List(af);
            state.value == old(state.value).With(af, l[i := G.Stamp(prev, l[i], af, state.generationCount, ch)])
  {
    var scan, generationCount := state.Get(af, i), state.generationCount;
    if af == Inet6 && scan.generation == generationCount { return; }
    var changed := InterfaceHasChanged(changes, scan.ifname);
    if changed {
      state.Put(af, i, scan.(generation := generationCount));
    } else {
      var generation := OldGeneration(old_, af, scan.ifname, prev);
      state.Put(af, i, scan.(generation := generation));
    }
  }

  /** That turn, the records before it being done. */
  method UpdateTurn(old_: Block?, state: Block, changes: Block, af: Af, i: nat, ghost prev: seq<IfState>, ghost ch: State,
                    ghost s: State, ghost l: seq<IfState>, ghost stamped: seq<IfState>)
    requires state.Shape() && changes.Shape() && changes.ifstates != state.ifstates
    requires old_ != null ==> old_.Shape() && old_.ifstates != state.ifstates
    requires prev == ValueOf(old_).List(af) && ch == changes.value
    requires i < state.Count(af) && |l| == |stamped| == state.Count(af) && Replaced(s, state.value, af, stamped[..i] + l[i..])
    requires G.Carried(prev, l[i], af, state.generationCount, ch) && stamped[i] == G.Stamp(prev, l[i], af, state.generationCount, ch)
    modifies state`value, state.ifstates
    ensures state.Shape() && state.Count(af) == |l| && Replaced(s, state.value, af, stamped[..i + 1] + l[i + 1..])
  {
    ReplacedPrefix(stamped, l, i);
    UpdateOne(old_, state, changes, af, i, prev, ch);
  }

  /** The generation the old block has for a name that it must have. */
  method OldGeneration(old_: Block?, af: Af, ifname: IfName, ghost prev: seq<IfState>) returns (generation: nat)
    requires old_ != null ==> old_.Shape()
    requires prev == ValueOf(old_).List(af) && IndexOf(prev, ifname) >= 0
    ensures generation == prev[IndexOf(prev, ifname)].generation
  {
    var p := Block.GetWithName(old_, af, ifname);
    assert old_ != null && p != -1;
    old_.Counts(af);
    return old_.Get(af, p - old_.Start(af)).generation;
  }

  /** One of the two loops, over one family. */
  method UpdateFamily(old_: Block?, state: Block, changes: Block, af: Af, ghost prev: seq<IfState>, ghost ch: State)
    requires state.Shape() && changes.Shape() && changes.ifstates != state.ifstates
    requires old_ != null ==> old_.Shape() && old_.ifstates != state.ifstates
    requires prev == ValueOf(old_).List(af) && ch == changes.value
    requires G.AllCarried(prev, state.value.List(af), af, state.generationCount, ch)
    modifies state`value, state.ifstates
    ensures state.Shape() && state.value == old(state.value).With(af,
              G.StampAll(prev, old(state.value).List(af), af, state.generationCount, ch))
  {
    ghost var s, l := state.value, state.value.List(af);
    ghost var stamped := G.StampAll(prev, l, af, state.generationCount, ch);
    state.Counts(af);
    UpdateRecords(old_, state, changes, af, prev, ch, s, l, stamped);
    ReplacedIsWith(s, state.value, af, stamped);
  }

  method UpdateRecords(old_: Block?, state: Block, changes: Block, af: Af, ghost prev: seq<IfState>, ghost ch: State,
                       ghost s: State, ghost l: seq<IfState>, ghost stamped: seq<IfState>)
    requires state.Shape() && changes.Shape() && changes.ifstates != state.ifstates
    requires old_ != null ==> old_.Shape() && old_.ifstates != state.ifstates
    requires prev == ValueOf(old_).List(af) && ch == changes.value && s == state.value && l == s.List(af)
    requires G.AllCarried(prev, l, af, state.generationCount, ch) && stamped == G.StampAll(prev, l, af, state.generationCount, ch)
    modifies state`value, state.ifstates
    ensures state.Shape() && Replaced(s, state.value, af, stamped)
  {
    state.Counts(af);
    ReplacedAll(stamped, l);
    var count := state.Count(af);
    for i := 0 to count
      invariant state.Shape() && state.Count(af) == |l| && Replaced(s, state.value, af, stamped[..i] + l[i..])
    {
      assert G.Carried(prev, l[i], af, state.generationCount, ch);
      UpdateTurn(old_, state, changes, af, i, prev, ch, s, l, stamped);
    }
  }

  /** The caller answers for what the two asserts check. */
  method UpdateGenerations(old_: Block?, state: Block?, changes: Block?)
    requires old_ != null ==> old_.Shape()
    requires state != null ==> state.Shape() && (old_ != null ==> old_.ifstates != state.ifstates)
    requires changes != null ==> changes.Shape()
    requires state != null && changes != null ==>
               changes.ifstates != state.ifstates && G.AssertsHold(ValueOf(old_), state.value, state.generationCount, changes.value)
    modifies if state == null then {} else {state, state.ifstates}
    ensures state != null ==>
              state.Shape() && state.value == if changes == null then old(state.value)
                               else old(G.Stamped(ValueOf(old_), state.value, state.generationCount, changes.value))
  {
    if state == null || changes == null { return; }
    ghost var prev, s, ch := ValueOf(old_), state.value, changes.value;
    UpdateFamily(old_, state, changes, Inet, prev.v4, ch);
    UpdateFamily(old_, state, changes, Inet6, prev.v6, ch);
  }
}
