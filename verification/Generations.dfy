/** Per-interface generations, carried from state to state by the differences between them. */
module Generations {
  import opened IfFlags
  import opened IfStates
  import opened StateModel
  import opened StateRuns
  import opened StateDiff

  predicate TaggedChanged(diff: seq<IfState>, name: IfName) {
    var i := IndexOf(diff, name);
    i >= 0 && diff[i].flags.diff != Unchanged
  }

  /** Either family of the interface is marked as not unchanged. */
  predicate InterfaceChanged(changes: State, name: IfName) {
    TaggedChanged(changes.v4, name) || TaggedChanged(changes.v6, name)
  }

  /** The IPv6 loop passes over records that already carry the current generation. */
  predicate Skipped(e: IfState, af: Af, gen: nat) {
    af == Inet6 && e.generation == gen
  }

  /** What the `assert` in each loop demands of one record. */
  predicate Carried(prev: seq<IfState>, e: IfState, af: Af, gen: nat, changes: State) {
    Skipped(e, af, gen) || InterfaceChanged(changes, e.ifname) || IndexOf(prev, e.ifname) >= 0
  }

  /** The record after its turn; one that the `assert` would stop at stays as it is. */
  function Stamp(prev: seq<IfState>, e: IfState, af: Af, gen: nat, changes: State): IfState {
    if Skipped(e, af, gen) then e
    else if InterfaceChanged(changes, e.ifname) then e.(generation := gen)
    else if IndexOf(prev, e.ifname) >= 0 then e.(generation := prev[IndexOf(prev, e.ifname)].generation)
    else e
  }

  ghost predicate AllCarried(prev: seq<IfState>, l: seq<IfState>, af: Af, gen: nat, changes: State) {
    forall i :: 0 <= i < |l| ==> Carried(prev, l[i], af, gen, changes)
  }

  ghost predicate AssertsHold(prev: State, cur: State, gen: nat, changes: State) {
    AllCarried(prev.v4, cur.v4, Inet, gen, changes) && AllCarried(prev.v6, cur.v6, Inet6, gen, changes)
  }

  function StampAll(prev: seq<IfState>, l: seq<IfState>, af: Af, gen: nat, changes: State): seq<IfState> {
    seq(|l|, i requires 0 <= i < |l| => Stamp(prev, l[i], af, gen, changes))
  }

  function Stamped(prev: State, cur: State, gen: nat, changes: State): State {
    State(cur.max,
          StampAll(prev.v4, cur.v4, Inet, gen, changes),
          StampAll(prev.v6, cur.v6, Inet6, gen, changes))
  }

  // ----- the asserts never fail

  /** An interface not marked as changed has, in each family, a record in both states or in neither. */
  lemma UnmarkedPersists(prev: State, cur: State, af: Af, name: IfName)
    requires FamiliesOk(prev) && FamiliesOk(cur)
    requires !InterfaceChanged(DiffState(prev, cur), name)
    ensures IndexOf(prev.List(af), name) >= 0 <==> IndexOf(cur.List(af), name) >= 0
  {
    assert FamilyOk(prev, af) && FamilyOk(cur, af);
    DiffTagsAll(prev.List(af), cur.List(af), name);
    assert DiffState(prev, cur).List(af) == DiffList(prev.List(af), cur.List(af));
  }

  lemma AssertsNeverFail(prev: State, cur: State, gen: nat)
    requires FamiliesOk(prev) && FamiliesOk(cur)
    ensures AssertsHold(prev, cur, gen, DiffState(prev, cur))
  {
    ListCarried(prev, cur, Inet, gen);
    ListCarried(prev, cur, Inet6, gen);
  }

  lemma ListCarried(prev: State, cur: State, af: Af, gen: nat)
    requires FamiliesOk(prev) && FamiliesOk(cur)
    ensures AllCarried(prev.List(af), cur.List(af), af, gen, DiffState(prev, cur))
  {
    forall i | 0 <= i < |cur.List(af)|
      ensures Carried(prev.List(af), cur.List(af)[i], af, gen, DiffState(prev, cur))
    {
      if !InterfaceChanged(DiffState(prev, cur), cur.List(af)[i].ifname) {
        UnmarkedPersists(prev, cur, af, cur.List(af)[i].ifname);
      }
    }
  }

  // ----- which change renews a generation

  /** The two states say different things of the interface in some family. */
  predicate FactsDiffer(prev: State, cur: State, name: IfName) {
    FactsOf(prev.v4, name) != FactsOf(cur.v4, name) || FactsOf(prev.v6, name) != FactsOf(cur.v6, name)
  }

  lemma ChangedIffFactsDiffer(prev: State, cur: State, name: IfName)
    requires FamiliesOk(prev) && FamiliesOk(cur)
    ensures InterfaceChanged(DiffState(prev, cur), name) <==> FactsDiffer(prev, cur, name)
  {
    assert FamilyOk(prev, Inet) && FamilyOk(prev, Inet6) && FamilyOk(cur, Inet) && FamilyOk(cur, Inet6);
    MarkedIffFactsDiffer(prev.v4, cur.v4, Inet, name);
    MarkedIffFactsDiffer(prev.v6, cur.v6, Inet6, name);
  }

  /**
   What one update makes of a record: it gets the current generation exactly when public flags, address or
   rank of its interface differ in some family from the previous state, or it already has that generation
   and is passed over; else it gets that of the previous record. Nothing else in it changes.
   */
  lemma GenerationRenewed(prev: State, cur: State, gen: nat, af: Af, i: nat)
    requires FamiliesOk(prev) && FamiliesOk(cur) && i < |cur.List(af)|
    ensures i < |Stamped(prev, cur, gen, DiffState(prev, cur)).List(af)| == |cur.List(af)|
    ensures var e, e' := cur.List(af)[i], Stamped(prev, cur, gen, DiffState(prev, cur)).List(af)[i];
            && e' == e.(generation := e'.generation)
            && (if (af == Inet6 && e.generation == gen) || FactsDiffer(prev, cur, e.ifname) then e'.generation == gen
                else exists k :: 0 <= k < |prev.List(af)| && prev.List(af)[k].ifname == e.ifname
                                 && e'.generation == prev.List(af)[k].generation)
  {
    var name := cur.List(af)[i].ifname;
    ChangedIffFactsDiffer(prev, cur, name);
    ListCarried(prev, cur, af, gen);
    assert Carried(prev.List(af), cur.List(af)[i], af, gen, DiffState(prev, cur));
    assert Stamped(prev, cur, gen, DiffState(prev, cur)).List(af)
        == StampAll(prev.List(af), cur.List(af), af, gen, DiffState(prev, cur));
    if IndexOf(prev.List(af), name) >= 0 { assert prev.List(af)[IndexOf(prev.List(af), name)].ifname == name; }
  }

  // ----- runs

  /** One refresh: a state built from nothing by some operations, and its generation. */
  datatype Refresh = Refresh(max: nat, ops: seq<Op>, gen: nat) {
    function Built(): State {
      Run(max, ops)
    }
  }

  ghost predicate Fresh(l: seq<IfState>) {
    forall i :: 0 <= i < |l| ==> l[i].generation == 0
  }

  lemma {:induction false} BuiltIsFresh(max: nat, ops: seq<Op>)
    ensures Fresh(Run(max, ops).v4) && Fresh(Run(max, ops).v6)
  {
    if ops != [] {
      BuiltIsFresh(max, ops[..|ops| - 1]);
      ApplyKeepsFresh(Run(max, ops[..|ops| - 1]), ops[|ops| - 1]);
    }
  }

  lemma ApplyKeepsFresh(s: State, op: Op)
    requires Fresh(s.v4) && Fresh(s.v6)
    ensures Fresh(Apply(s, op).v4) && Fresh(Apply(s, op).v6)
  {
    if op.AddOp? {
      AddKeepsFresh(s, op.u, op.u.af);
      AddKeepsFresh(s, op.u, OtherAf(op.u.af));
    }
  }

  lemma AddKeepsFresh(s: State, u: Update, af: Af)
    requires Fresh(s.v4) && Fresh(s.v6)
    ensures Fresh(Add(s, u).0.List(af))
  {
    assert Fresh(s.List(u.af)) && Fresh(s.List(OtherAf(u.af)));
    if IndexOf(s.List(u.af), u.name) < 0 { AppendParts(s, u); }
  }

  lemma StampKeepsFamily(prev: State, cur: State, gen: nat, changes: State, af: Af)
    requires FamilyOk(cur, af)
    ensures FamilyOk(Stamped(prev, cur, gen, changes), af)
  {
    var l, l' := cur.List(af), Stamped(prev, cur, gen, changes).List(af);
    assert l' == StampAll(prev.List(af), l, af, gen, changes);
    assert forall i :: 0 <= i < |l| ==> l'[i] == l[i].(generation := l'[i].generation);
  }

  /** The state a refresh leaves: the built state, its generations filled in from the previous state. */
  function Advance(prev: State, step: Refresh): (s: State)
    requires FamiliesOk(prev)
    ensures FamiliesOk(s)
  {
    var cur := step.Built();
    RunFamilies(step.max, step.ops);
    StampKeepsFamily(prev, cur, step.gen, DiffState(prev, cur), Inet);
    StampKeepsFamily(prev, cur, step.gen, DiffState(prev, cur), Inet6);
    Stamped(prev, cur, step.gen, DiffState(prev, cur))
  }

  /** The state after the last of a run of refreshes, starting from no state at all. */
  function Latest(steps: seq<Refresh>): (s: State)
    ensures FamiliesOk(s)
  {
    if steps == [] then State(0, [], [])
    else Advance(Latest(steps[..|steps| - 1]), steps[|steps| - 1])
  }

  /** Public flags, address or rank of the interface changed at step k, in some family. */
  ghost predicate ChangedAt(steps: seq<Refresh>, k: nat, name: IfName)
    requires k < |steps|
  {
    FactsDiffer(Latest(steps[..k]), steps[k].Built(), name)
  }

  ghost predicate LatestChange(steps: seq<Refresh>, k: int, name: IfName) {
    && 0 <= k < |steps| && ChangedAt(steps, k, name)
    && forall m :: k < m < |steps| ==> !ChangedAt(steps, m, name)
  }

  /**
   After any run of refreshes with non-zero generations, the generation recorded for an interface
   in either family is that of the latest step at which what is known of it changed in some family.
   */
  lemma {:induction false} GenerationIsLatestChange(steps: seq<Refresh>, af: Af, i: nat) returns (k: int)
    requires forall n :: 0 <= n < |steps| ==> steps[n].gen > 0
    requires i < |Latest(steps).List(af)|
    ensures LatestChange(steps, k, Latest(steps).List(af)[i].ifname)
    ensures Latest(steps).List(af)[i].generation == steps[k].gen
    decreases |steps|
  {
    var n := |steps| - 1;
    var init, prev := steps[..n], Latest(steps[..n]);
    var name := Latest(steps).List(af)[i].ifname;
    AdvancedGeneration(prev, steps[n], af, i);
    if ChangedAt(steps, n, name) {
      k := n;
    } else {
      k := GenerationIsLatestChange(init, af, IndexOf(prev.List(af), name));
      ChangeExtends(steps, k, name);
    }
  }

  lemma AdvancedGeneration(prev: State, step: Refresh, af: Af, i: nat)
    requires FamiliesOk(prev) && step.gen > 0 && i < |Advance(prev, step).List(af)|
    ensures var e := Advance(prev, step).List(af)[i];
            if FactsDiffer(prev, step.Built(), e.ifname) then e.generation == step.gen
            else IndexOf(prev.List(af), e.ifname) >= 0
                 && e.generation == prev.List(af)[IndexOf(prev.List(af), e.ifname)].generation
  {
    var cur := step.Built();
    RunFamilies(step.max, step.ops);
    BuiltIsFresh(step.max, step.ops);
    ListCarried(prev, cur, af, step.gen);
    assert Advance(prev, step).List(af) == StampAll(prev.List(af), cur.List(af), af, step.gen, DiffState(prev, cur));
    StampedGeneration(prev, cur, step.gen, af, i);
    ChangedIffFactsDiffer(prev, cur, cur.List(af)[i].ifname);
    if !InterfaceChanged(DiffState(prev, cur), cur.List(af)[i].ifname) {
      UnmarkedPersists(prev, cur, af, cur.List(af)[i].ifname);
    }
  }

  /** One step on a freshly built state: the current generation if marked, else the previous record's. */
  lemma StampedGeneration(prev: State, cur: State, gen: nat, af: Af, i: nat)
    requires AllCarried(prev.List(af), cur.List(af), af, gen, DiffState(prev, cur))
    requires i < |cur.List(af)| && cur.List(af)[i].generation == 0 && gen > 0
    ensures var s, name := Stamped(prev, cur, gen, DiffState(prev, cur)), cur.List(af)[i].ifname;
            && i < |s.List(af)| == |cur.List(af)| && s.List(af)[i].ifname == name
            && (if InterfaceChanged(DiffState(prev, cur), name) then s.List(af)[i].generation == gen
                else IndexOf(prev.List(af), name) >= 0
                     && s.List(af)[i].generation == prev.List(af)[IndexOf(prev.List(af), name)].generation)
  {
    assert Carried(prev.List(af), cur.List(af)[i], af, gen, DiffState(prev, cur));
  }

  lemma ChangeExtends(steps: seq<Refresh>, k: int, name: IfName)
    requires steps != [] && LatestChange(steps[..|steps| - 1], k, name)
    requires !ChangedAt(steps, |steps| - 1, name)
    ensures LatestChange(steps, k, name)
  {
    ChangedInPrefix(steps, k, name);
    forall m | k < m < |steps| ensures !ChangedAt(steps, m, name) {
      if m < |steps| - 1 { UnchangedExtends(steps, k, m, name); }
    }
  }

  lemma UnchangedExtends(steps: seq<Refresh>, k: int, m: int, name: IfName)
    requires steps != [] && LatestChange(steps[..|steps| - 1], k, name) && k < m < |steps| - 1
    ensures !ChangedAt(steps, m, name)
  {
    assert !ChangedAt(steps[..|steps| - 1], m, name);
    ChangedInPrefix(steps, m, name);
  }

  lemma ChangedInPrefix(steps: seq<Refresh>, m: nat, name: IfName)
    requires m < |steps| - 1
    ensures ChangedAt(steps[..|steps| - 1], m, name) == ChangedAt(steps, m, name)
  {
    assert steps[..|steps| - 1][..m] == steps[..m];
  }

  /** Both families of one interface always record the same generation. */
  lemma FamiliesAgree(steps: seq<Refresh>, i: nat, j: nat)
    requires forall n :: 0 <= n < |steps| ==> steps[n].gen > 0
    requires i < |Latest(steps).v4| && j < |Latest(steps).v6|
    requires Latest(steps).v4[i].ifname == Latest(steps).v6[j].ifname
    ensures Latest(steps).v4[i].generation == Latest(steps).v6[j].generation
  {
    var k4 := GenerationIsLatestChange(steps, Inet, i);
    var k6 := GenerationIsLatestChange(steps, Inet6, j);
  }
}
