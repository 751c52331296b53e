/**
 What the bond update requests when some of its requests fail: all but the additions of members stay
 legal, whatever failed before them.
 */
module BondSafety {
  import opened BondKernel
  import opened BondPlan
  import opened BondReconcile

  /** A legal request, or the addition of a member to a bond that there is. */
  predicate Sound(e: Event) {
    if e.step.AddMember? then e.step.bond in e.before else Legal(e.before, e.step)
  }

  ghost predicate AllSound(log: seq<Event>, n: nat) {
    forall j :: n <= j < |log| ==> Sound(log[j])
  }

  lemma SoundNext(k: State, allows: nat -> bool, n: nat, step: Step)
    requires AllSound(k.log, n)
    requires if step.AddMember? then step.bond in k.table else Legal(k.table, step)
    ensures AllSound(Issue(k, allows, step).log, n)
  {
    var log := Issue(k, allows, step).log;
    forall j | n <= j < |log| ensures Sound(log[j]) {
      if j < |k.log| { assert log[j] == k.log[j]; }
    }
  }

  // ----- requests for one bond

  /** Only the bond b differs between the tables. */
  ghost predicate SameBeside(t: Table, t': Table, b: Name) {
    forall c :: c != b ==> (c in t <==> c in t') && (c in t ==> t'[c] == t[c])
  }

  /** The requests are for the bond b, none of them creates or destroys it, and no member is removed twice. */
  ghost predicate Within(steps: seq<Step>, b: Name) {
    && (forall i :: 0 <= i < |steps| ==> !steps[i].CreateBond? && !steps[i].DestroyBond? && steps[i].bond == b)
    && forall i, j :: 0 <= i < j < |steps| && steps[i].RemoveMember? && steps[j].RemoveMember? ==> steps[i].member != steps[j].member
  }

  /** The members that requests from number i on remove are there. */
  ghost predicate Removable(t: Table, b: Name, steps: seq<Step>, i: nat) {
    b in t && forall j :: i <= j < |steps| && steps[j].RemoveMember? ==> steps[j].member in t[b].members
  }

  /** What is not removed stays. */
  ghost predicate KeptBut(t: Table, t': Table, b: Name, steps: seq<Step>)
    requires b in t && b in t'
  {
    forall x :: x in t[b].members && RemoveMember(b, x) !in steps ==> x in t'[b].members
  }

  /** Requests for one bond are sound one after the other, granted or not. */
  lemma {:induction false} StepsSound(k: State, allows: nat -> bool, n: nat, b: Name, steps: seq<Step>, i: nat)
    requires i <= |steps| && Within(steps, b) && Removable(k.table, b, steps, 0) && AllSound(k.log, n)
    ensures var k' := IssueAll(k, allows, steps[..i]);
            && AllSound(k'.log, n) && SameBeside(k.table, k'.table, b)
            && Removable(k'.table, b, steps, i) && KeptBut(k.table, k'.table, b, steps[..i])
  {
    if i > 0 {
      StepsSound(k, allows, n, b, steps, i - 1);
      assert steps[..i][..i - 1] == steps[..i - 1] && steps[..i] == steps[..i - 1] + [steps[i - 1]];
      var k1, step := IssueAll(k, allows, steps[..i - 1]), steps[i - 1];
      SoundNext(k1, allows, n, step);
    }
  }

  lemma AllStepsSound(k: State, allows: nat -> bool, n: nat, b: Name, steps: seq<Step>)
    requires Within(steps, b) && Removable(k.table, b, steps, 0) && AllSound(k.log, n)
    ensures var k' := IssueAll(k, allows, steps);
            && AllSound(k'.log, n) && SameBeside(k.table, k'.table, b) && b in k'.table
            && KeptBut(k.table, k'.table, b, steps)
  {
    StepsSound(k, allows, n, b, steps, |steps|);
    assert steps[..|steps|] == steps;
  }

  // ----- first phase

  /** The bond of an active configuration is there, with the members that are to stay. */
  ghost predicate Stays(t: Table, a: Config, keep: seq<Name>) {
    a.name in t && forall x :: x in a.members && x in keep ==> x in t[a.name].members
  }

  /** How far the bond of a is cleaned up. */
  ghost predicate CleanedSafe(t: Table, config: seq<Config>, a: Config, done: bool) {
    var j := Find(config, a.name);
    if !done then Stays(t, a, a.members) else j >= 0 ==> Stays(t, a, config[j].members)
  }

  ghost predicate CleanedTo(t: Table, config: seq<Config>, active: seq<Config>, i: nat) {
    && (forall b :: b in t ==> Find(active, b) >= 0)
    && forall x :: 0 <= x < |active| ==> CleanedSafe(t, config, active[x], x < i)
  }

  lemma RemovesWithin(b: Name, rs: seq<Name>)
    requires NoDup(rs)
    ensures Within(Removes(b, rs), b)
  {
  }

  /** After the requests for the i-th active bond, sound ones, the others are as they were. */
  lemma CleanedOneFurther(t: Table, t': Table, config: seq<Config>, active: seq<Config>, i: nat)
    requires DistinctBonds(active) && i < |active| && CleanedTo(t, config, active, i)
    requires SameBeside(t, t', active[i].name) && CleanedSafe(t', config, active[i], true)
    ensures CleanedTo(t', config, active, i + 1)
  {
    forall x | 0 <= x < |active| ensures CleanedSafe(t', config, active[x], x < i + 1) {
      assert CleanedSafe(t, config, active[x], x < i);
      if x != i { assert active[x].name != active[i].name; }
    }
    forall b | b in t' ensures Find(active, b) >= 0 {
      if b != active[i].name { assert b in t; }
    }
  }

  lemma CleanupOneSound(k: State, allows: nat -> bool, n: nat, config: seq<Config>, active: seq<Config>, i: nat)
    requires Exclusive(active) && i < |active| && CleanedTo(k.table, config, active, i) && AllSound(k.log, n)
    ensures var k' := IssueAll(k, allows, CleanupSteps(config, active[i]));
            AllSound(k'.log, n) && CleanedTo(k'.table, config, active, i + 1)
  {
    var a := active[i];
    var j, k' := Find(config, a.name), IssueAll(k, allows, CleanupSteps(config, a));
    assert CleanedSafe(k.table, config, a, false);
    if j < 0 {
      IssueOne(k, allows, DestroyBond(a.name));
      SoundNext(k, allows, n, DestroyBond(a.name));
    } else {
      var rs := NotIn(a.members, config[j].members);
      NotInNoDup(a.members, config[j].members);
      RemovesWithin(a.name, rs);
      AllStepsSound(k, allows, n, a.name, Removes(a.name, rs));
      forall x | x in a.members && x in config[j].members ensures x in k'.table[a.name].members {
        assert RemoveMember(a.name, x) !in Removes(a.name, rs);
      }
    }
    CleanedOneFurther(k.table, k'.table, config, active, i);
  }

  lemma {:induction false} CleanupSound(k: State, allows: nat -> bool, n: nat, config: seq<Config>, active: seq<Config>, i: nat)
    requires Exclusive(active) && i <= |active| && CleanedTo(k.table, config, active, 0) && AllSound(k.log, n)
    ensures var k' := Cleanup(k, allows, config, active[..i]);
            AllSound(k'.log, n) && CleanedTo(k'.table, config, active, i)
    decreases i
  {
    if i > 0 {
      CleanupSound(k, allows, n, config, active, i - 1);
      assert active[..i][..i - 1] == active[..i - 1];
      CleanupOneSound(Cleanup(k, allows, config, active[..i - 1]), allows, n, config, active, i - 1);
    }
  }

  // ----- second phase

  /** What the requests for a configured bond rely on. */
  ghost predicate Ready(t: Table, c: Config, active: seq<Config>) {
    var j := Find(active, c.name);
    if j < 0 then c.name !in t else Stays(t, active[j], c.members)
  }

  ghost predicate ReadyFrom(t: Table, config: seq<Config>, active: seq<Config>, i: nat) {
    forall x :: i <= x < |config| ==> Ready(t, config[x], active)
  }

  lemma AdjustWithin(c: Config, a: Config, supports: Name -> bool)
    requires NoDup(a.members) && a.name == c.name
    ensures Within(AdjustSteps(c, a, supports), c.name)
    ensures forall i :: 0 <= i < |AdjustSteps(c, a, supports)| && AdjustSteps(c, a, supports)[i].RemoveMember?
              ==> var x := AdjustSteps(c, a, supports)[i].member; x in a.members && x in c.members
  {
    var resets := if FirstDiffers(c, a) then Both(a.members, c.members) else [];
    BothNoDup(a.members, c.members);
    if c.members == a.members {
      assert ModeSteps(c, a) + [] == ModeSteps(c, a);
    } else {
      assert ResetSteps(c, a) == Removes(a.name, resets);
      PartsWithin(c.name, ModeSteps(c, a), resets, Missing(c, a, supports));
    }
  }

  /** Mode settings, then removals of different members, then additions. */
  lemma PartsWithin(b: Name, modes: seq<Step>, rs: seq<Name>, xs: seq<Name>)
    requires (forall i :: 0 <= i < |modes| ==> modes[i].SetMode? && modes[i].bond == b) && NoDup(rs)
    ensures var steps := modes + (Removes(b, rs) + Adds(b, xs));
            Within(steps, b) && forall i :: 0 <= i < |steps| && steps[i].RemoveMember? ==> steps[i].member in rs
  {
    var steps := modes + (Removes(b, rs) + Adds(b, xs));
    forall i | 0 <= i < |steps|
      ensures steps[i].bond == b && !steps[i].CreateBond? && !steps[i].DestroyBond?
      ensures steps[i].RemoveMember? ==> 0 <= i - |modes| < |rs| && steps[i].member == rs[i - |modes|]
    {
    }
  }

  lemma SetUpOneSound(k: State, allows: nat -> bool, n: nat, c: Config, active: seq<Config>, supports: Name -> bool)
    requires Exclusive(active) && Ready(k.table, c, active) && AllSound(k.log, n)
    ensures var k' := SetUpOne(k, allows, c, active, supports);
            AllSound(k'.log, n) && SameBeside(k.table, k'.table, c.name)
  {
    var j := Find(active, c.name);
    if j >= 0 {
      AdjustWithin(c, active[j], supports);
      AllStepsSound(k, allows, n, c.name, AdjustSteps(c, active[j], supports));
    } else {
      var k1 := Issue(k, allows, CreateBond(c.name));
      SoundNext(k, allows, n, CreateBond(c.name));
      if k1.log[|k1.log| - 1].granted {
        AllStepsSound(k1, allows, n, c.name, FillSteps(c, supports));
      }
    }
  }

  lemma {:induction false} SetUpSound(k: State, allows: nat -> bool, n: nat, config: seq<Config>, active: seq<Config>,
                                      supports: Name -> bool, i: nat)
    requires DistinctBonds(config) && Exclusive(active) && i <= |config| && ReadyFrom(k.table, config, active, 0) && AllSound(k.log, n)
    ensures var k' := SetUp(k, allows, config[..i], active, supports);
            AllSound(k'.log, n) && ReadyFrom(k'.table, config, active, i)
    decreases i
  {
    if i > 0 {
      SetUpSound(k, allows, n, config, active, supports, i - 1);
      assert config[..i][..i - 1] == config[..i - 1];
      var k1 := SetUp(k, allows, config[..i - 1], active, supports);
      var k' := SetUpOne(k1, allows, config[i - 1], active, supports);
      SetUpOneSound(k1, allows, n, config[i - 1], active, supports);
      forall x | i <= x < |config| ensures Ready(k'.table, config[x], active) {
        assert Ready(k1.table, config[x], active) && config[x].name != config[i - 1].name;
      }
    }
  }

  /**
   Whatever failed before it, every request of the update other than the addition of a member is legal
   when it is made, and members are only added to bonds that there are.
   */
  lemma UpdateIsSound(k: State, allows: nat -> bool, config: seq<Config>, active: seq<Config>, supports: Name -> bool)
    requires DistinctBonds(config) && Exclusive(active) && Faithful(active, k.table)
    ensures AllSound(Update(k, allows, config, active, supports).log, |k.log|)
  {
    var n := |k.log|;
    forall x | 0 <= x < |active| ensures CleanedSafe(k.table, config, active[x], false) {
      assert active[x].name in k.table;
    }
    CleanupSound(k, allows, n, config, active, |active|);
    assert active[..|active|] == active && config[..|config|] == config;
    var k1 := Cleanup(k, allows, config, active);
    forall x | 0 <= x < |config| ensures Ready(k1.table, config[x], active) {
      FindUnique(config, x);
      var j := Find(active, config[x].name);
      if j >= 0 { assert CleanedSafe(k1.table, config, active[j], true); }
    }
    SetUpSound(k1, allows, n, config, active, supports, |config|);
  }
}
