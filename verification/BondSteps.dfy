/**
 More about a whole bond update: why each request is made, the modes it leaves behind, and that a
 successful update leaves nothing for the next one to do.
 */
module BondSteps {
  import opened BondKernel
  import opened BondPlan
  import opened BondReconcile

  // ----- every request has a reason

  ghost predicate Justified(step: Step, config: seq<Config>, active: seq<Config>, supports: Name -> bool) {
    var i, j := Find(config, step.bond), Find(active, step.bond);
    match step
    case CreateBond(_) => i >= 0 && j < 0
    case DestroyBond(_) => i < 0 && j >= 0
    case AddMember(_, x) =>
      i >= 0 && x in config[i].members && supports(x)
      && (j >= 0 && x in active[j].members ==> config[i].members[0] != active[j].members[0])
    case RemoveMember(_, x) =>
      i >= 0 && j >= 0 && x in active[j].members
      && (x in config[i].members ==> config[i].members[0] != active[j].members[0])
    case SetMode(_, mode) => i >= 0 && mode == config[i].mode && (j >= 0 ==> mode != active[j].mode)
  }

  ghost predicate AllJustified(log: seq<Event>, n: nat, config: seq<Config>, active: seq<Config>, supports: Name -> bool) {
    forall e :: n <= e < |log| ==> Justified(log[e].step, config, active, supports)
  }

  lemma {:induction false} IssueAllJustified(k: State, allows: nat -> bool, steps: seq<Step>, n: nat,
                                             config: seq<Config>, active: seq<Config>, supports: Name -> bool)
    requires n <= |k.log| && AllJustified(k.log, n, config, active, supports)
    requires forall s :: 0 <= s < |steps| ==> Justified(steps[s], config, active, supports)
    ensures n <= |IssueAll(k, allows, steps).log|
    ensures AllJustified(IssueAll(k, allows, steps).log, n, config, active, supports)
  {
    if steps != [] {
      IssueAllJustified(k, allows, steps[..|steps| - 1], n, config, active, supports);
    }
  }

  lemma CleanupStepsJustified(config: seq<Config>, active: seq<Config>, supports: Name -> bool, i: nat)
    requires DistinctBonds(active) && i < |active|
    ensures forall s :: 0 <= s < |CleanupSteps(config, active[i])| ==>
              Justified(CleanupSteps(config, active[i])[s], config, active, supports)
  {
    FindUnique(active, i);
    var j := Find(config, active[i].name);
    if j >= 0 {
      var rs := NotIn(active[i].members, config[j].members);
      forall s | 0 <= s < |rs| ensures Justified(RemoveMember(active[i].name, rs[s]), config, active, supports) {
        assert rs[s] in rs;
      }
    }
  }

  ghost predicate StepsJustified(steps: seq<Step>, config: seq<Config>, active: seq<Config>, supports: Name -> bool) {
    forall s :: 0 <= s < |steps| ==> Justified(steps[s], config, active, supports)
  }

  lemma ResetJustified(config: seq<Config>, active: seq<Config>, supports: Name -> bool, i: nat)
    requires DistinctBonds(config) && i < |config| && Find(active, config[i].name) >= 0
    ensures StepsJustified(ResetSteps(config[i], active[Find(active, config[i].name)]), config, active, supports)
  {
    FindUnique(config, i);
    var c, a := config[i], active[Find(active, config[i].name)];
    var kept := Both(a.members, c.members);
    forall s | 0 <= s < |kept| && FirstDiffers(c, a) ensures Justified(RemoveMember(a.name, kept[s]), config, active, supports) {
      assert kept[s] in kept;
    }
  }

  lemma MissingJustified(config: seq<Config>, active: seq<Config>, supports: Name -> bool, i: nat)
    requires DistinctBonds(config) && i < |config| && Find(active, config[i].name) >= 0
    ensures var c, a := config[i], active[Find(active, config[i].name)];
            StepsJustified(Adds(c.name, Missing(c, a, supports)), config, active, supports)
  {
    FindUnique(config, i);
    var c, a := config[i], active[Find(active, config[i].name)];
    var xs := Missing(c, a, supports);
    forall s | 0 <= s < |xs| ensures Justified(AddMember(c.name, xs[s]), config, active, supports) {
      assert xs[s] in xs;
    }
  }

  lemma AdjustStepsJustified(config: seq<Config>, active: seq<Config>, supports: Name -> bool, i: nat)
    requires DistinctBonds(config) && i < |config| && Find(active, config[i].name) >= 0
    ensures StepsJustified(AdjustSteps(config[i], active[Find(active, config[i].name)], supports), config, active, supports)
  {
    FindUnique(config, i);
    var c, a := config[i], active[Find(active, config[i].name)];
    ResetJustified(config, active, supports, i);
    MissingJustified(config, active, supports, i);
    assert StepsJustified(ModeSteps(c, a), config, active, supports);
    assert StepsJustified(ListSteps(c, a, supports), config, active, supports);
  }

  lemma SetUpOneJustified(k: State, allows: nat -> bool, config: seq<Config>, active: seq<Config>, supports: Name -> bool,
                          i: nat, n: nat)
    requires DistinctBonds(config) && i < |config| && n <= |k.log| && AllJustified(k.log, n, config, active, supports)
    ensures var k' := SetUpOne(k, allows, config[i], active, supports);
            n <= |k'.log| && AllJustified(k'.log, n, config, active, supports)
  {
    var c := config[i];
    FindUnique(config, i);
    if Find(active, c.name) < 0 {
      var k1 := Issue(k, allows, CreateBond(c.name));
      assert AllJustified(k1.log, n, config, active, supports);
      var xs := Supported(c.members, supports);
      forall s | 0 <= s < |xs| ensures Justified(AddMember(c.name, xs[s]), config, active, supports) {
        assert xs[s] in xs;
      }
      IssueAllJustified(k1, allows, FillSteps(c, supports), n, config, active, supports);
    } else {
      AdjustStepsJustified(config, active, supports, i);
      IssueAllJustified(k, allows, AdjustSteps(c, active[Find(active, c.name)], supports), n, config, active, supports);
    }
  }

  lemma {:induction false} CleanupJustified(k: State, allows: nat -> bool, config: seq<Config>, active: seq<Config>,
                                            supports: Name -> bool, i: nat)
    requires DistinctBonds(active) && i <= |active|
    ensures |k.log| <= |Cleanup(k, allows, config, active[..i]).log|
    ensures AllJustified(Cleanup(k, allows, config, active[..i]).log, |k.log|, config, active, supports)
    decreases i
  {
    if i > 0 {
      CleanupJustified(k, allows, config, active, supports, i - 1);
      assert active[..i][..i - 1] == active[..i - 1];
      CleanupStepsJustified(config, active, supports, i - 1);
      IssueAllJustified(Cleanup(k, allows, config, active[..i - 1]), allows, CleanupSteps(config, active[i - 1]),
                        |k.log|, config, active, supports);
    }
  }

  lemma {:induction false} SetUpJustified(k: State, allows: nat -> bool, config: seq<Config>, active: seq<Config>,
                                          supports: Name -> bool, i: nat, n: nat)
    requires DistinctBonds(config) && i <= |config| && n <= |k.log| && AllJustified(k.log, n, config, active, supports)
    ensures n <= |SetUp(k, allows, config[..i], active, supports).log|
    ensures AllJustified(SetUp(k, allows, config[..i], active, supports).log, n, config, active, supports)
    decreases i
  {
    if i > 0 {
      SetUpJustified(k, allows, config, active, supports, i - 1, n);
      assert config[..i][..i - 1] == config[..i - 1];
      SetUpOneJustified(SetUp(k, allows, config[..i - 1], active, supports), allows, config, active, supports, i - 1, n);
    }
  }

  /**
   No request is idle, whatever fails: in particular an active, configured member is removed only when the
   configured and the active list start with different members, and no bond that stays is destroyed or created.
   */
  lemma UpdateIsMinimal(k: State, allows: nat -> bool, config: seq<Config>, active: seq<Config>, supports: Name -> bool)
    requires DistinctBonds(config) && DistinctBonds(active)
    ensures AllJustified(Update(k, allows, config, active, supports).log, |k.log|, config, active, supports)
  {
    assert active[..|active|] == active && config[..|config|] == config;
    CleanupJustified(k, allows, config, active, supports, |active|);
    SetUpJustified(Cleanup(k, allows, config, active), allows, config, active, supports, |config|, |k.log|);
  }

  // ----- modes

  ghost predicate AllGranted(log: seq<Event>, n: nat) {
    forall e :: n <= e < |log| ==> log[e].granted
  }

  lemma {:induction false} LogGrows(k: State, allows: nat -> bool, steps: seq<Step>)
    ensures k.log <= IssueAll(k, allows, steps).log
    ensures |IssueAll(k, allows, steps).log| == |k.log| + |steps|
  {
    if steps != [] { LogGrows(k, allows, steps[..|steps| - 1]); }
  }

  /** Requests that only move members of a bond, or concern other bonds, keep it and its mode. */
  ghost predicate KeepsMode(step: Step, b: Name) {
    step.bond != b || step.AddMember? || step.RemoveMember?
  }

  lemma {:induction false} ModeKept(k: State, allows: nat -> bool, steps: seq<Step>, b: Name)
    requires b in k.table && forall s :: 0 <= s < |steps| ==> KeepsMode(steps[s], b)
    ensures b in IssueAll(k, allows, steps).table && IssueAll(k, allows, steps).table[b].mode == k.table[b].mode
  {
    if steps != [] {
      ModeKept(k, allows, steps[..|steps| - 1], b);
      assert KeepsMode(steps[|steps| - 1], b);
    }
  }

  lemma {:induction false} CleanupKeepsMode(k: State, allows: nat -> bool, config: seq<Config>, active: seq<Config>, b: Name)
    requires b in k.table && Find(config, b) >= 0
    ensures b in Cleanup(k, allows, config, active).table
    ensures Cleanup(k, allows, config, active).table[b].mode == k.table[b].mode
    ensures k.log <= Cleanup(k, allows, config, active).log
  {
    if active != [] {
      var n := |active| - 1;
      CleanupKeepsMode(k, allows, config, active[..n], b);
      ModeKept(Cleanup(k, allows, config, active[..n]), allows, CleanupSteps(config, active[n]), b);
      LogGrows(Cleanup(k, allows, config, active[..n]), allows, CleanupSteps(config, active[n]));
    }
  }

  lemma SetUpOneKeepsOtherMode(k: State, allows: nat -> bool, c: Config, active: seq<Config>, supports: Name -> bool, b: Name)
    requires b in k.table && b != c.name
    ensures var k' := SetUpOne(k, allows, c, active, supports);
            k.log <= k'.log && b in k'.table && k'.table[b].mode == k.table[b].mode
  {
    var j := Find(active, c.name);
    if j < 0 {
      var k1 := Issue(k, allows, CreateBond(c.name));
      ModeKept(k1, allows, FillSteps(c, supports), b);
      LogGrows(k1, allows, FillSteps(c, supports));
    } else {
      ModeKept(k, allows, AdjustSteps(c, active[j], supports), b);
      LogGrows(k, allows, AdjustSteps(c, active[j], supports));
    }
  }

  lemma SetUpOneLog(k: State, allows: nat -> bool, c: Config, active: seq<Config>, supports: Name -> bool)
    ensures k.log <= SetUpOne(k, allows, c, active, supports).log
  {
    var j := Find(active, c.name);
    if j < 0 { LogGrows(Issue(k, allows, CreateBond(c.name)), allows, FillSteps(c, supports)); }
    else { LogGrows(k, allows, AdjustSteps(c, active[j], supports)); }
  }

  lemma SetModeGranted(k: State, allows: nat -> bool, b: Name, mode: int, rest: seq<Step>, k': State)
    requires k' == IssueAll(Issue(k, allows, SetMode(b, mode)), allows, rest) && AllGranted(k'.log, |k.log|)
    requires forall s :: 0 <= s < |rest| ==> KeepsMode(rest[s], b)
    ensures b in k'.table && k'.table[b].mode == mode
  {
    var k1 := Issue(k, allows, SetMode(b, mode));
    LogGrows(k1, allows, rest);
    assert k1.log[|k.log|].granted by { FirstGranted(k.log, k1.log, k'.log); }
    GrantedSetsMode(k, allows, b, mode);
    ModeKept(k1, allows, rest, b);
  }

  lemma GrantedSetsMode(k: State, allows: nat -> bool, b: Name, mode: int)
    requires Issue(k, allows, SetMode(b, mode)).log[|k.log|].granted
    ensures var t := Issue(k, allows, SetMode(b, mode)).table; b in t && t[b].mode == mode
  {
  }

  lemma FirstGranted(log: seq<Event>, log1: seq<Event>, log2: seq<Event>)
    requires |log1| == |log| + 1 && log1 <= log2 && AllGranted(log2, |log|)
    ensures log1[|log|].granted
  {
    assert log2[|log|] == log1[|log|];
  }

  lemma SetUpOneSetsMode(k: State, allows: nat -> bool, c: Config, active: seq<Config>, supports: Name -> bool)
    requires AllGranted(SetUpOne(k, allows, c, active, supports).log, |k.log|)
    requires var j := Find(active, c.name); j >= 0 ==> c.name in k.table && k.table[c.name].mode == active[j].mode
    ensures var t := SetUpOne(k, allows, c, active, supports).table; c.name in t && t[c.name].mode == c.mode
  {
    var j := Find(active, c.name);
    var k' := SetUpOne(k, allows, c, active, supports);
    if j < 0 {
      var k1 := Issue(k, allows, CreateBond(c.name));
      LogGrows(k1, allows, FillSteps(c, supports));
      FirstGranted(k.log, k1.log, k'.log);
      SetModeFirst(k1, allows, c.name, c.mode, Adds(c.name, Supported(c.members, supports)));
      SetModeGranted(k1, allows, c.name, c.mode, Adds(c.name, Supported(c.members, supports)), k');
    } else if c.mode != active[j].mode {
      SetModeFirst(k, allows, c.name, c.mode, ListSteps(c, active[j], supports));
      SetModeGranted(k, allows, c.name, c.mode, ListSteps(c, active[j], supports), k');
    } else {
      ModeKept(k, allows, AdjustSteps(c, active[j], supports), c.name);
    }
  }

  lemma SetModeFirst(k: State, allows: nat -> bool, b: Name, mode: int, rest: seq<Step>)
    ensures IssueAll(k, allows, [SetMode(b, mode)] + rest) == IssueAll(Issue(k, allows, SetMode(b, mode)), allows, rest)
  {
    IssueAllAppend(k, allows, [SetMode(b, mode)], rest);
    IssueOne(k, allows, SetMode(b, mode));
  }

  ghost predicate ModesUpTo(t: Table, config: seq<Config>, active: seq<Config>, i: nat) {
    forall x :: 0 <= x < |config| ==>
      var b := config[x].name;
      if x < i then b in t && t[b].mode == config[x].mode
      else Find(active, b) >= 0 ==> b in t && t[b].mode == active[Find(active, b)].mode
  }

  lemma {:induction false} SetUpModes(k: State, allows: nat -> bool, config: seq<Config>, active: seq<Config>,
                                      supports: Name -> bool, i: nat)
    requires DistinctBonds(config) && i <= |config| && ModesUpTo(k.table, config, active, 0)
    requires AllGranted(SetUp(k, allows, config[..i], active, supports).log, |k.log|)
    ensures k.log <= SetUp(k, allows, config[..i], active, supports).log
    ensures ModesUpTo(SetUp(k, allows, config[..i], active, supports).table, config, active, i)
    decreases i
  {
    if i > 0 {
      assert config[..i][..i - 1] == config[..i - 1];
      var k1 := SetUp(k, allows, config[..i - 1], active, supports);
      var k2 := SetUpOne(k1, allows, config[i - 1], active, supports);
      SetUpOneLog(k1, allows, config[i - 1], active, supports);
      assert forall e :: 0 <= e < |k1.log| ==> k1.log[e] == k2.log[e];
      SetUpModes(k, allows, config, active, supports, i - 1);
      SetUpOneSetsMode(k1, allows, config[i - 1], active, supports);
      forall x | 0 <= x < |config| && x != i - 1 && config[x].name in k1.table
        ensures config[x].name in k2.table && k2.table[config[x].name].mode == k1.table[config[x].name].mode
      {
        SetUpOneKeepsOtherMode(k1, allows, config[i - 1], active, supports, config[x].name);
      }
    }
  }

  /** When every request was granted, mode settings included, each configured bond has its mode. */
  lemma UpdateSetsModes(k: State, allows: nat -> bool, config: seq<Config>, active: seq<Config>, supports: Name -> bool)
    requires DistinctBonds(config) && Faithful(active, k.table)
    requires AllGranted(Update(k, allows, config, active, supports).log, |k.log|)
    ensures var t := Update(k, allows, config, active, supports).table;
            forall x :: 0 <= x < |config| ==> config[x].name in t && t[config[x].name].mode == config[x].mode
  {
    var k1 := Cleanup(k, allows, config, active);
    CleanupLog(k, allows, config, active);
    forall x | 0 <= x < |config| && Find(active, config[x].name) >= 0
      ensures config[x].name in k1.table && k1.table[config[x].name].mode == active[Find(active, config[x].name)].mode
    {
      var j := Find(active, config[x].name);
      assert active[j].name in k.table;
      CleanupKeepsMode(k, allows, config, active, config[x].name);
    }
    assert config[..|config|] == config;
    SetUpModes(k1, allows, config, active, supports, |config|);
  }

  lemma {:induction false} CleanupLog(k: State, allows: nat -> bool, config: seq<Config>, active: seq<Config>)
    ensures k.log <= Cleanup(k, allows, config, active).log
  {
    if active != [] {
      var n := |active| - 1;
      CleanupLog(k, allows, config, active[..n]);
      LogGrows(Cleanup(k, allows, config, active[..n]), allows, CleanupSteps(config, active[n]));
    }
  }

  // ----- nothing left to do

  lemma {:induction false} CleanupIdle(k: State, allows: nat -> bool, config: seq<Config>, active: seq<Config>)
    requires forall i :: 0 <= i < |active| ==> CleanupSteps(config, active[i]) == []
    ensures Cleanup(k, allows, config, active) == k
  {
    if active != [] {
      CleanupIdle(k, allows, config, active[..|active| - 1]);
      assert CleanupSteps(config, active[|active| - 1]) == [];
    }
  }

  lemma {:induction false} SetUpIdle(k: State, allows: nat -> bool, config: seq<Config>, active: seq<Config>, supports: Name -> bool)
    requires forall i :: 0 <= i < |config| ==> InPlace(config[i], active, supports)
    ensures SetUp(k, allows, config, active, supports) == k
  {
    if config != [] {
      SetUpIdle(k, allows, config[..|config| - 1], active, supports);
      assert InPlace(config[|config| - 1], active, supports);
    }
  }

  ghost predicate InPlace(c: Config, active: seq<Config>, supports: Name -> bool) {
    Find(active, c.name) >= 0 && AdjustSteps(c, active[Find(active, c.name)], supports) == []
  }

  /** The configured bond as an update that is granted everything leaves it. */
  function Left(c: Config, active: seq<Config>, supports: Name -> bool): Config {
    Config(c.name, c.mode, Final(c, active, supports))
  }

  /**
   The configured first member does not support bonding and was not the bond's first one, and some
   other configured member does support it.
   */
  ghost predicate Unsettled(c: Config, active: seq<Config>, supports: Name -> bool) {
    var j := Find(active, c.name);
    && c.members != [] && !supports(c.members[0]) && (exists x :: x in c.members && supports(x))
    && (j < 0 || active[j].members == [] || c.members[0] != active[j].members[0])
  }

  /** Then, and only then, the first members still differ after the update. */
  lemma UnsettledIffFirstDiffers(c: Config, active: seq<Config>, supports: Name -> bool)
    ensures FirstDiffers(c, Left(c, active, supports)) <==> Unsettled(c, active, supports)
  {
    var j, some := Find(active, c.name), Supported(c.members, supports);
    if c.members != [] {
      if supports(c.members[0]) { SupportedFirst(c.members, supports); }
      assert some != [] ==> some[0] in some;
      if j >= 0 && !FirstDiffers(c, active[j]) {
        if active[j].members == [] { NotInNone(c.members); } else { BothFirst(active[j].members, c.members); }
      }
    }
  }

  /** A bond left by an update needs nothing more unless the first members differ. */
  lemma LeftInPlace(c: Config, active: seq<Config>, supports: Name -> bool)
    requires !FirstDiffers(c, Left(c, active, supports))
    ensures AdjustSteps(c, Left(c, active, supports), supports) == []
  {
    var ms := Final(c, active, supports);
    assert forall x :: x in c.members && supports(x) ==> x in ms;
    SupportedNone(NotIn(c.members, ms), supports);
    BothSelf(ms, c.members);
  }

  lemma {:induction false} SupportedNone(ms: seq<Name>, supports: Name -> bool)
    requires forall x :: x in ms ==> !supports(x)
    ensures Supported(ms, supports) == []
  {
    if ms != [] {
      assert ms[|ms| - 1] in ms;
      SupportedNone(ms[..|ms| - 1], supports);
    }
  }

  lemma LeftKeepsMembers(c: Config, active: seq<Config>, supports: Name -> bool)
    ensures NotIn(Final(c, active, supports), c.members) == []
  {
    BothSelf(Final(c, active, supports), c.members);
  }

  /** If they differ, its members are removed and added again. */
  lemma LeftIsReset(c: Config, active: seq<Config>, supports: Name -> bool)
    requires FirstDiffers(c, Left(c, active, supports))
    ensures AdjustSteps(c, Left(c, active, supports), supports) != []
  {
    var a := Left(c, active, supports);
    assert a.members[0] in Both(a.members, c.members);
  }

  lemma {:induction false} LogLength(k: State, allows: nat -> bool, steps: seq<Step>)
    ensures |IssueAll(k, allows, steps).log| == |k.log| + |steps|
  {
    if steps != [] { LogLength(k, allows, steps[..|steps| - 1]); }
  }

  lemma SetUpLastLog(k: State, allows: nat -> bool, config: seq<Config>, active: seq<Config>, supports: Name -> bool)
    requires config != []
    ensures |SetUp(k, allows, config[..|config| - 1], active, supports).log| <= |SetUp(k, allows, config, active, supports).log|
  {
    var n := |config| - 1;
    SetUpOneLog(SetUp(k, allows, config[..n], active, supports), allows, config[n], active, supports);
  }

  lemma {:induction false} SetUpLog(k: State, allows: nat -> bool, config: seq<Config>, active: seq<Config>, supports: Name -> bool, i: nat)
    requires i <= |config|
    ensures |SetUp(k, allows, config[..i], active, supports).log| <= |SetUp(k, allows, config, active, supports).log|
  {
    var n := |config| - 1;
    if i <= n {
      assert config[..n][..i] == config[..i];
      SetUpLog(k, allows, config[..n], active, supports, i);
      SetUpLastLog(k, allows, config, active, supports);
    } else {
      assert config[..i] == config;
    }
  }

  lemma SetUpOneIssues(k: State, allows: nat -> bool, c: Config, active: seq<Config>, supports: Name -> bool)
    requires Find(active, c.name) >= 0 && !InPlace(c, active, supports)
    ensures |k.log| < |SetUpOne(k, allows, c, active, supports).log|
  {
    LogLength(k, allows, AdjustSteps(c, active[Find(active, c.name)], supports));
  }

  /** An active bond that is not in place gets a request. */
  lemma SetUpIssues(k: State, allows: nat -> bool, config: seq<Config>, active: seq<Config>, supports: Name -> bool, i: nat)
    requires i < |config| && Find(active, config[i].name) >= 0 && !InPlace(config[i], active, supports)
    ensures |k.log| < |SetUp(k, allows, config, active, supports).log|
  {
    assert config[..0] == [] && config[..i + 1][..i] == config[..i] && config[..i][..0] == [];
    SetUpLog(k, allows, config[..i], active, supports, 0);
    SetUpOneIssues(SetUp(k, allows, config[..i], active, supports), allows, config[i], active, supports);
    SetUpLog(k, allows, config, active, supports, i + 1);
  }

  /** After an update whose every request was granted, a fresh snapshot lists the bonds as they were left. */
  lemma SnapshotAfter(k: State, allows: nat -> bool, config: seq<Config>, active: seq<Config>, supports: Name -> bool,
                      k': State, active': seq<Config>)
    requires Exclusive(config) && Exclusive(active) && Faithful(active, k.table)
    requires k' == Update(k, allows, config, active, supports) && AllGranted(k'.log, |k.log|) && Faithful(active', k'.table)
    ensures forall i :: 0 <= i < |config| ==>
              var j := Find(active', config[i].name); j >= 0 && active'[j] == Left(config[i], active, supports)
    ensures forall j :: 0 <= j < |active'| ==> CleanupSteps(config, active'[j]) == []
  {
    UpdateConverges(k, allows, config, active, supports);
    UpdateSetsModes(k, allows, config, active, supports);
    forall i | 0 <= i < |config|
      ensures var j := Find(active', config[i].name); j >= 0 && active'[j] == Left(config[i], active, supports)
    {
      var j := Find(active', config[i].name);
      assert j >= 0 && k'.table[active'[j].name] == BondKernel.Bond(active'[j].mode, active'[j].members);
    }
    forall j | 0 <= j < |active'| ensures CleanupSteps(config, active'[j]) == [] {
      assert active'[j].name in k'.table;
      LeftKeepsMembers(config[Find(config, active'[j].name)], active, supports);
    }
  }

  /**
   After an update whose every request was granted, updating again from a fresh snapshot issues no
   request exactly when no configured bond is unsettled.
   */
  lemma UpdateIsIdempotent(k: State, allows: nat -> bool, config: seq<Config>, active: seq<Config>, supports: Name -> bool,
                           k': State, active': seq<Config>, allows': nat -> bool)
    requires Exclusive(config) && Exclusive(active) && Faithful(active, k.table)
    requires k' == Update(k, allows, config, active, supports) && AllGranted(k'.log, |k.log|)
    requires Faithful(active', k'.table)
    ensures Update(k', allows', config, active', supports).log == k'.log
            <==> forall i :: 0 <= i < |config| ==> !Unsettled(config[i], active, supports)
    ensures (forall i :: 0 <= i < |config| ==> !Unsettled(config[i], active, supports))
            ==> Update(k', allows', config, active', supports) == k'
  {
    SnapshotAfter(k, allows, config, active, supports, k', active');
    CleanupIdle(k', allows', config, active');
    forall i | 0 <= i < |config| ensures InPlace(config[i], active', supports) <==> !Unsettled(config[i], active, supports) {
      UnsettledIffFirstDiffers(config[i], active, supports);
      if Unsettled(config[i], active, supports) { LeftIsReset(config[i], active, supports); }
      else { LeftInPlace(config[i], active, supports); }
    }
    if forall i :: 0 <= i < |config| ==> !Unsettled(config[i], active, supports) {
      SetUpIdle(k', allows', config, active', supports);
    } else {
      var i :| 0 <= i < |config| && Unsettled(config[i], active, supports);
      SetUpIssues(k', allows', config, active', supports, i);
    }
  }

  /**
   An unsettled bond: the configured first member x cannot be bonded, the other one, y, is in the bond.
   Every update removes y and adds it again, and leaves the bond as it was.
   */
  lemma UnsettledForever(bond: Name, mode: int, x: Name, y: Name, supports: Name -> bool, allows: nat -> bool, log: seq<Event>)
    requires x != y && !supports(x) && supports(y) && allows(|log|) && allows(|log| + 1)
    ensures var k := State(map[bond := BondKernel.Bond(mode, [y])], log);
            var k' := Update(k, allows, [Config(bond, mode, [x, y])], [Config(bond, mode, [y])], supports);
            && k'.table == k.table && |k'.log| == |log| + 2
            && k'.log[|log|].step == RemoveMember(bond, y) && k'.log[|log| + 1].step == AddMember(bond, y)
  {
    var k := State(map[bond := BondKernel.Bond(mode, [y])], log);
    var c, a := Config(bond, mode, [x, y]), Config(bond, mode, [y]);
    OneBondUpdate(k, allows, c, a, supports);
    TwoMembers(x, y, supports);
    assert Removes(bond, []) == [] && IssueAll(k, allows, []) == k;
    RemoveAndAdd(k, allows, bond, mode, y);
  }

  lemma TwoMembers(x: Name, y: Name, supports: Name -> bool)
    requires x != y && !supports(x) && supports(y)
    ensures Supported([x, y], supports) == [y] && Both([y], [x, y]) == [y] && NotIn([y], [x, y]) == []
  {
    BothSelf([y], [x, y]);
    var two := [x, y];
    assert two[..1] == [x] && two[1] == y;
    assert Supported([x], supports) == [];
    assert Supported(two, supports) == [] + [y];
  }

  lemma TornOut(y: Name)
    ensures NotIn([y], [y]) == []
  {
    BothSelf([y], [y]);
  }

  lemma RemoveAndAdd(k: State, allows: nat -> bool, bond: Name, mode: int, y: Name)
    requires k.table == map[bond := BondKernel.Bond(mode, [y])] && allows(|k.log|) && allows(|k.log| + 1)
    ensures var k' := IssueAll(k, allows, [RemoveMember(bond, y)] + [AddMember(bond, y)]);
            && k'.table == k.table && |k'.log| == |k.log| + 2
            && k'.log[|k.log|].step == RemoveMember(bond, y) && k'.log[|k.log| + 1].step == AddMember(bond, y)
  {
    IssueAllAppend(k, allows, [RemoveMember(bond, y)], [AddMember(bond, y)]);
    IssueOne(k, allows, RemoveMember(bond, y));
    var k1 := Issue(k, allows, RemoveMember(bond, y));
    IssueOne(k1, allows, AddMember(bond, y));
    TornOut(y);
    assert k1.table == map[bond := BondKernel.Bond(mode, [])];
    var k2 := Issue(k1, allows, AddMember(bond, y));
    var none: seq<Name> := [];
    assert none + [y] == [y];
    assert k2.table == map[bond := BondKernel.Bond(mode, none + [y])];
  }

  lemma OneBondUpdate(k: State, allows: nat -> bool, c: Config, a: Config, supports: Name -> bool)
    requires a.name == c.name
    ensures Update(k, allows, [c], [a], supports)
            == IssueAll(IssueAll(k, allows, Removes(a.name, NotIn(a.members, c.members))), allows, AdjustSteps(c, a, supports))
  {
    var cs, actives := [c], [a];
    assert cs[..0] == [] && actives[..0] == [];
    assert Find(cs, a.name) == 0 && Find(actives, c.name) == 0;
    assert CleanupSteps(cs, a) == Removes(a.name, NotIn(a.members, c.members));
    assert Cleanup(k, allows, cs, actives[..0]) == k;
    var k1 := Cleanup(k, allows, cs, actives);
    assert k1 == IssueAll(k, allows, CleanupSteps(cs, a));
    assert SetUp(k1, allows, cs[..0], actives, supports) == k1;
    assert SetUp(k1, allows, cs, actives, supports) == SetUpOne(k1, allows, c, actives, supports);
    assert SetUpOne(k1, allows, c, actives, supports) == IssueAll(k1, allows, AdjustSteps(c, a, supports));
  }
}
