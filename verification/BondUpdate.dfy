/** The bond update as it runs: it compares configured with active bonds and makes its requests. */
module BondUpdate {
  import opened BondKernel
  import opened BondPlan
  import opened BondReconcile
  import BondSteps

  lemma RemovesNext(b: Name, ms: seq<Name>, x: Name)
    ensures Removes(b, ms + [x]) == Removes(b, ms) + [RemoveMember(b, x)]
    ensures Adds(b, ms + [x]) == Adds(b, ms) + [AddMember(b, x)]
  {
  }

  /** Nothing but mode settings has failed since the log had n entries. */
  ghost predicate FineSince(k: State, n: nat) {
    AllFine(k.log, n)
  }

  lemma FineNext(k: State, allows: nat -> bool, step: Step, n: nat)
    requires n <= |k.log|
    ensures var k' := Issue(k, allows, step);
            |k'.log| == |k.log| + 1 && (FineSince(k', n) <==> FineSince(k, n) && Fine(k'.log[|k.log|]))
  {
    var k' := Issue(k, allows, step);
    assert forall j :: 0 <= j < |k.log| ==> k'.log[j] == k.log[j];
    if FineSince(k', n) { assert Fine(k'.log[|k.log|]); }
  }

  /** One more request of a series that began in state k. */
  method RequestNext(kernel: Kernel, step: Step, ghost k: State, ghost steps: seq<Step>, ghost n: nat) returns (granted: bool)
    requires kernel.state == IssueAll(k, kernel.allows, steps) && n <= |kernel.state.log|
    modifies kernel
    ensures kernel.state == IssueAll(k, kernel.allows, steps + [step]) && n <= |kernel.state.log|
    ensures FineSince(kernel.state, n) <==> FineSince(old(kernel.state), n) && (granted || step.SetMode?)
  {
    FineNext(kernel.state, kernel.allows, step, n);
    granted := kernel.Request(step);
  }

  /** The members that the bond should no longer have. */
  method RemoveUnconfigured(kernel: Kernel, b: Name, members: seq<Name>, configured: seq<Name>) returns (ok: bool)
    modifies kernel
    ensures kernel.state == IssueAll(old(kernel.state), kernel.allows, Removes(b, NotIn(members, configured)))
    ensures |old(kernel.state).log| <= |kernel.state.log|
    ensures ok <==> FineSince(kernel.state, |old(kernel.state).log|)
  {
    ok := true;
    ghost var k, n, gone := kernel.state, |kernel.state.log|, [];
    for i := 0 to |members|
      invariant n <= |kernel.state.log| && gone == NotIn(members[..i], configured)
      invariant kernel.state == IssueAll(k, kernel.allows, Removes(b, gone))
      invariant ok <==> FineSince(kernel.state, n)
    {
      assert members[..i + 1][..i] == members[..i];
      if members[i] !in configured {
        var granted := RequestNext(kernel, RemoveMember(b, members[i]), k, Removes(b, gone), n);
        RemovesNext(b, gone, members[i]);
        gone := gone + [members[i]];
        if !granted { ok := false; }
      }
    }
    assert members[..|members|] == members;
  }

  /** The members that leave only to be added back in the preferred order. */
  method RemoveForReorder(kernel: Kernel, b: Name, members: seq<Name>, configured: seq<Name>) returns (ok: bool)
    modifies kernel
    ensures kernel.state == IssueAll(old(kernel.state), kernel.allows, Removes(b, Both(members, configured)))
    ensures |old(kernel.state).log| <= |kernel.state.log|
    ensures ok <==> FineSince(kernel.state, |old(kernel.state).log|)
  {
    ok := true;
    ghost var k, n, gone := kernel.state, |kernel.state.log|, [];
    for i := 0 to |members|
      invariant n <= |kernel.state.log| && gone == Both(members[..i], configured)
      invariant kernel.state == IssueAll(k, kernel.allows, Removes(b, gone))
      invariant ok <==> FineSince(kernel.state, n)
    {
      assert members[..i + 1][..i] == members[..i];
      if members[i] !in configured { continue; }
      var granted := RequestNext(kernel, RemoveMember(b, members[i]), k, Removes(b, gone), n);
      RemovesNext(b, gone, members[i]);
      gone := gone + [members[i]];
      if !granted { ok := false; }
    }
    assert members[..|members|] == members;
  }

  /** The members not among the present ones, those that cannot join a bond passed over. */
  method AddAbsent(kernel: Kernel, b: Name, members: seq<Name>, present: seq<Name>, supports: Name -> bool) returns (ok: bool)
    modifies kernel
    ensures kernel.state == IssueAll(old(kernel.state), kernel.allows, Adds(b, Supported(NotIn(members, present), supports)))
    ensures |old(kernel.state).log| <= |kernel.state.log|
    ensures ok <==> FineSince(kernel.state, |old(kernel.state).log|)
  {
    ok := true;
    ghost var k, n, joined := kernel.state, |kernel.state.log|, [];
    for i := 0 to |members|
      invariant n <= |kernel.state.log| && joined == Supported(NotIn(members[..i], present), supports)
      invariant kernel.state == IssueAll(k, kernel.allows, Adds(b, joined))
      invariant ok <==> FineSince(kernel.state, n)
    {
      assert members[..i + 1][..i] == members[..i];
      ghost var absent := NotIn(members[..i], present);
      if members[i] !in present {
        assert (absent + [members[i]])[..|absent|] == absent;
        if !supports(members[i]) { continue; }
        var granted := RequestNext(kernel, AddMember(b, members[i]), k, Adds(b, joined), n);
        RemovesNext(b, joined, members[i]);
        joined := joined + [members[i]];
        if !granted { ok := false; }
      }
    }
    assert members[..|members|] == members;
  }

  /** The member list of a bond that is both configured and active, once the two differ. */
  method AdjustList(kernel: Kernel, c: Config, a: Config, supports: Name -> bool) returns (ok: bool)
    requires c.members != a.members
    modifies kernel
    ensures kernel.state == IssueAll(old(kernel.state), kernel.allows, ListSteps(c, a, supports))
    ensures old(kernel.state).log <= kernel.state.log
    ensures ok <==> FineSince(kernel.state, |old(kernel.state).log|)
  {
    ghost var k, n := kernel.state, |kernel.state.log|;
    IssueAllAppend(k, kernel.allows, ResetSteps(c, a), Adds(c.name, Missing(c, a, supports)));
    var present := a.members;
    ok := true;
    if |c.members| > 0 && |a.members| > 0 && c.members[0] != a.members[0] {
      ok := RemoveForReorder(kernel, a.name, a.members, c.members);
      present := [];
      NotInNone(c.members);
    }
    ghost var k1 := kernel.state;
    assert k1 == IssueAll(k, kernel.allows, ResetSteps(c, a));
    BondSteps.LogGrows(k, kernel.allows, ResetSteps(c, a));
    BondSteps.LogGrows(k1, kernel.allows, Adds(c.name, Missing(c, a, supports)));
    var added := AddAbsent(kernel, c.name, c.members, present, supports);
    ok := ok && added;
  }

  /** A bond that is both configured and active. */
  method Adjust(kernel: Kernel, c: Config, a: Config, supports: Name -> bool) returns (ok: bool)
    requires c.name == a.name && Differs(c, a)
    modifies kernel
    ensures kernel.state == IssueAll(old(kernel.state), kernel.allows, AdjustSteps(c, a, supports))
    ensures old(kernel.state).log <= kernel.state.log
    ensures ok <==> FineSince(kernel.state, |old(kernel.state).log|)
  {
    ghost var k, n := kernel.state, |kernel.state.log|;
    IssueAllAppend(k, kernel.allows, ModeSteps(c, a), ListSteps(c, a, supports));
    BondSteps.LogGrows(k, kernel.allows, ModeSteps(c, a));
    if c.mode != a.mode {
      IssueOne(k, kernel.allows, SetMode(a.name, c.mode));
      FineNext(k, kernel.allows, SetMode(a.name, c.mode), n);
      var ignored := kernel.Request(SetMode(a.name, c.mode));
    }
    if c.members == a.members { return true; }
    ghost var k1 := kernel.state;
    ok := AdjustList(kernel, c, a, supports);
  }

  /** A bond that is configured but not active. */
  method EstablishNew(kernel: Kernel, c: Config, supports: Name -> bool) returns (ok: bool)
    modifies kernel
    ensures kernel.state == Establish(old(kernel.state), kernel.allows, c, supports)
    ensures old(kernel.state).log <= kernel.state.log
    ensures ok <==> FineSince(kernel.state, |old(kernel.state).log|)
  {
    ghost var k, n := kernel.state, |kernel.state.log|;
    FineNext(k, kernel.allows, CreateBond(c.name), n);
    var created := kernel.Request(CreateBond(c.name));
    if !created { return false; }
    ghost var k1 := kernel.state;
    IssueAllAppend(k1, kernel.allows, [SetMode(c.name, c.mode)], Adds(c.name, Supported(c.members, supports)));
    IssueOne(k1, kernel.allows, SetMode(c.name, c.mode));
    FineNext(k1, kernel.allows, SetMode(c.name, c.mode), n);
    var ignored := kernel.Request(SetMode(c.name, c.mode));
    ghost var k2 := kernel.state;
    NotInNone(c.members);
    BondSteps.LogGrows(k2, kernel.allows, Adds(c.name, Supported(c.members, supports)));
    ok := AddAbsent(kernel, c.name, c.members, [], supports);
  }

  /** One active bond in the first phase. */
  method CleanupActive(kernel: Kernel, config: seq<Config>, a: Config) returns (ok: bool)
    modifies kernel
    ensures kernel.state == IssueAll(old(kernel.state), kernel.allows, CleanupSteps(config, a))
    ensures old(kernel.state).log <= kernel.state.log
    ensures ok <==> FineSince(kernel.state, |old(kernel.state).log|)
  {
    ghost var k, n := kernel.state, |kernel.state.log|;
    BondSteps.LogGrows(k, kernel.allows, CleanupSteps(config, a));
    var j := 0;
    while j < |config|
      invariant 0 <= j <= |config| && kernel.state == k
      invariant forall x :: 0 <= x < j ==> config[x].name != a.name
    {
      if a.name == config[j].name {
        assert Find(config, a.name) == j;
        ok := RemoveUnconfigured(kernel, a.name, a.members, config[j].members);
        return;
      }
      j := j + 1;
    }
    IssueOne(k, kernel.allows, DestroyBond(a.name));
    FineNext(k, kernel.allows, DestroyBond(a.name), n);
    ok := kernel.Request(DestroyBond(a.name));
  }

  /** Whether the first phase has any request to make for an active bond. */
  method CleanupNeeded(config: seq<Config>, a: Config) returns (needed: bool)
    ensures needed <==> CleanupSteps(config, a) != []
  {
    var j := Find(config, a.name);
    if j < 0 { return true; }
    for i := 0 to |a.members|
      invariant NotIn(a.members[..i], config[j].members) == []
    {
      assert a.members[..i + 1][..i] == a.members[..i];
      if a.members[i] !in config[j].members {
        assert a.members[i] in NotIn(a.members, config[j].members);
        return true;
      }
    }
    assert a.members[..|a.members|] == a.members;
    return false;
  }

  /** Some active bond has something to lose. */
  ghost predicate CleanupNeedsSocket(config: seq<Config>, active: seq<Config>, i: nat) {
    exists x :: 0 <= x < i && x < |active| && CleanupSteps(config, active[x]) != []
  }

  /** The first phase. Giving up means that the socket was needed and could not be opened. */
  method CleanupPhase(kernel: Kernel, config: seq<Config>, active: seq<Config>, socketOpens: bool)
    returns (ok: bool, isOpen: bool, gaveUp: bool)
    modifies kernel
    ensures gaveUp <==> !socketOpens && CleanupNeedsSocket(config, active, |active|)
    ensures gaveUp ==> kernel.state == old(kernel.state)
    ensures !gaveUp ==> kernel.state == Cleanup(old(kernel.state), kernel.allows, config, active)
    ensures !gaveUp ==> old(kernel.state).log <= kernel.state.log && (ok <==> FineSince(kernel.state, |old(kernel.state).log|))
    ensures !gaveUp && !isOpen ==> kernel.state == old(kernel.state)
    ensures isOpen ==> socketOpens
  {
    ok, isOpen, gaveUp := true, false, false;
    ghost var k, n := kernel.state, |kernel.state.log|;
    for i := 0 to |active|
      invariant kernel.state == Cleanup(k, kernel.allows, config, active[..i]) && k.log <= kernel.state.log
      invariant ok <==> FineSince(kernel.state, n)
      invariant isOpen ==> socketOpens
      invariant !isOpen ==> kernel.state == k && !CleanupNeedsSocket(config, active, i)
    {
      assert active[..i + 1][..i] == active[..i];
      var needed := CleanupNeeded(config, active[i]);
      if needed && !isOpen {
        if !socketOpens {
          gaveUp := true;
          return;
        }
        isOpen := true;
      }
      ghost var k1 := kernel.state;
      var fine := CleanupActive(kernel, config, active[i]);
      ok := ok && fine;
    }
    assert active[..|active|] == active;
  }

  ghost predicate SetUpNeedsSocket(config: seq<Config>, active: seq<Config>, i: nat) {
    exists x :: 0 <= x < i && x < |config| && OutOfStep(config[x], active)
  }

  /** The second phase, likewise. */
  method SetUpPhase(kernel: Kernel, config: seq<Config>, active: seq<Config>, supports: Name -> bool, socketOpens: bool, wasOpen: bool)
    returns (ok: bool, gaveUp: bool)
    requires wasOpen ==> socketOpens
    modifies kernel
    ensures gaveUp <==> !socketOpens && SetUpNeedsSocket(config, active, |config|)
    ensures gaveUp ==> kernel.state == old(kernel.state)
    ensures !gaveUp ==> kernel.state == SetUp(old(kernel.state), kernel.allows, config, active, supports)
    ensures !gaveUp ==> old(kernel.state).log <= kernel.state.log && (ok <==> FineSince(kernel.state, |old(kernel.state).log|))
  {
    ok, gaveUp := true, false;
    var isOpen := wasOpen;
    ghost var k, n := kernel.state, |kernel.state.log|;
    for i := 0 to |config|
      invariant kernel.state == SetUp(k, kernel.allows, config[..i], active, supports) && k.log <= kernel.state.log
      invariant ok <==> FineSince(kernel.state, n)
      invariant isOpen ==> socketOpens
      invariant !isOpen ==> kernel.state == k && !SetUpNeedsSocket(config, active, i)
    {
      assert config[..i + 1][..i] == config[..i];
      if !OutOfStep(config[i], active) { continue; }
      if !isOpen {
        if !socketOpens {
          gaveUp := true;
          return;
        }
        isOpen := true;
      }
      ghost var k1 := kernel.state;
      var fine := SetUpBond(kernel, config[i], active, supports);
      ok := ok && fine;
    }
    assert config[..|config|] == config;
  }

  method SetUpBond(kernel: Kernel, c: Config, active: seq<Config>, supports: Name -> bool) returns (ok: bool)
    requires OutOfStep(c, active)
    modifies kernel
    ensures kernel.state == SetUpOne(old(kernel.state), kernel.allows, c, active, supports)
    ensures old(kernel.state).log <= kernel.state.log
    ensures ok <==> FineSince(kernel.state, |old(kernel.state).log|)
  {
    var j := Find(active, c.name);
    if j < 0 {
      ok := EstablishNew(kernel, c, supports);
    } else {
      ok := Adjust(kernel, c, active[j], supports);
    }
  }

  /** A socket is needed exactly when the configured and the active bonds are not the same ones. */
  lemma NeedsSocketIff(config: seq<Config>, active: seq<Config>)
    requires DistinctBonds(config) && DistinctBonds(active)
    ensures NeedsSocket(config, active) <==> !forall c: Config :: c in config <==> c in active
  {
    if !NeedsSocket(config, active) {
      forall c | c in config ensures c in active { InStepIsActive(config, active, c); }
      forall a | a in active ensures a in config { NothingToLose(config, active, a); }
    }
    if forall c: Config :: c in config <==> c in active { SameNeedNothing(config, active); }
  }

  lemma InStepIsActive(config: seq<Config>, active: seq<Config>, c: Config)
    requires c in config && !NeedsSocket(config, active)
    ensures c in active
  {
    var i :| 0 <= i < |config| && config[i] == c;
    assert !OutOfStep(config[i], active);
    assert active[Find(active, c.name)] in active;
  }

  lemma NothingToLose(config: seq<Config>, active: seq<Config>, a: Config)
    requires DistinctBonds(active) && a in active && !NeedsSocket(config, active)
    ensures a in config
  {
    var i :| 0 <= i < |active| && active[i] == a;
    assert CleanupSteps(config, active[i]) == [];
    var j := Find(config, a.name);
    assert !OutOfStep(config[j], active);
    FindUnique(active, i);
    assert config[j] in config;
  }

  lemma SameNeedNothing(config: seq<Config>, active: seq<Config>)
    requires DistinctBonds(config) && DistinctBonds(active) && forall c: Config :: c in config <==> c in active
    ensures !NeedsSocket(config, active)
  {
    forall i | 0 <= i < |active| ensures CleanupSteps(config, active[i]) == [] {
      assert active[i] in config;
      var j :| 0 <= j < |config| && config[j] == active[i];
      FindUnique(config, j);
      BothSelf(active[i].members, active[i].members);
    }
    forall i | 0 <= i < |config| ensures !OutOfStep(config[i], active) {
      assert config[i] in active;
      var j :| 0 <= j < |active| && active[j] == config[i];
      FindUnique(active, j);
    }
  }

  /**
   The update. The socket is opened before the first request (or before the first look at member
   lists that differ); if that fails, nothing has been requested yet and the update gives up.
   */
  method UpdateConfiguration(kernel: Kernel, config: seq<Config>, active: seq<Config>, supports: Name -> bool, socketOpens: bool)
    returns (ok: bool)
    modifies kernel
    ensures !socketOpens && NeedsSocket(config, active) ==> !ok && kernel.state == old(kernel.state)
    ensures socketOpens || !NeedsSocket(config, active) ==>
              kernel.state == Update(old(kernel.state), kernel.allows, config, active, supports)
              && (ok <==> FineSince(kernel.state, |old(kernel.state).log|))
              && (ok <==> forall j :: |old(kernel.state).log| <= j < |kernel.state.log| ==>
                            kernel.state.log[j].granted || kernel.state.log[j].step.SetMode?)
  {
    ghost var k := kernel.state;
    var isOpen, gaveUp;
    ok, isOpen, gaveUp := CleanupPhase(kernel, config, active, socketOpens);
    if gaveUp { return false; }
    ghost var k1 := kernel.state;
    var fine;
    fine, gaveUp := SetUpPhase(kernel, config, active, supports, socketOpens, isOpen);
    if gaveUp { return false; }
    ok := ok && fine;
  }
}
