/**
 What a whole bond update does to the kernel: every request is one the kernel can grant, and if
 the update reports success the kernel holds exactly the configured bonds.
 */
module BondReconcile {
  import opened BondKernel
  import opened BondPlan

  // ----- member lists of a table, modes apart

  type Lists = map<Name, seq<Name>>

  ghost function Mem(t: Table): Lists {
    map b | b in t :: t[b].members
  }

  ghost predicate TakenIn(m: Lists, x: Name) {
    exists b :: b in m && x in m[b]
  }

  ghost predicate LegalIn(m: Lists, step: Step) {
    match step
    case CreateBond(b) => b !in m
    case DestroyBond(b) => b in m
    case AddMember(b, x) => b in m && !TakenIn(m, x)
    case RemoveMember(b, x) => b in m && x in m[b]
    case SetMode(b, _) => b in m
  }

  ghost function After(m: Lists, step: Step): Lists
    requires LegalIn(m, step)
  {
    match step
    case CreateBond(b) => m[b := []]
    case DestroyBond(b) => m - {b}
    case AddMember(b, x) => m[b := m[b] + [x]]
    case RemoveMember(b, x) => m[b := NotIn(m[b], [x])]
    case SetMode(_, _) => m
  }

  lemma LegalByLists(t: Table, step: Step)
    ensures Legal(t, step) <==> LegalIn(Mem(t), step)
  {
    if step.AddMember? {
      if Taken(t, step.member) {
        var b :| b in t && step.member in t[b].members;
        assert b in Mem(t) && step.member in Mem(t)[b];
      }
      if TakenIn(Mem(t), step.member) {
        var b :| b in Mem(t) && step.member in Mem(t)[b];
        assert b in t && step.member in t[b].members;
      }
    }
  }

  // ----- safety of a growing log

  /** Every request from position n on was legal unless an earlier one had failed. */
  ghost predicate SafeFrom(log: seq<Event>, n: nat) {
    forall k :: n <= k < |log| && FineBetween(log, n, k) ==> Legal(log[k].before, log[k].step)
  }

  ghost predicate AllFine(log: seq<Event>, n: nat) {
    FineBetween(log, n, |log|)
  }

  /** While nothing has failed, all was safe and the member lists are as given. */
  ghost predicate OnTrack(k: State, n: nat, m: Lists) {
    n <= |k.log| && SafeFrom(k.log, n) && (AllFine(k.log, n) ==> Mem(k.table) == m)
  }

  lemma IssueOnTrack(k: State, allows: nat -> bool, n: nat, m: Lists, step: Step)
    requires OnTrack(k, n, m) && LegalIn(m, step)
    ensures OnTrack(Issue(k, allows, step), n, After(m, step))
  {
    var k' := Issue(k, allows, step);
    var last := |k.log|;
    assert k'.log[..last] == k.log;
    forall j | n <= j < |k'.log| && FineBetween(k'.log, n, j) ensures Legal(k'.log[j].before, k'.log[j].step) {
      assert FineBetween(k.log, n, j);
      if j == last { LegalByLists(k.table, step); }
    }
    if AllFine(k'.log, n) {
      assert forall j :: n <= j < last ==> k'.log[j] == k.log[j];
      assert AllFine(k.log, n) && Fine(k'.log[last]);
    }
  }

  ghost predicate NoDup(ms: seq<Name>) {
    forall i, j :: 0 <= i < j < |ms| ==> ms[i] != ms[j]
  }

  lemma {:induction false} NotInTwice(ms: seq<Name>, drop: seq<Name>, x: Name)
    ensures NotIn(NotIn(ms, drop), [x]) == NotIn(ms, drop + [x])
  {
    if ms != [] {
      var init, last := ms[..|ms| - 1], ms[|ms| - 1];
      NotInTwice(init, drop, x);
      var r := NotIn(init, drop);
      assert (r + [last])[..|r|] == r;
    }
  }

  lemma {:induction false} NotInNone(ms: seq<Name>)
    ensures NotIn(ms, []) == ms
  {
    if ms != [] {
      NotInNone(ms[..|ms| - 1]);
      assert ms == ms[..|ms| - 1] + [ms[|ms| - 1]];
    }
  }

  lemma {:induction false} RemovesOnTrack(k: State, allows: nat -> bool, n: nat, m: Lists, b: Name, rs: seq<Name>)
    requires OnTrack(k, n, m) && b in m && NoDup(rs) && forall x :: x in rs ==> x in m[b]
    ensures OnTrack(IssueAll(k, allows, Removes(b, rs)), n, m[b := NotIn(m[b], rs)])
  {
    if rs == [] {
      NotInNone(m[b]);
      assert m[b := m[b]] == m;
    } else {
      var init, x := rs[..|rs| - 1], rs[|rs| - 1];
      assert rs == init + [x];
      RemovesOnTrack(k, allows, n, m, b, init);
      assert Removes(b, rs)[..|rs| - 1] == Removes(b, init);
      RemoveOneOnTrack(IssueAll(k, allows, Removes(b, init)), allows, n, m, b, init, x);
    }
  }

  lemma RemoveOneOnTrack(k: State, allows: nat -> bool, n: nat, m: Lists, b: Name, gone: seq<Name>, x: Name)
    requires b in m && x in m[b] && x !in gone && OnTrack(k, n, m[b := NotIn(m[b], gone)])
    ensures OnTrack(Issue(k, allows, RemoveMember(b, x)), n, m[b := NotIn(m[b], gone + [x])])
  {
    AfterRemove(m, b, gone, x);
    IssueOnTrack(k, allows, n, m[b := NotIn(m[b], gone)], RemoveMember(b, x));
  }

  lemma AfterRemove(m: Lists, b: Name, gone: seq<Name>, x: Name)
    requires b in m && x in m[b] && x !in gone
    ensures var m' := m[b := NotIn(m[b], gone)];
            LegalIn(m', RemoveMember(b, x)) && After(m', RemoveMember(b, x)) == m[b := NotIn(m[b], gone + [x])]
  {
    var left := NotIn(m[b], gone);
    NotInTwice(m[b], gone, x);
    assert x in left;
    assert m[b := left][b := NotIn(left, [x])] == m[b := NotIn(left, [x])];
  }

  lemma {:induction false} AddsOnTrack(k: State, allows: nat -> bool, n: nat, m: Lists, b: Name, xs: seq<Name>)
    requires OnTrack(k, n, m) && b in m && NoDup(xs) && forall x :: x in xs ==> !TakenIn(m, x)
    ensures OnTrack(IssueAll(k, allows, Adds(b, xs)), n, m[b := m[b] + xs])
  {
    if xs == [] {
      assert m[b] + xs == m[b];
      assert m[b := m[b]] == m;
    } else {
      var init, x := xs[..|xs| - 1], xs[|xs| - 1];
      assert xs == init + [x];
      AddsOnTrack(k, allows, n, m, b, init);
      assert Adds(b, xs)[..|xs| - 1] == Adds(b, init);
      var m' := m[b := m[b] + init];
      assert x !in init && !TakenIn(m, x);
      forall c | c in m' ensures x !in m'[c] {
        assert x !in m[c];
      }
      IssueOnTrack(IssueAll(k, allows, Adds(b, init)), allows, n, m', AddMember(b, x));
      assert m[b] + init + [x] == m[b] + xs;
      assert After(m', AddMember(b, x)) == m[b := m[b] + xs];
    }
  }

  lemma {:induction false} IssueAllAppend(k: State, allows: nat -> bool, first: seq<Step>, second: seq<Step>)
    ensures IssueAll(k, allows, first + second) == IssueAll(IssueAll(k, allows, first), allows, second)
  {
    if second == [] {
      assert first + second == first;
    } else {
      var n := |second| - 1;
      IssueAllAppend(k, allows, first, second[..n]);
      assert (first + second)[..|first| + n] == first + second[..n];
    }
  }

  lemma IssueOne(k: State, allows: nat -> bool, step: Step)
    ensures IssueAll(k, allows, [step]) == Issue(k, allows, step)
  {
    assert IssueAll(k, allows, [step][..0]) == k;
  }

  // ----- lists of names

  lemma {:induction false} NotInBoth(ms: seq<Name>, keep: seq<Name>, whole: seq<Name>)
    requires forall x :: x in ms ==> x in whole
    ensures NotIn(ms, NotIn(whole, keep)) == Both(ms, keep)
  {
    if ms != [] {
      assert ms == ms[..|ms| - 1] + [ms[|ms| - 1]];
      NotInBoth(ms[..|ms| - 1], keep, whole);
    }
  }

  lemma {:induction false} NotInNoDup(ms: seq<Name>, drop: seq<Name>)
    requires NoDup(ms)
    ensures NoDup(NotIn(ms, drop))
  {
    if ms != [] {
      NotInNoDup(ms[..|ms| - 1], drop);
      assert ms[|ms| - 1] !in ms[..|ms| - 1];
    }
  }

  lemma {:induction false} BothNoDup(ms: seq<Name>, keep: seq<Name>)
    requires NoDup(ms)
    ensures NoDup(Both(ms, keep))
  {
    if ms != [] {
      BothNoDup(ms[..|ms| - 1], keep);
      assert ms[|ms| - 1] !in ms[..|ms| - 1];
    }
  }

  lemma {:induction false} SupportedNoDup(ms: seq<Name>, supports: Name -> bool)
    requires NoDup(ms)
    ensures NoDup(Supported(ms, supports))
  {
    if ms != [] {
      SupportedNoDup(ms[..|ms| - 1], supports);
      assert ms[|ms| - 1] !in ms[..|ms| - 1];
    }
  }

  lemma {:induction false} SupportedAll(ms: seq<Name>, supports: Name -> bool)
    requires forall x :: x in ms ==> supports(x)
    ensures Supported(ms, supports) == ms
  {
    if ms != [] {
      assert ms == ms[..|ms| - 1] + [ms[|ms| - 1]];
      SupportedAll(ms[..|ms| - 1], supports);
    }
  }

  lemma {:induction false} BothSelf(ms: seq<Name>, keep: seq<Name>)
    requires forall x :: x in ms ==> x in keep
    ensures Both(ms, keep) == ms && NotIn(ms, keep) == []
  {
    if ms != [] {
      assert ms == ms[..|ms| - 1] + [ms[|ms| - 1]];
      BothSelf(ms[..|ms| - 1], keep);
    }
  }

  lemma {:induction false} BothFirst(ms: seq<Name>, keep: seq<Name>)
    requires ms != [] && ms[0] in keep
    ensures Both(ms, keep) != [] && Both(ms, keep)[0] == ms[0]
  {
    if |ms| > 1 { BothFirst(ms[..|ms| - 1], keep); }
    else { assert ms == ms[..|ms| - 1] + [ms[|ms| - 1]]; }
  }

  // ----- what the update assumes

  ghost predicate DistinctBonds(bonds: seq<Config>) {
    forall i, j :: 0 <= i < j < |bonds| ==> bonds[i].name != bonds[j].name
  }

  /** Member lists without duplicates, no interface in two bonds. */
  ghost predicate Exclusive(bonds: seq<Config>) {
    && DistinctBonds(bonds)
    && (forall i :: 0 <= i < |bonds| ==> NoDup(bonds[i].members))
    && forall i, j, x :: 0 <= i < |bonds| && 0 <= j < |bonds| && x in bonds[i].members && x in bonds[j].members ==> i == j
  }

  /** The snapshot lists the bonds of the table, each once. */
  ghost predicate Faithful(active: seq<Config>, t: Table) {
    && DistinctBonds(active)
    && (forall i :: 0 <= i < |active| ==> active[i].name in t && t[active[i].name] == Bond(active[i].mode, active[i].members))
    && forall b :: b in t ==> Find(active, b) >= 0
  }

  lemma FindUnique(bonds: seq<Config>, i: nat)
    requires DistinctBonds(bonds) && i < |bonds|
    ensures Find(bonds, bonds[i].name) == i
  {
  }

  // ----- first phase

  /** The lists once the first i active bonds are cleaned up. */
  ghost predicate CleanedUp(m: Lists, config: seq<Config>, active: seq<Config>, i: nat) {
    && (forall b :: b in m ==> Find(active, b) >= 0)
    && forall x :: 0 <= x < |active| ==> CleanedOne(m, config, active[x], x < i)
  }

  ghost predicate CleanedOne(m: Lists, config: seq<Config>, a: Config, done: bool) {
    var j := Find(config, a.name);
    if !done then a.name in m && m[a.name] == a.members
    else if j < 0 then a.name !in m
    else a.name in m && m[a.name] == Both(a.members, config[j].members)
  }

  lemma CleanupOne(k: State, allows: nat -> bool, n: nat, m: Lists, config: seq<Config>, active: seq<Config>, i: nat)
    returns (m': Lists)
    requires Exclusive(active) && i < |active|
    requires OnTrack(k, n, m) && CleanedUp(m, config, active, i)
    ensures OnTrack(IssueAll(k, allows, CleanupSteps(config, active[i])), n, m') && CleanedUp(m', config, active, i + 1)
  {
    var a := active[i];
    var j := Find(config, a.name);
    assert CleanedOne(m, config, a, false);
    if j < 0 {
      IssueOne(k, allows, DestroyBond(a.name));
      IssueOnTrack(k, allows, n, m, DestroyBond(a.name));
      m' := m - {a.name};
    } else {
      var rs := NotIn(a.members, config[j].members);
      NotInNoDup(a.members, config[j].members);
      RemovesOnTrack(k, allows, n, m, a.name, rs);
      NotInBoth(a.members, config[j].members, a.members);
      m' := m[a.name := Both(a.members, config[j].members)];
    }
    CleanupAdvances(m, m', config, active, i);
  }

  lemma CleanupAdvances(m: Lists, m': Lists, config: seq<Config>, active: seq<Config>, i: nat)
    requires DistinctBonds(active) && i < |active| && CleanedUp(m, config, active, i) && CleanedOne(m', config, active[i], true)
    requires m' - {active[i].name} == m - {active[i].name} && active[i].name in m
    ensures CleanedUp(m', config, active, i + 1)
  {
    var rest := m - {active[i].name};
    forall x | 0 <= x < |active| ensures CleanedOne(m', config, active[x], x < i + 1) {
      assert CleanedOne(m, config, active[x], x < i);
      if x != i {
        var b := active[x].name;
        assert b in m <==> b in rest;
        assert b in m' <==> b in m' - {active[i].name};
      }
    }
    forall b | b in m' ensures Find(active, b) >= 0 {
      if b != active[i].name { assert b in m' - {active[i].name}; }
    }
  }

  lemma {:induction false} CleanupOnTrack(k: State, allows: nat -> bool, m: Lists, config: seq<Config>, active: seq<Config>, i: nat)
    returns (m': Lists)
    requires Exclusive(active) && i <= |active| && m == Mem(k.table) && CleanedUp(m, config, active, 0)
    ensures OnTrack(Cleanup(k, allows, config, active[..i]), |k.log|, m') && CleanedUp(m', config, active, i)
    decreases i
  {
    if i == 0 {
      m' := m;
    } else {
      var m1 := CleanupOnTrack(k, allows, m, config, active, i - 1);
      assert active[..i][..i - 1] == active[..i - 1];
      m' := CleanupOne(Cleanup(k, allows, config, active[..i - 1]), allows, |k.log|, m1, config, active, i - 1);
    }
  }

  // ----- second phase

  /** The member list the update leaves a configured bond with. */
  function Final(c: Config, active: seq<Config>, supports: Name -> bool): seq<Name> {
    var j := Find(active, c.name);
    if j < 0 || FirstDiffers(c, active[j]) then Supported(c.members, supports)
    else Both(active[j].members, c.members) + Supported(NotIn(c.members, active[j].members), supports)
  }

  ghost predicate SetUpTo(m: Lists, config: seq<Config>, active: seq<Config>, supports: Name -> bool, i: nat) {
    && (forall b :: b in m ==> Find(config, b) >= 0)
    && forall x :: 0 <= x < |config| ==> SetUpDone(m, config[x], active, supports, x < i)
  }

  ghost predicate SetUpDone(m: Lists, c: Config, active: seq<Config>, supports: Name -> bool, done: bool) {
    var j := Find(active, c.name);
    if done then c.name in m && m[c.name] == Final(c, active, supports)
    else if j < 0 then c.name !in m
    else c.name in m && m[c.name] == Both(active[j].members, c.members)
  }

  /** A bond other than the i-th holds none of the i-th bond's configured members. */
  lemma OthersHoldNone(m: Lists, config: seq<Config>, active: seq<Config>, supports: Name -> bool, i: nat, b: Name, x: Name)
    requires Exclusive(config) && i < |config| && SetUpTo(m, config, active, supports, i)
    requires b in m && b != config[i].name && x in config[i].members
    ensures x !in m[b]
  {
    var y := Find(config, b);
    assert SetUpDone(m, config[y], active, supports, y < i);
    assert x !in config[y].members;
  }

  /** Members to add to the i-th bond are in no bond, once the bond itself holds none of them. */
  lemma NoneTaken(m: Lists, config: seq<Config>, active: seq<Config>, supports: Name -> bool, i: nat,
                  held: seq<Name>, xs: seq<Name>)
    requires Exclusive(config) && i < |config| && SetUpTo(m, config, active, supports, i)
    requires forall x :: x in xs ==> x in config[i].members && x !in held
    ensures forall x :: x in xs ==> !TakenIn(m[config[i].name := held], x)
  {
    var m' := m[config[i].name := held];
    forall x | x in xs ensures !TakenIn(m', x) {
      forall b | b in m' ensures x !in m'[b] {
        if b != config[i].name { OthersHoldNone(m, config, active, supports, i, b, x); }
      }
    }
  }

  lemma AddMissingOnTrack(k: State, allows: nat -> bool, n: nat, m: Lists, config: seq<Config>, active: seq<Config>,
                          supports: Name -> bool, i: nat, held: seq<Name>, xs: seq<Name>)
    requires Exclusive(config) && i < |config| && SetUpTo(m, config, active, supports, i)
    requires NoDup(xs) && forall x :: x in xs ==> x in config[i].members && x !in held
    requires OnTrack(k, n, m[config[i].name := held])
    ensures OnTrack(IssueAll(k, allows, Adds(config[i].name, xs)), n, m[config[i].name := held + xs])
  {
    var b := config[i].name;
    NoneTaken(m, config, active, supports, i, held, xs);
    AddsOnTrack(k, allows, n, m[b := held], b, xs);
    assert m[b := held][b := held + xs] == m[b := held + xs];
  }

  lemma MissingNoDup(c: Config, a: Config, supports: Name -> bool)
    requires NoDup(c.members)
    ensures NoDup(Missing(c, a, supports))
  {
    NotInNoDup(c.members, a.members);
    SupportedNoDup(if FirstDiffers(c, a) then c.members else NotIn(c.members, a.members), supports);
  }

  lemma ModeOnTrack(k: State, allows: nat -> bool, n: nat, m: Lists, c: Config, a: Config)
    requires OnTrack(k, n, m) && a.name in m
    ensures OnTrack(IssueAll(k, allows, ModeSteps(c, a)), n, m)
  {
    if c.mode != a.mode {
      IssueOne(k, allows, SetMode(a.name, c.mode));
      IssueOnTrack(k, allows, n, m, SetMode(a.name, c.mode));
    }
  }

  /** What a bond still holds once the resets are done. */
  function Held(c: Config, a: Config): seq<Name> {
    if FirstDiffers(c, a) then [] else Both(a.members, c.members)
  }

  lemma ResetOnTrack(k: State, allows: nat -> bool, n: nat, m: Lists, c: Config, a: Config)
    requires OnTrack(k, n, m) && a.name in m && m[a.name] == Both(a.members, c.members) && NoDup(a.members)
    ensures OnTrack(IssueAll(k, allows, ResetSteps(c, a)), n, m[a.name := Held(c, a)])
  {
    if FirstDiffers(c, a) {
      var kept := Both(a.members, c.members);
      BothNoDup(a.members, c.members);
      RemovesOnTrack(k, allows, n, m, a.name, kept);
      BothSelf(kept, kept);
    } else {
      assert m[a.name := m[a.name]] == m;
    }
  }

  lemma AdjustOnTrack(k: State, allows: nat -> bool, n: nat, m: Lists, config: seq<Config>, active: seq<Config>,
                      supports: Name -> bool, i: nat)
    requires Exclusive(config) && Exclusive(active) && i < |config| && Find(active, config[i].name) >= 0
    requires OnTrack(k, n, m) && SetUpTo(m, config, active, supports, i)
    ensures OnTrack(IssueAll(k, allows, AdjustSteps(config[i], active[Find(active, config[i].name)], supports)), n,
                    m[config[i].name := Final(config[i], active, supports)])
  {
    var c, a := config[i], active[Find(active, config[i].name)];
    assert SetUpDone(m, c, active, supports, false);
    var k1 := IssueAll(k, allows, ModeSteps(c, a));
    IssueAllAppend(k, allows, ModeSteps(c, a), ListSteps(c, a, supports));
    ModeOnTrack(k, allows, n, m, c, a);
    if c.members == a.members {
      BothSelf(c.members, c.members);
      assert Supported([], supports) == [];
      assert Final(c, active, supports) == c.members + [] == c.members;
      assert m[c.name := m[c.name]] == m;
    } else {
      IssueAllAppend(k1, allows, ResetSteps(c, a), Adds(c.name, Missing(c, a, supports)));
      ResetOnTrack(k1, allows, n, m, c, a);
      MissingNoDup(c, a, supports);
      AddMissingOnTrack(IssueAll(k1, allows, ResetSteps(c, a)), allows, n, m, config, active, supports, i,
                        Held(c, a), Missing(c, a, supports));
      assert Held(c, a) + Missing(c, a, supports) == Final(c, active, supports);
    }
  }

  lemma EstablishOnTrack(k: State, allows: nat -> bool, n: nat, m: Lists, config: seq<Config>, active: seq<Config>,
                         supports: Name -> bool, i: nat)
    requires Exclusive(config) && i < |config| && Find(active, config[i].name) < 0
    requires OnTrack(k, n, m) && SetUpTo(m, config, active, supports, i)
    ensures OnTrack(Establish(k, allows, config[i], supports), n, m[config[i].name := Final(config[i], active, supports)])
  {
    var c := config[i];
    assert SetUpDone(m, c, active, supports, false);
    var k1 := Issue(k, allows, CreateBond(c.name));
    IssueOnTrack(k, allows, n, m, CreateBond(c.name));
    if k1.log[|k1.log| - 1].granted {
      var xs := Supported(c.members, supports);
      IssueAllAppend(k1, allows, [SetMode(c.name, c.mode)], Adds(c.name, xs));
      IssueOne(k1, allows, SetMode(c.name, c.mode));
      IssueOnTrack(k1, allows, n, m[c.name := []], SetMode(c.name, c.mode));
      SupportedNoDup(c.members, supports);
      AddMissingOnTrack(Issue(k1, allows, SetMode(c.name, c.mode)), allows, n, m, config, active, supports, i, [], xs);
      assert [] + xs == xs;
    } else {
      assert !Fine(k1.log[|k1.log| - 1]);
      assert !AllFine(k1.log, n);
    }
  }

  lemma SetUpOneOnTrack(k: State, allows: nat -> bool, n: nat, m: Lists, config: seq<Config>, active: seq<Config>,
                        supports: Name -> bool, i: nat)
    requires Exclusive(config) && Exclusive(active) && i < |config|
    requires OnTrack(k, n, m) && SetUpTo(m, config, active, supports, i)
    ensures OnTrack(SetUpOne(k, allows, config[i], active, supports), n, m[config[i].name := Final(config[i], active, supports)])
  {
    if Find(active, config[i].name) < 0 {
      EstablishOnTrack(k, allows, n, m, config, active, supports, i);
    } else {
      AdjustOnTrack(k, allows, n, m, config, active, supports, i);
    }
  }

  lemma SetUpAdvances(m: Lists, config: seq<Config>, active: seq<Config>, supports: Name -> bool, i: nat)
    requires DistinctBonds(config) && i < |config| && SetUpTo(m, config, active, supports, i)
    ensures SetUpTo(m[config[i].name := Final(config[i], active, supports)], config, active, supports, i + 1)
  {
    var m' := m[config[i].name := Final(config[i], active, supports)];
    FindUnique(config, i);
    forall x | 0 <= x < |config| ensures SetUpDone(m', config[x], active, supports, x < i + 1) {
      assert SetUpDone(m, config[x], active, supports, x < i);
    }
  }

  lemma {:induction false} SetUpOnTrack(k: State, allows: nat -> bool, n: nat, m: Lists, config: seq<Config>,
                                        active: seq<Config>, supports: Name -> bool, i: nat)
    returns (m': Lists)
    requires Exclusive(config) && Exclusive(active) && i <= |config|
    requires OnTrack(k, n, m) && SetUpTo(m, config, active, supports, 0)
    ensures OnTrack(SetUp(k, allows, config[..i], active, supports), n, m') && SetUpTo(m', config, active, supports, i)
    decreases i
  {
    if i == 0 {
      m' := m;
    } else {
      var m1 := SetUpOnTrack(k, allows, n, m, config, active, supports, i - 1);
      assert config[..i][..i - 1] == config[..i - 1];
      SetUpOneOnTrack(SetUp(k, allows, config[..i - 1], active, supports), allows, n, m1, config, active, supports, i - 1);
      SetUpAdvances(m1, config, active, supports, i - 1);
      m' := m1[config[i - 1].name := Final(config[i - 1], active, supports)];
    }
  }

  /** After the first phase the lists are where the second phase starts. */
  lemma PhasesMeet(m: Lists, config: seq<Config>, active: seq<Config>, supports: Name -> bool)
    requires DistinctBonds(config) && DistinctBonds(active) && CleanedUp(m, config, active, |active|)
    ensures SetUpTo(m, config, active, supports, 0)
  {
    forall b | b in m ensures Find(config, b) >= 0 {
      assert CleanedOne(m, config, active[Find(active, b)], true);
    }
    forall x | 0 <= x < |config| ensures SetUpDone(m, config[x], active, supports, false) {
      FindUnique(config, x);
      var j := Find(active, config[x].name);
      if j >= 0 { assert CleanedOne(m, config, active[j], true); }
    }
  }

  // ----- main results

  lemma UpdateOnTrack(k: State, allows: nat -> bool, config: seq<Config>, active: seq<Config>, supports: Name -> bool)
    returns (m: Lists)
    requires Exclusive(config) && Exclusive(active) && Faithful(active, k.table)
    ensures OnTrack(Update(k, allows, config, active, supports), |k.log|, m)
    ensures SetUpTo(m, config, active, supports, |config|)
  {
    var m0 := Mem(k.table);
    forall x | 0 <= x < |active| ensures CleanedOne(m0, config, active[x], false) {
      assert active[x].name in k.table;
    }
    var m1 := CleanupOnTrack(k, allows, m0, config, active, |active|);
    assert active[..|active|] == active && config[..|config|] == config;
    PhasesMeet(m1, config, active, supports);
    m := SetUpOnTrack(Cleanup(k, allows, config, active), allows, |k.log|, m1, config, active, supports, |config|);
  }

  /** Each request of the update is legal when it is made, unless an earlier one had failed. */
  lemma UpdateIsSafe(k: State, allows: nat -> bool, config: seq<Config>, active: seq<Config>, supports: Name -> bool)
    requires Exclusive(config) && Exclusive(active) && Faithful(active, k.table)
    ensures SafeFrom(Update(k, allows, config, active, supports).log, |k.log|)
  {
    var m := UpdateOnTrack(k, allows, config, active, supports);
  }

  /** If nothing but mode settings failed, the table holds the configured bonds with their final lists. */
  lemma UpdateConverges(k: State, allows: nat -> bool, config: seq<Config>, active: seq<Config>, supports: Name -> bool)
    requires Exclusive(config) && Exclusive(active) && Faithful(active, k.table)
    requires AllFine(Update(k, allows, config, active, supports).log, |k.log|)
    ensures var t := Update(k, allows, config, active, supports).table;
            && (forall b :: b in t <==> Find(config, b) >= 0)
            && forall x :: 0 <= x < |config| ==>
                 config[x].name in t && t[config[x].name].members == Final(config[x], active, supports)
  {
    var m := UpdateOnTrack(k, allows, config, active, supports);
    var t := Update(k, allows, config, active, supports).table;
    forall x | 0 <= x < |config| ensures config[x].name in t && t[config[x].name].members == Final(config[x], active, supports) {
      assert SetUpDone(m, config[x], active, supports, true);
      assert config[x].name in Mem(t);
    }
    forall b | Find(config, b) >= 0 ensures b in t {
      assert config[Find(config, b)].name in t;
    }
  }

  lemma NoDupSet(ms: seq<Name>, rs: seq<Name>)
    requires NoDup(ms) && NoDup(rs) && forall x :: x in ms <==> x in rs
    ensures multiset(ms) == multiset(rs)
  {
    forall x ensures multiset(ms)[x] == multiset(rs)[x] {
      CountNoDup(ms, x);
      CountNoDup(rs, x);
    }
  }

  lemma {:induction false} CountNoDup(ms: seq<Name>, x: Name)
    requires NoDup(ms)
    ensures multiset(ms)[x] == if x in ms then 1 else 0
  {
    if ms != [] {
      var init, last := ms[..|ms| - 1], ms[|ms| - 1];
      assert ms == init + [last];
      assert last !in init;
      CountNoDup(init, x);
    }
  }

  /** A configured member ends up in the bond when it can join one, or stays in this one throughout. */
  ghost predicate Obtainable(c: Config, active: seq<Config>, supports: Name -> bool, x: Name)
    requires x in c.members
  {
    var j := Find(active, c.name);
    supports(x) || (j >= 0 && x in active[j].members && c.members[0] == active[j].members[0])
  }

  lemma FinalNoDup(c: Config, active: seq<Config>, supports: Name -> bool)
    requires NoDup(c.members) && forall i :: 0 <= i < |active| ==> NoDup(active[i].members)
    ensures NoDup(Final(c, active, supports))
  {
    var j := Find(active, c.name);
    SupportedNoDup(c.members, supports);
    if j >= 0 && !FirstDiffers(c, active[j]) {
      var kept, added := Both(active[j].members, c.members), Supported(NotIn(c.members, active[j].members), supports);
      BothNoDup(active[j].members, c.members);
      NotInNoDup(c.members, active[j].members);
      SupportedNoDup(NotIn(c.members, active[j].members), supports);
      forall x, y | 0 <= x < |kept| && 0 <= y < |added| ensures kept[x] != added[y] {
        assert kept[x] in kept && added[y] in added;
      }
    }
  }

  /** The final list is the configured one, up to order, exactly when every configured member is obtainable. */
  lemma FinalIsConfigured(c: Config, active: seq<Config>, supports: Name -> bool)
    requires NoDup(c.members) && forall i :: 0 <= i < |active| ==> NoDup(active[i].members)
    ensures multiset(Final(c, active, supports)) == multiset(c.members) <==>
            forall x :: x in c.members ==> Obtainable(c, active, supports, x)
  {
    var f := Final(c, active, supports);
    FinalNoDup(c, active, supports);
    assert forall x :: x in f <==> x in c.members && Obtainable(c, active, supports, x);
    if forall x :: x in c.members ==> Obtainable(c, active, supports, x) {
      NoDupSet(f, c.members);
    }
    if multiset(f) == multiset(c.members) {
      forall x | x in c.members ensures Obtainable(c, active, supports, x) {
        assert x in multiset(f);
      }
    }
  }

  /** An update can succeed and leave a configured member out: one whose interface does not support bonding. */
  lemma UnsupportedIsLeftOut(bond: Name, mode: int, x: Name, supports: Name -> bool, allows: nat -> bool)
    requires !supports(x) && allows(0)
    ensures var k := Update(State(map[], []), allows, [Config(bond, mode, [x])], [], supports);
            && AllFine(k.log, 0)
            && bond in k.table && k.table[bond].members == []
  {
    var k, c := State(map[], []), Config(bond, mode, [x]);
    assert Cleanup(k, allows, [c], []) == k && [c][..0] == [];
    assert SetUp(k, allows, [c], [], supports) == SetUpOne(k, allows, c, [], supports);
    var k1 := Issue(k, allows, CreateBond(bond));
    assert [x][..0] == [];
    assert Adds(bond, Supported([x], supports)) == [];
    assert FillSteps(c, supports) == [SetMode(bond, mode)];
    IssueOne(k1, allows, SetMode(bond, mode));
    assert Establish(k, allows, c, supports) == Issue(k1, allows, SetMode(bond, mode));
  }

  /** The configured first member comes first whenever it can join a bond. */
  lemma FinalStartsAsConfigured(c: Config, active: seq<Config>, supports: Name -> bool)
    requires c.members != [] && supports(c.members[0])
    ensures Final(c, active, supports) != [] && Final(c, active, supports)[0] == c.members[0]
  {
    var j := Find(active, c.name);
    SupportedFirst(c.members, supports);
    if j >= 0 && !FirstDiffers(c, active[j]) {
      var a := active[j].members;
      if a != [] {
        BothFirst(a, c.members);
      } else {
        NotInNone(c.members);
      }
    }
  }

  /** The elements of r, in order, are those of ms at the places idx. */
  predicate Places(r: seq<Name>, ms: seq<Name>, idx: seq<nat>) {
    && |idx| == |r| && (forall k :: 0 <= k < |r| ==> idx[k] < |ms| && r[k] == ms[idx[k]])
    && forall k, l :: 0 <= k < l < |r| ==> idx[k] < idx[l]
  }

  lemma PlacesNext(r: seq<Name>, ms: seq<Name>, idx: seq<nat>, x: Name)
    requires Places(r, ms, idx)
    ensures Places(r, ms + [x], idx) && Places(r + [x], ms + [x], idx + [|ms|])
  {
  }

  lemma {:induction false} SupportedPlaces(ms: seq<Name>, supports: Name -> bool) returns (idx: seq<nat>)
    ensures Places(Supported(ms, supports), ms, idx)
  {
    if ms == [] { return []; }
    var n := |ms| - 1;
    idx := SupportedPlaces(ms[..n], supports);
    PlacesNext(Supported(ms[..n], supports), ms[..n], idx, ms[n]);
    assert ms == ms[..n] + [ms[n]];
    if supports(ms[n]) { idx := idx + [n]; }
  }

  lemma {:induction false} NotInPlaces(ms: seq<Name>, drop: seq<Name>) returns (idx: seq<nat>)
    ensures Places(NotIn(ms, drop), ms, idx)
  {
    if ms == [] { return []; }
    var n := |ms| - 1;
    idx := NotInPlaces(ms[..n], drop);
    PlacesNext(NotIn(ms[..n], drop), ms[..n], idx, ms[n]);
    assert ms == ms[..n] + [ms[n]];
    if ms[n] !in drop { idx := idx + [n]; }
  }

  lemma {:induction false} BothPlaces(ms: seq<Name>, keep: seq<Name>) returns (idx: seq<nat>)
    ensures Places(Both(ms, keep), ms, idx)
  {
    if ms == [] { return []; }
    var n := |ms| - 1;
    idx := BothPlaces(ms[..n], keep);
    PlacesNext(Both(ms[..n], keep), ms[..n], idx, ms[n]);
    assert ms == ms[..n] + [ms[n]];
    if ms[n] in keep { idx := idx + [n]; }
  }

  lemma PlacesCompose(r: seq<Name>, q: seq<Name>, ms: seq<Name>, idx: seq<nat>, jdx: seq<nat>) returns (kdx: seq<nat>)
    requires Places(r, q, idx) && Places(q, ms, jdx)
    ensures Places(r, ms, kdx)
  {
    kdx := seq(|r|, k requires 0 <= k < |r| => jdx[idx[k]]);
  }

  /**
   The order of the list: a bond that is new, or whose first member is not the configured one, has its members in the
   configured order; another one has those that stay, in their old order, and then the new ones in the configured order.
   */
  lemma FinalInOrder(c: Config, active: seq<Config>, supports: Name -> bool) returns (n: nat, idx: seq<nat>, jdx: seq<nat>)
    ensures var f, j := Final(c, active, supports), Find(active, c.name);
            && n <= |f| && Places(f[n..], c.members, jdx)
            && (if j < 0 || (c.members != [] && active[j].members != [] && c.members[0] != active[j].members[0]) then n == 0
                else Places(f[..n], active[j].members, idx) && forall k :: n <= k < |f| ==> f[k] !in active[j].members)
  {
    var f, j := Final(c, active, supports), Find(active, c.name);
    if j < 0 || FirstDiffers(c, active[j]) {
      n, idx := 0, [];
      jdx := SupportedPlaces(c.members, supports);
      assert f[0..] == f;
    } else {
      var ms := active[j].members;
      var kept, absent := Both(ms, c.members), NotIn(c.members, ms);
      var added := Supported(absent, supports);
      n := |kept|;
      idx := BothPlaces(ms, c.members);
      var kdx := SupportedPlaces(absent, supports);
      var ldx := NotInPlaces(c.members, ms);
      jdx := PlacesCompose(added, absent, c.members, kdx, ldx);
      assert f[..n] == kept && f[n..] == added;
      forall k | n <= k < |f| ensures f[k] !in ms { assert f[k] == added[k - n] && added[k - n] in added; }
    }
  }

  lemma {:induction false} SupportedFirst(ms: seq<Name>, supports: Name -> bool)
    requires ms != [] && supports(ms[0])
    ensures Supported(ms, supports) != [] && Supported(ms, supports)[0] == ms[0]
  {
    if |ms| > 1 { SupportedFirst(ms[..|ms| - 1], supports); }
    else { assert ms == ms[..|ms| - 1] + [ms[|ms| - 1]]; }
  }

  /**
   If only mode settings failed and every configured member can join a bond, the kernel holds
   exactly the configured bonds, each with the configured members, the configured first one first.
   */
  lemma UpdateReachesConfiguration(k: State, allows: nat -> bool, config: seq<Config>, active: seq<Config>, supports: Name -> bool)
    requires Exclusive(config) && Exclusive(active) && Faithful(active, k.table)
    requires AllFine(Update(k, allows, config, active, supports).log, |k.log|)
    requires forall i, x :: 0 <= i < |config| && x in config[i].members ==> supports(x)
    ensures var t := Update(k, allows, config, active, supports).table;
            && (forall b :: b in t <==> Find(config, b) >= 0)
            && forall i :: 0 <= i < |config| ==>
                 var ms := config[i].members;
                 && config[i].name in t && multiset(t[config[i].name].members) == multiset(ms)
                 && (ms != [] ==> t[config[i].name].members != [] && t[config[i].name].members[0] == ms[0])
  {
    UpdateConverges(k, allows, config, active, supports);
    forall i | 0 <= i < |config|
      ensures var ms, f := config[i].members, Final(config[i], active, supports);
              multiset(f) == multiset(ms) && (ms != [] ==> f != [] && f[0] == ms[0])
    {
      FinalIsConfigured(config[i], active, supports);
      if config[i].members != [] { FinalStartsAsConfigured(config[i], active, supports); }
    }
  }
}
