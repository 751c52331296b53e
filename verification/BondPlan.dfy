/** Which requests the bond update issues for which bond, given what is configured and active. */
module BondPlan {
  import opened BondKernel

  datatype Config = Config(name: Name, mode: int, members: seq<Name>)

  /** The index of the first bond of the given name, or -1. */
  function FindFrom(bonds: seq<Config>, name: Name, i: nat): (r: int)
    requires i <= |bonds|
    ensures r == -1 || i <= r < |bonds|
    ensures r >= 0 ==> bonds[r].name == name
    ensures forall k :: i <= k < |bonds| && (r < 0 || k < r) ==> bonds[k].name != name
    decreases |bonds| - i
  {
    if i == |bonds| then -1 else if bonds[i].name == name then i else FindFrom(bonds, name, i + 1)
  }

  function Find(bonds: seq<Config>, name: Name): (r: int)
    ensures -1 <= r < |bonds|
    ensures r >= 0 ==> bonds[r].name == name
    ensures forall k :: 0 <= k < |bonds| && (r < 0 || k < r) ==> bonds[k].name != name
  {
    FindFrom(bonds, name, 0)
  }

  function Both(ms: seq<Name>, keep: seq<Name>): (r: seq<Name>)
    ensures forall x :: x in r <==> x in ms && x in keep
  {
    if ms == [] then []
    else
      var r := Both(ms[..|ms| - 1], keep);
      var last := ms[|ms| - 1];
      assert ms == ms[..|ms| - 1] + [last];
      if last in keep then r + [last] else r
  }

  function Supported(ms: seq<Name>, supports: Name -> bool): (r: seq<Name>)
    ensures forall x :: x in r <==> x in ms && supports(x)
  {
    if ms == [] then []
    else
      var r := Supported(ms[..|ms| - 1], supports);
      var last := ms[|ms| - 1];
      assert ms == ms[..|ms| - 1] + [last];
      if supports(last) then r + [last] else r
  }

  function Removes(b: Name, ms: seq<Name>): seq<Step> {
    seq(|ms|, i requires 0 <= i < |ms| => RemoveMember(b, ms[i]))
  }

  function Adds(b: Name, ms: seq<Name>): seq<Step> {
    seq(|ms|, i requires 0 <= i < |ms| => AddMember(b, ms[i]))
  }

  // ----- first phase: what an active bond loses

  function CleanupSteps(config: seq<Config>, a: Config): seq<Step> {
    var j := Find(config, a.name);
    if j < 0 then [DestroyBond(a.name)] else Removes(a.name, NotIn(a.members, config[j].members))
  }

  // ----- second phase: what a configured bond gains

  /** The configured and the active bond start with different members. */
  predicate FirstDiffers(c: Config, a: Config) {
    c.members != [] && a.members != [] && c.members[0] != a.members[0]
  }

  function ModeSteps(c: Config, a: Config): seq<Step> {
    if c.mode != a.mode then [SetMode(a.name, c.mode)] else []
  }

  function ResetSteps(c: Config, a: Config): seq<Step> {
    if FirstDiffers(c, a) then Removes(a.name, Both(a.members, c.members)) else []
  }

  /** The members still to be added once the resets are done. */
  function Missing(c: Config, a: Config, supports: Name -> bool): seq<Name> {
    Supported(if FirstDiffers(c, a) then c.members else NotIn(c.members, a.members), supports)
  }

  function ListSteps(c: Config, a: Config, supports: Name -> bool): seq<Step> {
    if c.members == a.members then [] else ResetSteps(c, a) + Adds(c.name, Missing(c, a, supports))
  }

  function AdjustSteps(c: Config, a: Config, supports: Name -> bool): seq<Step> {
    ModeSteps(c, a) + ListSteps(c, a, supports)
  }

  function FillSteps(c: Config, supports: Name -> bool): seq<Step> {
    [SetMode(c.name, c.mode)] + Adds(c.name, Supported(c.members, supports))
  }

  /** A new bond is filled only if it could be created. */
  function Establish(k: State, allows: nat -> bool, c: Config, supports: Name -> bool): State {
    var k' := Issue(k, allows, CreateBond(c.name));
    if k'.log[|k'.log| - 1].granted then IssueAll(k', allows, FillSteps(c, supports)) else k'
  }

  function Cleanup(k: State, allows: nat -> bool, config: seq<Config>, active: seq<Config>): State {
    if active == [] then k
    else
      var n := |active| - 1;
      IssueAll(Cleanup(k, allows, config, active[..n]), allows, CleanupSteps(config, active[n]))
  }

  function SetUpOne(k: State, allows: nat -> bool, c: Config, active: seq<Config>, supports: Name -> bool): State {
    var j := Find(active, c.name);
    if j < 0 then Establish(k, allows, c, supports) else IssueAll(k, allows, AdjustSteps(c, active[j], supports))
  }

  function SetUp(k: State, allows: nat -> bool, config: seq<Config>, active: seq<Config>, supports: Name -> bool): State {
    if config == [] then k
    else
      var n := |config| - 1;
      SetUpOne(SetUp(k, allows, config[..n], active, supports), allows, config[n], active, supports)
  }

  /** The whole update. */
  function Update(k: State, allows: nat -> bool, config: seq<Config>, active: seq<Config>, supports: Name -> bool): State {
    SetUp(Cleanup(k, allows, config, active), allows, config, active, supports)
  }

  // ----- the result the update reports

  /** A refused mode setting is not held against the update. */
  predicate Fine(e: Event) {
    e.granted || e.step.SetMode?
  }

  ghost predicate FineBetween(log: seq<Event>, n: nat, m: nat) {
    forall j :: n <= j < m && j < |log| ==> Fine(log[j])
  }

  predicate Differs(c: Config, a: Config) {
    c.mode != a.mode || c.members != a.members
  }

  /** A configured bond that is missing or whose mode or member list is not as configured. */
  predicate OutOfStep(c: Config, active: seq<Config>) {
    Find(active, c.name) < 0 || Differs(c, active[Find(active, c.name)])
  }

  /** Some bond needs a request, or at least a second look at its member list. */
  predicate NeedsSocket(config: seq<Config>, active: seq<Config>) {
    || (exists i :: 0 <= i < |active| && CleanupSteps(config, active[i]) != [])
    || (exists i :: 0 <= i < |config| && OutOfStep(config[i], active))
  }
}
