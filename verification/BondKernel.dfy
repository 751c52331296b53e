/**
 The kernel's table of Ethernet bonds, as the requests to it see it: an interface belongs to at
 most one bond, an added member goes to the end, and any request may be refused.
 */
module BondKernel {

  type Name = string

  const LACP_MODE := 0

  datatype Bond = Bond(mode: int, members: seq<Name>)

  type Table = map<Name, Bond>

  datatype Step =
    | CreateBond(bond: Name)
    | DestroyBond(bond: Name)
    | AddMember(bond: Name, member: Name)
    | RemoveMember(bond: Name, member: Name)
    | SetMode(bond: Name, mode: int)

  predicate Taken(t: Table, member: Name) {
    exists b :: b in t && member in t[b].members
  }

  predicate Legal(t: Table, step: Step) {
    match step
    case CreateBond(b) => b !in t
    case DestroyBond(b) => b in t
    case AddMember(b, m) => b in t && !Taken(t, m)
    case RemoveMember(b, m) => b in t && m in t[b].members
    case SetMode(b, _) => b in t
  }

  /** The members other than those of `drop`, in order. */
  function NotIn(ms: seq<Name>, drop: seq<Name>): (r: seq<Name>)
    ensures forall x :: x in r <==> x in ms && x !in drop
  {
    if ms == [] then []
    else
      var r := NotIn(ms[..|ms| - 1], drop);
      var last := ms[|ms| - 1];
      assert ms == ms[..|ms| - 1] + [last];
      if last in drop then r else r + [last]
  }

  function Effect(t: Table, step: Step): Table
    requires Legal(t, step)
  {
    match step
    case CreateBond(b) => t[b := Bond(LACP_MODE, [])]
    case DestroyBond(b) => t - {b}
    case AddMember(b, m) => t[b := t[b].(members := t[b].members + [m])]
    case RemoveMember(b, m) => t[b := t[b].(members := NotIn(t[b].members, [m]))]
    case SetMode(b, mode) => t[b := t[b].(mode := mode)]
  }

  /** One request, the table it met, and whether it was granted. */
  datatype Event = Event(step: Step, before: Table, granted: bool)

  datatype State = State(table: Table, log: seq<Event>)

  /** The n-th request is granted when it is legal and nothing else makes it fail. */
  function Issue(k: State, allows: nat -> bool, step: Step): State {
    if Legal(k.table, step) && allows(|k.log|)
    then State(Effect(k.table, step), k.log + [Event(step, k.table, true)])
    else State(k.table, k.log + [Event(step, k.table, false)])
  }

  function IssueAll(k: State, allows: nat -> bool, steps: seq<Step>): State {
    if steps == [] then k
    else Issue(IssueAll(k, allows, steps[..|steps| - 1]), allows, steps[|steps| - 1])
  }

  /** The kernel as a client holds it. */
  class Kernel {
    const allows: nat -> bool
    var state: State

    method Request(step: Step) returns (granted: bool)
      modifies this
      ensures state == Issue(old(state), allows, step)
      ensures granted == state.log[|state.log| - 1].granted
    {
      state := Issue(state, allows, step);
      granted := state.log[|state.log| - 1].granted;
    }
  }
}
