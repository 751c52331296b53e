/**
 The stored bonds and the editing calls on them: create, remove, and set the member interfaces.
 The store maps a bond's name to its stored list of member names.
 */
module BondPrefs {
  import opened BondKernel
  import opened BondPlan
  import BondReconcile

  type Store = map<Name, seq<Name>>

  // ----- names of new bonds

  const DIGITS := ['0', '1', '2', '3', '4', '5', '6', '7', '8', '9']

  function Decimal(n: nat): (s: string)
    ensures s != []
  {
    if n < 10 then [DIGITS[n]] else Decimal(n / 10) + [DIGITS[n % 10]]
  }

  function BondName(i: nat): Name {
    "bond" + Decimal(i)
  }

  lemma {:induction false} DecimalInjective(a: nat, b: nat)
    requires Decimal(a) == Decimal(b)
    ensures a == b
    decreases a
  {
    var s, t := Decimal(a), Decimal(b);
    assert s[|s| - 1] == DIGITS[a % 10] && t[|t| - 1] == DIGITS[b % 10];
    if a >= 10 && b >= 10 {
      assert s[..|s| - 1] == Decimal(a / 10) && t[..|t| - 1] == Decimal(b / 10);
      DecimalInjective(a / 10, b / 10);
    }
  }

  lemma BondNameInjective(a: nat, b: nat)
    requires BondName(a) == BondName(b)
    ensures a == b
  {
    assert BondName(a)[4..] == Decimal(a) && BondName(b)[4..] == Decimal(b);
    DecimalInjective(a, b);
  }

  /** The number that a string of digits says. */
  function ValueOf(s: string): int {
    if s == "" then 0 else 10 * ValueOf(s[..|s| - 1]) + (s[|s| - 1] as int - '0' as int)
  }

  /** The name of bond n is "bond" and n in decimal digits, without leading zeros. */
  lemma {:induction false} BondNameReads(n: nat)
    ensures BondName(n) == "bond" + Decimal(n) && ValueOf(Decimal(n)) == n
    ensures forall k :: 0 <= k < |Decimal(n)| ==> '0' <= Decimal(n)[k] <= '9'
    ensures |Decimal(n)| > 1 ==> Decimal(n)[0] != '0'
    decreases n
  {
    var s := Decimal(n);
    assert forall d :: 0 <= d < 10 ==> DIGITS[d] as int == '0' as int + d;
    if n >= 10 {
      BondNameReads(n / 10);
      assert s[..|s| - 1] == Decimal(n / 10);
    } else {
      assert s[..0] == "";
    }
  }

  ghost function FirstNames(i: nat): set<Name> {
    set j | 0 <= j < i :: BondName(j)
  }

  lemma {:induction false} FirstNamesCount(i: nat)
    ensures |FirstNames(i)| == i
  {
    if i > 0 {
      FirstNamesCount(i - 1);
      assert FirstNames(i) == FirstNames(i - 1) + {BondName(i - 1)};
      if BondName(i - 1) in FirstNames(i - 1) {
        var j :| 0 <= j < i - 1 && BondName(j) == BondName(i - 1);
        BondNameInjective(j, i - 1);
      }
    }
  }

  /** While the names below i are all in use, i cannot pass the number of bonds. */
  lemma UsedNamesBound(store: Store, i: nat)
    requires forall j :: 0 <= j < i ==> BondName(j) in store
    ensures i <= |store|
  {
    FirstNamesCount(i);
    assert FirstNames(i) <= store.Keys;
    SubsetSize(FirstNames(i), store.Keys);
  }

  lemma {:induction false} SubsetSize(a: set<Name>, b: set<Name>)
    requires a <= b
    ensures |a| <= |b|
    decreases a
  {
    if a != {} {
      var x :| x in a;
      SubsetSize(a - {x}, b - {x});
    }
  }

  // ----- who may be a member

  /** What the system says about its interfaces when members are set. */
  datatype System = System(
    interfaces: seq<Name>,
    supportsBond: Name -> bool,
    reserved: set<Name>,
    inService: Name -> bool)

  ghost predicate Stored(store: Store, x: Name) {
    exists b :: b in store && x in store[b]
  }

  /** An interface that supports bonding and is in no bond, bridge or VLAN. */
  ghost predicate Available(store: Store, sys: System, x: Name) {
    x in sys.interfaces && sys.supportsBond(x) && x !in sys.reserved && !Stored(store, x)
  }

  ghost predicate Allowed(store: Store, current: seq<Name>, sys: System, x: Name) {
    x in current || (Available(store, sys, x) && !sys.inService(x))
  }

  ghost predicate AllAllowed(store: Store, current: seq<Name>, sys: System, members: seq<Name>) {
    forall i :: 0 <= i < |members| ==> Allowed(store, current, sys, members[i])
  }

  // ----- what the calls do to the store

  datatype Edit =
    | CreateEdit(writes: bool)
    | RemoveEdit(bond: Name, writes: bool)
    | SetEdit(bond: Name, members: seq<Name>, sys: System, writes: bool)

  /** The number of the first unused name, looking from i on. */
  function FirstUnused(store: Store, i: nat): (n: nat)
    requires forall j :: 0 <= j < i ==> BondName(j) in store
    ensures i <= n <= |store| && BondName(n) !in store
    ensures forall j :: 0 <= j < n ==> BondName(j) in store
    decreases |store| + 1 - i
  {
    UsedNamesBound(store, i);
    if BondName(i) !in store then i
    else
      UsedNamesBound(store, i + 1);
      FirstUnused(store, i + 1)
  }

  function Created(store: Store): Store {
    store[BondName(FirstUnused(store, 0)) := []]
  }

  /** Setting members is accepted when all are allowed, the bond is stored, and the store takes any change. */
  ghost predicate SetAccepted(store: Store, bond: Name, current: seq<Name>, members: seq<Name>, sys: System, writes: bool) {
    AllAllowed(store, current, sys, members) && bond in store && (store[bond] == members || writes)
  }

  /** An edit through a handle whose list is the stored one. */
  ghost function Edited(store: Store, e: Edit): Store {
    match e
    case CreateEdit(writes) => if writes then Created(store) else store
    case RemoveEdit(b, writes) => if writes && b in store then store - {b} else store
    case SetEdit(b, members, sys, writes) =>
      if b in store && SetAccepted(store, b, store[b], members, sys, writes) then store[b := members] else store
  }

  ghost function EditedAll(store: Store, edits: seq<Edit>): Store {
    if edits == [] then store else Edited(EditedAll(store, edits[..|edits| - 1]), edits[|edits| - 1])
  }

  // ----- no interface in two bonds

  ghost predicate Disjoint(store: Store) {
    forall b, c :: b in store && c in store && b != c ==> NoneShared(store[b], store[c])
  }

  ghost predicate NoneShared(ms: seq<Name>, rs: seq<Name>) {
    forall x :: x in ms ==> x !in rs
  }

  /**
   An accepted call keeps the bonds disjoint exactly when no requested member that the handle
   itself lists is stored in another bond.
   */
  lemma SetKeepsDisjoint(store: Store, bond: Name, current: seq<Name>, members: seq<Name>, sys: System, writes: bool)
    requires Disjoint(store) && SetAccepted(store, bond, current, members, sys, writes)
    ensures Disjoint(store[bond := members]) <==>
            forall x, c :: x in members && x in current && c in store && c != bond ==> x !in store[c]
  {
    var store' := store[bond := members];
    if Disjoint(store') {
      forall x, c | x in members && x in current && c in store && c != bond ensures x !in store[c] {
        assert NoneShared(store'[bond], store'[c]);
      }
    }
    if forall x, c :: x in members && x in current && c in store && c != bond ==> x !in store[c] {
      forall c | c in store && c != bond ensures NoneShared(members, store[c]) && NoneShared(store[c], members) {
        forall x | x in members ensures x !in store[c] {
          var i :| 0 <= i < |members| && members[i] == x;
          assert Allowed(store, current, sys, members[i]);
        }
      }
    }
  }

  /** A handle that is out of date can put an interface into two bonds. */
  lemma StaleHandleBreaksDisjointness(sys: System)
    ensures var store := map["bond0" := [], "bond1" := ["en0"]];
            && Disjoint(store)
            && SetAccepted(store, "bond0", ["en0"], ["en0"], sys, true)
            && !Disjoint(store["bond0" := ["en0"]])
  {
    var store := map["bond0" := [], "bond1" := ["en0"]];
    var store' := store["bond0" := ["en0"]];
    assert "en0" in store'["bond0"] && "en0" in store'["bond1"];
    assert !NoneShared(store'["bond0"], store'["bond1"]);
  }

  lemma EditKeepsDisjoint(store: Store, e: Edit)
    requires Disjoint(store)
    ensures Disjoint(Edited(store, e))
  {
    match e
    case CreateEdit(_) =>
    case RemoveEdit(_, _) =>
    case SetEdit(b, members, sys, writes) =>
      if b in store && SetAccepted(store, b, store[b], members, sys, writes) {
        forall x, c | x in members && x in store[b] && c in store && c != b ensures x !in store[c] {
          assert NoneShared(store[b], store[c]);
        }
        SetKeepsDisjoint(store, b, store[b], members, sys, writes);
      }
  }

  /** No run of edits through up-to-date handles ever stores an interface in two bonds. */
  lemma {:induction false} EditsKeepDisjoint(store: Store, edits: seq<Edit>)
    requires Disjoint(store)
    ensures Disjoint(EditedAll(store, edits))
  {
    if edits != [] {
      EditsKeepDisjoint(store, edits[..|edits| - 1]);
      EditKeepsDisjoint(EditedAll(store, edits[..|edits| - 1]), edits[|edits| - 1]);
    }
  }

  /** Every stored member is fit to be one. */
  ghost predicate AllFit(store: Store, fit: Name -> bool) {
    forall b, x :: b in store && x in store[b] ==> fit(x)
  }

  /** At the time of the edit the system lets only fit interfaces join. */
  ghost predicate LetsJoin(e: Edit, fit: Name -> bool) {
    e.SetEdit? ==> forall x :: x in e.sys.interfaces && e.sys.supportsBond(x) && x !in e.sys.reserved && !e.sys.inService(x) ==> fit(x)
  }

  lemma EditKeepsFit(store: Store, e: Edit, fit: Name -> bool)
    requires AllFit(store, fit) && LetsJoin(e, fit)
    ensures AllFit(Edited(store, e), fit)
  {
    if e.SetEdit? && e.bond in store && SetAccepted(store, e.bond, store[e.bond], e.members, e.sys, e.writes) {
      forall x | x in e.members ensures fit(x) {
        var i :| 0 <= i < |e.members| && e.members[i] == x;
        assert Allowed(store, store[e.bond], e.sys, e.members[i]);
      }
    }
  }

  /**
   Whatever holds, at each edit, of all interfaces that exist, support bonding, are in no bridge or VLAN and in no
   service, holds of all stored members after any run of edits if it did before.
   */
  lemma {:induction false} EditsKeepFit(store: Store, edits: seq<Edit>, fit: Name -> bool)
    requires AllFit(store, fit) && forall n :: 0 <= n < |edits| ==> LetsJoin(edits[n], fit)
    ensures AllFit(EditedAll(store, edits), fit)
  {
    if edits != [] {
      EditsKeepFit(store, edits[..|edits| - 1], fit);
      EditKeepsFit(EditedAll(store, edits[..|edits| - 1]), edits[|edits| - 1], fit);
    }
  }

  ghost predicate ListsWithoutDuplicates(store: Store) {
    forall b :: b in store ==> BondReconcile.NoDup(store[b])
  }

  /** Duplicates are not checked for: a run keeps them out exactly as long as its callers do. */
  lemma SetKeepsNoDuplicates(store: Store, bond: Name, current: seq<Name>, members: seq<Name>, sys: System, writes: bool)
    requires ListsWithoutDuplicates(store) && SetAccepted(store, bond, current, members, sys, writes)
    ensures ListsWithoutDuplicates(store[bond := members]) <==> BondReconcile.NoDup(members)
  {
    assert store[bond := members][bond] == members;
  }

  /** A list that names a free interface twice is accepted and stored as it is. */
  lemma DuplicatesAreAccepted(bond: Name, x: Name, sys: System)
    requires x in sys.interfaces && sys.supportsBond(x) && x !in sys.reserved && !sys.inService(x)
    ensures var store := map[bond := []];
            && ListsWithoutDuplicates(store)
            && SetAccepted(store, bond, store[bond], [x, x], sys, true)
            && Edited(store, SetEdit(bond, [x, x], sys, true)) == map[bond := [x, x]]
            && !ListsWithoutDuplicates(map[bond := [x, x]])
  {
    var store, ms := map[bond := []], [x, x];
    assert Available(store, sys, x);
    assert forall i :: 0 <= i < |ms| ==> Allowed(store, [], sys, ms[i]);
    assert store[bond := ms] == map[bond := ms] && !BondReconcile.NoDup(map[bond := ms][bond]) by {
      assert ms[0] == ms[1];
    }
  }

  /** The configuration read back from the store, bond by bond in any order. */
  ghost predicate ReadsBack(config: seq<Config>, store: Store) {
    && BondReconcile.DistinctBonds(config)
    && forall i :: 0 <= i < |config| ==> config[i].name in store && store[config[i].name] == config[i].members
  }

  /** Disjoint stored lists without duplicates are what the bond update needs of its configuration. */
  lemma StoreIsExclusive(config: seq<Config>, store: Store)
    requires ReadsBack(config, store) && Disjoint(store) && ListsWithoutDuplicates(store)
    ensures BondReconcile.Exclusive(config)
  {
    forall i, j | 0 <= i < |config| && 0 <= j < |config| && i != j
      ensures NoneShared(config[i].members, config[j].members)
    {
      assert config[i].name != config[j].name;
      assert store[config[i].name] == config[i].members && store[config[j].name] == config[j].members;
    }
  }

  // ----- the calls themselves

  class Prefs {
    var bonds: Store

    /** `SCBondInterfaceCreate`; the store may refuse the write. */
    method Create(writes: bool) returns (created: bool, bond: Name)
      modifies this
      ensures bonds == Edited(old(bonds), CreateEdit(writes))
      ensures created == writes && bond == BondName(FirstUnused(old(bonds), 0))
    {
      ghost var n := FirstUnused(bonds, 0);
      var i := 0;
      while BondName(i) in bonds
        invariant 0 <= i <= n
        decreases n - i
      {
        i := i + 1;
      }
      bond := BondName(i);
      if writes { bonds := bonds[bond := []]; }
      created := writes;
    }

    /** `SCBondInterfaceRemove`. */
    method Remove(bond: Name, writes: bool) returns (ok: bool)
      modifies this
      ensures bonds == Edited(old(bonds), RemoveEdit(bond, writes))
      ensures ok <==> writes && bond in old(bonds)
    {
      ok := writes && bond in bonds;
      if ok { bonds := bonds - {bond}; }
    }

    /** The members of all stored bonds. */
    method CollectMembers() returns (excluded: set<Name>)
      ensures forall x :: x in excluded <==> Stored(bonds, x)
    {
      excluded := {};
      var names := bonds.Keys;
      while names != {}
        invariant names <= bonds.Keys
        invariant forall x :: x in excluded <==> exists b :: b in bonds && b !in names && x in bonds[b]
        decreases names
      {
        var b :| b in names;
        var members := bonds[b];
        ghost var before := excluded;
        for j := 0 to |members|
          invariant forall x :: x in excluded <==> x in before || x in members[..j]
        {
          excluded := excluded + {members[j]};
        }
        assert members[..|members|] == members;
        names := names - {b};
      }
    }

    /** `SCBondInterfaceCopyAvailableMemberInterfaces`. */
    method CopyAvailable(sys: System) returns (available: seq<Name>)
      ensures forall x :: x in available <==> Available(bonds, sys, x)
      ensures forall x :: x in available <==>
                x in sys.interfaces && sys.supportsBond(x) && x !in sys.reserved && forall b :: b in bonds ==> x !in bonds[b]
    {
      var excluded := CollectMembers();
      excluded := excluded + sys.reserved;
      available := [];
      for i := 0 to |sys.interfaces|
        invariant forall x :: x in available <==> x in sys.interfaces[..i] && sys.supportsBond(x) && x !in excluded
      {
        var x := sys.interfaces[i];
        if !sys.supportsBond(x) { continue; }
        if x in excluded { continue; }
        available := available + [x];
      }
      assert sys.interfaces[..|sys.interfaces|] == sys.interfaces;
    }
  }

  class Handle {
    const name: Name
    const prefs: Prefs?
    var interfaces: seq<Name>

    constructor (name: Name, prefs: Prefs?)
      ensures this.name == name && this.prefs == prefs && interfaces == []
    {
      this.name, this.prefs, interfaces := name, prefs, [];
    }

    /** `__SCBondInterfaceSetMemberInterfaces`: stores the list, then keeps it in the handle. */
    method StoreMembers(members: seq<Name>, writes: bool) returns (ok: bool)
      modifies this, prefs
      ensures prefs == null ==> ok && interfaces == members
      ensures prefs != null ==>
                (ok <==> name in old(prefs.bonds) && (old(prefs.bonds)[name] == members || writes))
                && prefs.bonds == (if ok then old(prefs.bonds)[name := members] else old(prefs.bonds))
      ensures interfaces == if ok then members else old(interfaces)
    {
      ok := true;
      if prefs != null {
        if name !in prefs.bonds { return false; }
        if prefs.bonds[name] != members {
          ok := writes;
          if ok { prefs.bonds := prefs.bonds[name := members]; }
        } else {
          assert prefs.bonds == prefs.bonds[name := members];
        }
      }
      if ok { interfaces := members; }
    }

    /** `SCBondInterfaceSetMemberInterfaces`: a refused call changes neither the store nor the handle. */
    method SetMembers(members: seq<Name>, sys: System, writes: bool) returns (ok: bool)
      modifies this, prefs
      ensures prefs == null ==> ok && interfaces == members
      ensures prefs != null ==> (ok <==> SetAccepted(old(prefs.bonds), name, old(interfaces), members, sys, writes))
      ensures prefs != null ==>
                (ok <==> name in old(prefs.bonds) && (old(prefs.bonds)[name] == members || writes)
                         && forall x :: x in members ==>
                              x in old(interfaces)
                              || (x in sys.interfaces && sys.supportsBond(x) && x !in sys.reserved && !sys.inService(x)
                                  && forall b :: b in old(prefs.bonds) ==> x !in old(prefs.bonds)[b]))
      ensures prefs != null ==> prefs.bonds == if ok then old(prefs.bonds)[name := members] else old(prefs.bonds)
      ensures interfaces == if ok then members else old(interfaces)
    {
      if prefs != null {
        var available := prefs.CopyAvailable(sys);
        for i := 0 to |members|
          invariant prefs.bonds == old(prefs.bonds) && interfaces == old(interfaces)
          invariant forall j :: 0 <= j < i ==> Allowed(prefs.bonds, interfaces, sys, members[j])
        {
          if members[i] in interfaces { continue; }
          if members[i] in available {
            if sys.inService(members[i]) { return false; }
            continue;
          }
          return false;
        }
      }
      ok := StoreMembers(members, writes);
    }

    /** Through a handle that is up to date, the call is an edit of the store and the handle stays up to date. */
    method SetMembersInSync(members: seq<Name>, sys: System, writes: bool) returns (ok: bool)
      requires prefs != null && name in prefs.bonds && interfaces == prefs.bonds[name]
      modifies this, prefs
      ensures prefs.bonds == Edited(old(prefs.bonds), SetEdit(name, members, sys, writes))
      ensures name in prefs.bonds && interfaces == prefs.bonds[name]
    {
      ok := SetMembers(members, sys, writes);
    }
  }
}
