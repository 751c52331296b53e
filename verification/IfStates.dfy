/** One interface state record (`nwi_ifstate`): its flag word, its fields and name lookup. */
module IfStates {
  import opened IfFlags

  datatype Af = Inet | Inet6

  function OtherAf(af: Af): Af {
    if af == Inet then Inet6 else Inet
  }

  const IFNAMSIZ := 16

  /** Interface names leave room for the terminating NUL. */
  type IfName = s: string | |s| < IFNAMSIZ witness ""

  type Rank = r: nat | r < 0x1_0000_0000

  /** The address union: `in6_addr` overlays `in_addr`, which is its first four octets. */
  type AddressUnion = a: seq<bv8> | |a| == 16 witness seq(16, _ => 0)

  datatype IfState = IfState(
    ifname: IfName,
    flags: Flags,
    aliasOffset: int,
    rank: Rank,
    af: Af,
    address: AddressUnion,
    generation: nat,
    reachFlags: bv32)

  /** The record after `memset` to zero, with the name and family filled in. */
  function Blank(name: IfName, af: Af): IfState {
    IfState(name, Flags(0, Unchanged, false), 0, 0, af, seq(16, _ => 0), 0, 0)
  }

  // ----- name lookup

  /** The index of the first record at or after i with the given name, or -1. */
  function IndexFrom(s: seq<IfState>, name: IfName, i: nat): (r: int)
    requires i <= |s|
    ensures r == -1 || i <= r < |s|
    ensures r >= 0 ==> s[r].ifname == name
    ensures forall k :: i <= k < |s| && (r < 0 || k < r) ==> s[k].ifname != name
    decreases |s| - i
  {
    if i == |s| then -1 else if s[i].ifname == name then i else IndexFrom(s, name, i + 1)
  }

  /** The index of the first record with the given name, or -1. */
  function IndexOf(s: seq<IfState>, name: IfName): (r: int)
    ensures -1 <= r < |s|
    ensures r >= 0 ==> s[r].ifname == name
    ensures forall k :: 0 <= k < |s| && (r < 0 || k < r) ==> s[k].ifname != name
  {
    IndexFrom(s, name, 0)
  }

  predicate UniqueNames(s: seq<IfState>) {
    forall i, j :: 0 <= i < j < |s| ==> s[i].ifname != s[j].ifname
  }

  predicate HasName(s: seq<IfState>, name: IfName) {
    exists i :: 0 <= i < |s| && s[i].ifname == name
  }

  lemma IndexOfUnique(s: seq<IfState>, i: nat)
    requires UniqueNames(s) && i < |s|
    ensures IndexOf(s, s[i].ifname) == i
  {
  }

  /** Lookup depends only on the names, in order. */
  lemma IndexOfNames(s: seq<IfState>, t: seq<IfState>, name: IfName)
    requires |s| <= |t| && forall k :: 0 <= k < |s| ==> s[k].ifname == t[k].ifname
    ensures IndexOf(s, name) >= 0 ==> IndexOf(t, name) == IndexOf(s, name)
    ensures |s| == |t| ==> IndexOf(t, name) == IndexOf(s, name)
    ensures |t| == |s| + 1 && IndexOf(s, name) < 0 ==>
              IndexOf(t, name) == if t[|s|].ifname == name then |s| else -1
  {
    var i, j := IndexOf(s, name), IndexOf(t, name);
    if i >= 0 {
      assert t[i].ifname == name;
    }
  }

  lemma LastPut(l: seq<IfState>, e: IfState, e': IfState)
    ensures (l + [e])[|l|] == e && (l + [e])[|l| := e'] == l + [e']
  {
  }

  /** A list part way through being replaced from the front, one element further. */
  lemma ReplacedPrefix(target: seq<IfState>, l: seq<IfState>, i: nat)
    requires |target| == |l| && i < |l|
    ensures var mixed := target[..i] + l[i..];
            mixed[i] == l[i] && mixed[i := target[i]] == target[..i + 1] + l[i + 1..]
  {
  }

  lemma ReplacedAll(target: seq<IfState>, l: seq<IfState>)
    requires |target| == |l|
    ensures target[..0] + l[0..] == l && target[..|l|] + l[|l|..] == target
  {
  }
}
