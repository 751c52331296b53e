/**
 The `nwi_state` block itself: one array holds the IPv4 records in its first half and the IPv6
 records in its second, beside the counts and the list of interfaces. Records are addressed by
 their position in the array; -1 stands for NULL.
 */
module StateBlock {
  import opened IfFlags
  import opened IfStates
  import opened Options
  import opened StateModel
  import StateRuns
  import InterfaceList

  class Block {
    const maxIfCount: nat
    const ifstates: array<IfState>
    var ipv4Count: nat
    var ipv6Count: nat
    var ifList: seq<int>
    var generationCount: nat
    var reachFlagsV4: bv32
    var reachFlagsV6: bv32

    /** The live records, as a value. */
    ghost var value: State

    ghost predicate Shape()
      reads this, ifstates
    {
      && ifstates.Length == 2 * maxIfCount && |ifList| <= maxIfCount
      && ipv4Count <= maxIfCount && ipv6Count <= maxIfCount
      && value == State(maxIfCount, ifstates[..ipv4Count], ifstates[maxIfCount..maxIfCount + ipv6Count])
    }

    /** The allocated and zeroed block. */
    constructor (max: nat)
      ensures Shape() && maxIfCount == max && fresh(ifstates)
      ensures value == State(max, [], []) && ifList == [] && ipv4Count == ipv6Count == 0
      ensures generationCount == 0 && reachFlagsV4 == 0 && reachFlagsV6 == 0
    {
      maxIfCount := max;
      ifstates := new IfState[2 * max](_ => Blank("", Inet));
      ipv4Count, ipv6Count, ifList, generationCount := 0, 0, [], 0;
      reachFlagsV4, reachFlagsV6 := 0, 0;
      value := State(max, [], []);
    }

    function Count(af: Af): nat
      reads this
    {
      if af == Inet then ipv4Count else ipv6Count
    }

    function Start(af: Af): nat {
      if af == Inet then 0 else maxIfCount
    }

    // ----- reading and writing records

    /** The record at a live position. */
    function Load(p: int): (e: IfState)
      requires Shape() && StateRuns.Live(value, p)
      reads this, ifstates
      ensures e == StateRuns.At(value, p)
    {
      ifstates[p]
    }

    /** Record i of a family. */
    function Get(af: Af, i: nat): (e: IfState)
      requires Shape() && i < Count(af)
      reads this, ifstates
      ensures i < |value.List(af)| && e == value.List(af)[i]
    {
      ifstates[Start(af) + i]
    }

    method Put(af: Af, i: nat, e: IfState)
      requires Shape() && i < Count(af)
      modifies this`value, ifstates
      ensures Shape() && i < |old(value).List(af)| && value == old(value).With(af, old(value).List(af)[i := e])
    {
      ifstates[Start(af) + i] := e;
      value := value.With(af, value.List(af)[i := e]);
      assert value.v4 == ifstates[..ipv4Count];
      assert value.v6 == ifstates[maxIfCount..maxIfCount + ipv6Count];
    }

    /** Writes a record after the last of a family and counts it; the caller answers for the room. */
    method Push(af: Af, e: IfState)
      requires Shape() && Count(af) < maxIfCount
      modifies this`value, this`ipv4Count, this`ipv6Count, ifstates
      ensures Shape() && Count(af) == old(Count(af)) + 1 && Count(OtherAf(af)) == old(Count(OtherAf(af)))
      ensures value == old(value).With(af, old(value).List(af) + [e])
    {
      ifstates[Start(af) + Count(af)] := e;
      if af == Inet { ipv4Count := ipv4Count + 1; } else { ipv6Count := ipv6Count + 1; }
      value := value.With(af, value.List(af) + [e]);
      assert value.v4 == ifstates[..ipv4Count];
      assert value.v6 == ifstates[maxIfCount..maxIfCount + ipv6Count];
    }

    lemma Counts(af: Af)
      requires Shape()
      ensures |value.List(af)| == Count(af) && value.max == maxIfCount
    {
    }

    function GetWithIndex(af: Af, idx: nat): (pos: int)
      requires Shape()
      reads this, ifstates
      ensures pos == if idx < Count(af) then Start(af) + idx else -1
      ensures pos < ifstates.Length
    {
      if idx >= maxIfCount then -1
      else if idx >= Count(af) then -1
      else if af == Inet6 then idx + maxIfCount
      else idx
    }

    static method GetWithName(state: Block?, af: Af, name: IfName) returns (pos: int)
      requires state != null ==> state.Shape()
      ensures state == null ==> pos == -1
      ensures state != null ==>
                var i := IndexOf(state.value.List(af), name);
                pos == if i < 0 then -1 else state.Start(af) + i
    {
      if state == null { return -1; }
      var count := state.Count(af);
      if count > state.maxIfCount { return -1; }
      ghost var l := state.value.List(af);
      state.Counts(af);
      var idx := 0;
      while idx < count
        invariant idx <= count
        invariant forall k :: 0 <= k < idx ==> l[k].ifname != name
      {
        var p := state.GetWithIndex(af, idx);
        if p == -1 { break; }
        assert state.ifstates[p] == state.Get(af, idx) == l[idx];
        if state.ifstates[p].ifname == name {
          return p;
        }
        idx := idx + 1;
      }
      return -1;
    }

    /** `nwi_ifstate_get_alias` of the live record at p. */
    method GetAlias(p: int, af: Af) returns (q: int)
      requires Shape() && StateRuns.Live(value, p)
      ensures StateRuns.Alias(value, p, af) == None ==> q == -1
      ensures StateRuns.Alias(value, p, af) != None ==> q == StateRuns.Alias(value, p, af).value
    {
      var e := Load(p);
      if e.af == af { return p; }
      if e.aliasOffset == 0 { return -1; }
      return p + e.aliasOffset;
    }

    // ----- the interface list

    method AddToIfList(p: int)
      requires Shape() && StateRuns.Live(value, p)
      requires InterfaceList.AllLive(value, ifList)
      modifies this`ifList
      ensures Shape()
      ensures ifList == InterfaceList.AddOne(value, old(ifList), p)
      ensures InterfaceList.AllLive(value, ifList)
    {
      ghost var s, acc := value, ifList;
      var e := Load(p);
      InterfaceList.ListedMeans(s, acc, e.ifname);
      if NotInIfList(e.flags) { return; }
      if |ifList| >= maxIfCount { return; }
      var i := 0;
      while i < |ifList|
        invariant i <= |ifList|
        invariant forall k :: 0 <= k < i ==> StateRuns.At(s, acc[k]).ifname != e.ifname
      {
        if Load(ifList[i]).ifname == e.ifname { return; }
        i := i + 1;
      }
      ifList := ifList + [p];
    }

    /** Whether the IPv4 record is next: the better rank of the two, IPv4 on equal ranks. */
    method PrefersV4(scan4: int, scan6: int, ghost v4: nat, ghost v6: nat) returns (addV4: bool)
      requires Shape() && v4 <= ipv4Count && v6 <= ipv6Count
      requires scan4 == GetWithIndex(Inet, v4) && scan6 == GetWithIndex(Inet6, v6)
      ensures |value.v4| == ipv4Count && |value.v6| == ipv6Count
      ensures addV4 <==> v4 < ipv4Count && (v6 == ipv6Count || value.v4[v4].rank <= value.v6[v6].rank)
    {
      addV4 := false;
      if scan4 != -1 && scan6 != -1 {
        if Load(scan4).rank <= Load(scan6).rank {
          addV4 := true;
        }
      } else if scan4 != -1 {
        addV4 := true;
      }
    }

    /** One turn of the loop: the better of the two next records is offered to the list. */
    method OfferNext(v4: nat, v6: nat) returns (addV4: bool)
      requires Shape() && v4 <= ipv4Count == |value.v4| && v6 <= ipv6Count == |value.v6| && (v4 < ipv4Count || v6 < ipv6Count)
      requires InterfaceList.AllLive(value, ifList)
      modifies this`ifList
      ensures Shape() && InterfaceList.AllLive(value, ifList)
      ensures addV4 == InterfaceList.V4Next(value, v4, v6)
      ensures ifList == InterfaceList.AddNext(value, old(ifList), v4, v6)
    {
      addV4 := PrefersV4(GetWithIndex(Inet, v4), GetWithIndex(Inet6, v6), v4, v6);
      if addV4 {
        AddToIfList(v4);
      } else {
        AddToIfList(maxIfCount + v6);
      }
    }

    method SetIfList()
      requires Shape()
      modifies this`ifList
      ensures Shape()
      ensures ifList == InterfaceList.IfList(value)
    {
      var v4: nat, v6: nat := 0, 0;
      ifList := [];
      ghost var s, n4, n6, target := value, ipv4Count, ipv6Count, InterfaceList.IfList(value);
      while GetWithIndex(Inet, v4) != -1 || GetWithIndex(Inet6, v6) != -1
        invariant Shape() && value == s && v4 <= n4 == ipv4Count == |s.v4| && v6 <= n6 == ipv6Count == |s.v6|
        invariant InterfaceList.AllLive(s, ifList)
        invariant InterfaceList.Remaining(s, v4, v6, ifList) == target
        decreases n4 - v4 + n6 - v6
      {
        ghost var acc := ifList;
        var addV4 := OfferNext(v4, v6);
        InterfaceList.Taken(s, v4, v6, acc, ifList);
        v4, v6 := if addV4 then v4 + 1 else v4, if addV4 then v6 else v6 + 1;
      }
      InterfaceList.NothingLeft(s, ifList);
    }

    // ----- growing

    method ShiftLink(af: Af, i: nat, delta: int)
      requires Shape() && i < Count(af)
      modifies this`value, ifstates
      ensures Shape() && i < |old(value).List(af)|
      ensures var l := old(value).List(af); value == old(value).With(af, l[i := ShiftOne(l[i], delta)])
    {
      var ifstate := Get(af, i);
      if ifstate.aliasOffset != 0 {
        ifstate := ifstate.(aliasOffset := ifstate.aliasOffset + delta);
      }
      Put(af, i, ifstate);
    }

    /** The turn of one record, the links before it being done. */
    method ShiftTurn(af: Af, i: nat, delta: int, ghost s: State, ghost l: seq<IfState>, ghost shifted: seq<IfState>)
      requires Shape() && i < Count(af) && |l| == |shifted| == Count(af) && shifted[i] == ShiftOne(l[i], delta)
      requires Replaced(s, value, af, shifted[..i] + l[i..])
      modifies this`value, ifstates
      ensures Shape() && Count(af) == |l| && Replaced(s, value, af, shifted[..i + 1] + l[i + 1..])
    {
      ReplacedPrefix(shifted, l, i);
      ShiftLink(af, i, delta);
    }

    /** Adds to every link of a family that is set. */
    method ShiftLinks(af: Af, delta: int)
      requires Shape()
      modifies this`value, ifstates
      ensures Shape() && value == old(value).With(af, Shift(old(value).List(af), delta))
    {
      ghost var s, l := value, value.List(af);
      ghost var shifted := Shift(l, delta);
      Counts(af);
      var count := Count(af);
      for i := 0 to count
        invariant Shape() && Count(af) == |l| && Replaced(s, value, af, shifted[..i] + l[i..])
      {
        ShiftTurn(af, i, delta, s, l, shifted);
      }
      ReplacedAll(shifted, l);
      ReplacedIsWith(s, value, af, shifted);
    }

    method FixAfAliases(oldMax: nat)
      requires Shape() && oldMax <= maxIfCount
      modifies this`value, ifstates
      ensures Shape() && value == State(maxIfCount, Shift(old(value).v4, maxIfCount - oldMax), Shift(old(value).v6, oldMax - maxIfCount))
    {
      var offset := maxIfCount - oldMax;
      ShiftLinks(Inet, offset);
      ShiftLinks(Inet6, -offset);
    }

    /** One `memcpy`: the records of one family of a smaller block. */
    method CopyRecords(from: Block, af: Af)
      requires Shape() && Count(af) == 0 && from.Shape() && from.maxIfCount <= maxIfCount
      requires from.ifstates != ifstates && from != this
      modifies this`value, this`ipv4Count, this`ipv6Count, ifstates
      ensures Shape() && Count(OtherAf(af)) == old(Count(OtherAf(af)))
      ensures value == old(value).With(af, from.value.List(af))
    {
      ghost var s, l := value, from.value.List(af);
      from.Counts(af);
      var n := from.Count(af);
      for i := 0 to n
        invariant Shape() && Count(af) == i && Count(OtherAf(af)) == old(Count(OtherAf(af)))
        invariant value == s.With(af, l[..i])
      {
        Push(af, from.Get(af, i));
      }
      assert l[..n] == l;
    }

    static method New(current: Block?, max: nat) returns (r: Block?)
      requires current != null ==> current.Shape()
      ensures r == null <==> current == null && max == 0
      ensures r != null ==> r.Shape()
      ensures current != null && max <= current.maxIfCount ==> r == current
      ensures r != null && r != current ==> fresh(r) && fresh(r.ifstates)
      ensures r != null && r != current ==> r.generationCount == 0 && r.reachFlagsV4 == 0 && r.reachFlagsV6 == 0
      ensures current == null && max > 0 ==> r.value == State(max, [], []) && r.ifList == []
      ensures current != null ==> r.value == Grow(current.value, max)
      ensures current != null && r != current ==> r.ifList == InterfaceList.IfList(r.value)
    {
      if current == null && max == 0 { return null; }
      if current != null {
        if current.maxIfCount >= max { return current; }
      }
      var state := new Block(max);
      if current != null {
        state.TakeOver(current);
      }
      return state;
    }

    /** What `nwi_state_new` does with the block it replaces. */
    method TakeOver(from: Block)
      requires Shape() && value == State(maxIfCount, [], []) && ipv4Count == ipv6Count == 0
      requires from.Shape() && from.maxIfCount < maxIfCount && from.ifstates != ifstates && from != this
      modifies this`value, this`ipv4Count, this`ipv6Count, this`ifList, ifstates
      ensures Shape() && value == Grow(from.value, maxIfCount)
      ensures ifList == InterfaceList.IfList(value)
    {
      ghost var f := from.value;
      CopyRecords(from, Inet6);
      CopyRecords(from, Inet);
      FixAfAliases(from.maxIfCount);
      assert value == Grow(f, maxIfCount);
      SetIfList();
    }

    method Finalize()
      requires Shape()
      modifies this`ifList
      ensures Shape()
      ensures ifList == InterfaceList.IfList(value)
    {
      SetIfList();
    }

    method ClearFamily(af: Af)
      requires Shape()
      modifies this`value, this`ipv4Count, this`ipv6Count
      ensures Shape() && value == Clear(old(value), af) && Replaced(old(value), value, af, [])
    {
      if af == Inet { ipv4Count := 0; } else { ipv6Count := 0; }
      value := Clear(value, af);
    }

    // ----- adding

    /** Record i of a family linked with its namesake of the other, if there is one. */
    method AddAlias(af: Af, i: nat)
      requires Shape() && i < Count(af) && Get(af, i).af == af
      modifies this`value, ifstates
      ensures Shape() && value == LinkUp(old(value), af, i)
    {
      var p := Start(af) + i;
      var alias := GetWithName(this, OtherAf(Get(af, i).af), Get(af, i).ifname);
      if alias == -1 { return; }
      Counts(OtherAf(af));
      ghost var s := value;
      SetOffset(af, i, alias - p);
      ghost var t := value;
      SetOffset(OtherAf(af), alias - Start(OtherAf(af)), p - alias);
      LinkedUp(s, t, value, af, i, alias - Start(OtherAf(af)), alias - p);
    }

    method SetOffset(af: Af, i: nat, offset: int)
      requires Shape() && i < Count(af)
      modifies this`value, ifstates
      ensures Shape() && i < |old(value).List(af)|
      ensures var l := old(value).List(af); value == old(value).With(af, l[i := l[i].(aliasOffset := offset)])
    {
      Put(af, i, Get(af, i).(aliasOffset := offset));
    }

    /** Updates the address, rank and flag fields of a record. */
    method SetFields(i: nat, u: Update)
      requires Shape() && i < Count(u.af)
      modifies this`value, ifstates
      ensures Shape() && i < |old(value).List(u.af)|
      ensures var l := old(value).List(u.af); value == old(value).With(u.af, l[i := Assign(l[i], u)])
    {
      var e := Get(u.af, i);
      match u.ifa {
        case Some(a) =>
          match u.af {
            case Inet => e := e.(address := a[..4] + e.address[4..]);
            case Inet6 => e := e.(address := a);
          }
        case None =>
      }
      e := e.(reachFlags := u.reachFlags);
      e := e.(rank := u.rank);
      e := e.(flags := e.flags.(public := Public(u.word)));
      Put(u.af, i, e);
    }

    /** The blank record at the end of a family, the last-item mark taken from its predecessor. */
    method AppendEmpty(name: IfName, af: Af)
      requires Shape() && Count(af) < maxIfCount
      modifies this`value, this`ipv4Count, this`ipv6Count, ifstates
      ensures Shape() && Count(af) == old(Count(af)) + 1
      ensures value == AppendBlank(old(value), name, af)
    {
      ghost var l := value.List(af);
      Counts(af);
      var count := Count(af);
      if count > 0 {
        var prev := Get(af, count - 1);
        Put(af, count - 1, prev.(flags := prev.flags.(last := false)));
      }
      var ifstate := Blank(name, af);
      ifstate := ifstate.(flags := ifstate.flags.(last := true));
      assert value.List(af) == Unmark(l);
      Push(af, ifstate);
      AddAlias(af, count);
    }

    method AddIfState(u: Update) returns (pos: int)
      requires Shape()
      modifies this`value, this`ipv4Count, this`ipv6Count, ifstates
      ensures Shape() && value == Add(old(value), u).0
      ensures pos == match Add(old(value), u).1 case None => -1 case Some(i) => Start(u.af) + i
    {
      pos := GetWithName(this, u.af, u.name);
      Counts(u.af);
      if pos != -1 {
        if Get(u.af, pos - Start(u.af)).rank < u.rank { return -1; }
      } else {
        if Count(u.af) == maxIfCount { return -1; }
        pos := Start(u.af) + Count(u.af);
        AppendEmpty(u.name, u.af);
      }
      SetFields(pos - Start(u.af), u);
    }
  }
}
