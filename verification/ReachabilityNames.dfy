/** Which flags are named in the text: exactly those that find room when their turn comes. */
module ReachabilityNames {
  import opened ReachabilityFlags

  /** The names have different bits. */
  predicate DistinctBits(names: seq<Name>) {
    forall i, j :: 0 <= i < j < |names| ==> names[i].bit != names[j].bit
  }

  /** In g, the first i names come from before names[k] in the table, the others do not. */
  predicate SplitAt(names: seq<Name>, g: seq<Name>, k: nat, i: nat)
    requires k < |names|
  {
    && i <= |g|
    && (forall a :: 0 <= a < i ==> g[a] in names[..k])
    && (forall a :: i <= a < |g| ==> g[a] in names[k..])
  }

  /** names[k] is given exactly when its flag is set and it fits behind the i names given before it. */
  ghost predicate GivenIffFits(flags: Flags, head: string, room: nat, names: seq<Name>, g: seq<Name>, k: nat, i: nat)
    requires k < |names|
  {
    && SplitAt(names, g, k, i)
    && (i < |g| && g[i] == names[k] <==>
          names[k].bit in flags && |head| + |Joined(g[..i])| + |names[k].text| + 1 < room)
  }

  ghost predicate TakesItsTurn(flags: Flags, head: string, room: nat, names: seq<Name>, g: seq<Name>, k: nat)
    requires k < |names|
  {
    exists i: nat :: GivenIffFits(flags, head, room, names, g, k, i)
  }

  ghost predicate AllGivenIffFit(flags: Flags, head: string, room: nat, names: seq<Name>, g: seq<Name>) {
    && (forall a :: 0 <= a < |g| ==> g[a] in names)
    && forall k :: 0 <= k < |names| ==> TakesItsTurn(flags, head, room, names, g, k)
  }

  /** What is tried first stays at the front; what follows comes from the names tried later. */
  lemma {:induction false} TriedFirst(t: Text, names: seq<Name>, size: nat, k: nat)
    requires k <= |names|
    ensures var u, v := TryAll(t, names[..k], size), TryAll(t, names, size);
            u.named <= v.named && forall a :: |u.named| <= a < |v.named| ==> v.named[a] in names[k..]
  {
    var n := |names| - 1;
    if k <= n {
      assert names[..n][..k] == names[..k];
      TriedFirst(t, names[..n], size, k);
      var w, v := TryAll(t, names[..n], size), TryAll(t, names, size);
      assert names[k..] == names[..n][k..] + [names[n]];
      forall a | |TryAll(t, names[..k], size).named| <= a < |v.named| ensures v.named[a] in names[k..] {
        if a < |w.named| { assert w.named[a] in names[..n][k..]; }
      }
    } else {
      assert names[..k] == names;
    }
  }

  /** The turn of one name. */
  lemma TurnTaken(head: string, flags: Flags, room: nat, names: seq<Name>, k: nat) returns (i: nat)
    requires |head| < room && DistinctBits(names) && k < |names|
    ensures GivenIffFits(flags, head, room, names, TryAll(Text(head, flags, []), names, room).named, k, i)
  {
    var t := Text(head, flags, []);
    var u, v, g := TryAll(t, names[..k], room), TryAll(t, names[..k + 1], room), TryAll(t, names, room).named;
    i := |u.named|;
    assert v == Try(u, names[k], room) by { assert names[..k + 1][..k] == names[..k]; }
    TriedFirst(t, names, room, k);
    TriedFirst(t, names, room, k + 1);
    TryAllAccounts(head, flags, room, names[..k]);
    NotTriedYet(names, u.named, k);
    assert g[..i] == u.named;
    TurnIs(u, v, flags, head, room, names, g, k);
  }

  lemma TurnIs(u: Text, v: Text, flags: Flags, head: string, room: nat, names: seq<Name>, g: seq<Name>, k: nat)
    requires k < |names| && DistinctBits(names) && v == Try(u, names[k], room) && u.named <= g && v.named <= g
    requires u.remaining == flags - Bits(u.named) && names[k].bit !in Bits(u.named) && u.str == head + Joined(u.named) && |u.str| < room
    requires forall a :: 0 <= a < |u.named| ==> u.named[a] in names[..k]
    requires forall a :: |u.named| <= a < |g| ==> g[a] in names[k..]
    requires forall a :: |v.named| <= a < |g| ==> g[a] in names[k + 1..]
    ensures GivenIffFits(flags, head, room, names, g, k, |u.named|)
  {
    var i := |u.named|;
    assert g[..i] == u.named;
    if v.named == u.named {
      if i < |g| { LaterIsOther(names, k, g[i]); }
    } else {
      assert g[i] == v.named[i] == names[k];
    }
  }

  lemma NotTriedYet(names: seq<Name>, named: seq<Name>, k: nat)
    requires DistinctBits(names) && k < |names| && forall a :: 0 <= a < |named| ==> named[a] in names[..k]
    ensures names[k].bit !in Bits(named)
  {
    forall a | 0 <= a < |named| ensures named[a].bit != names[k].bit {
      var j :| 0 <= j < k && names[..k][j] == named[a];
    }
  }

  lemma LaterIsOther(names: seq<Name>, k: nat, x: Name)
    requires DistinctBits(names) && k < |names| && x in names[k + 1..]
    ensures x != names[k]
  {
    var j :| 0 <= j < |names[k + 1..]| && names[k + 1..][j] == x;
    assert names[k + 1 + j] == x;
  }

  lemma TableIsDistinct(iphone: bool)
    ensures DistinctBits(NamesFor(iphone))
  {
  }

  /**
   For flags that are not zero: one list of names has each flag of the table that is set and, in the order of the
   table, fits behind the ones before it, and no other. That list is given, unless flags remain for whose number
   there would be no room behind it; then no name is given.
   */
  lemma NamedIffFits(flags: Flags, debug: bool, iphone: bool, size: nat) returns (g: seq<Name>)
    requires flags != {} && size >= MIN_SIZE
    ensures AllGivenIffFit(flags, Head(flags, debug), if debug then size - 1 else size, NamesFor(iphone), g)
    ensures Listed(flags, debug, iphone, size).named ==
            if flags != Bits(g) && |Head(flags, debug)| + |Joined(g)| + 12 >= (if debug then size - 1 else size) then [] else g
  {
    var head, room, names := Head(flags, debug), Room(debug, size), NamesFor(iphone);
    g := TryAll(Text(head, flags, []), names, room).named;
    TableIsDistinct(iphone);
    TurnsTaken(head, flags, room, names);
    TryAllAccounts(head, flags, room, names);
    RestIsEmpty(flags, Bits(g));
  }

  lemma TurnsTaken(head: string, flags: Flags, room: nat, names: seq<Name>)
    requires |head| < room && DistinctBits(names)
    ensures AllGivenIffFit(flags, head, room, names, TryAll(Text(head, flags, []), names, room).named)
  {
    var g := TryAll(Text(head, flags, []), names, room).named;
    TryAllAccounts(head, flags, room, names);
    forall k | 0 <= k < |names| ensures TakesItsTurn(flags, head, room, names, g, k) {
      var i := TurnTaken(head, flags, room, names, k);
    }
  }

  lemma RestIsEmpty(a: set<nat>, b: set<nat>)
    requires b <= a
    ensures a - b == {} <==> a == b
  {
    assert a == (a - b) + b;
  }

  // ----- a large buffer

  lemma {:induction false} TriedLength(t: Text, names: seq<Name>, size: nat)
    ensures |TryAll(t, names, size).str| <= |t.str| + |Joined(names)|
  {
    if names != [] { TriedLength(t, names[..|names| - 1], size); }
  }

  /** With room for all of them, the names given are those of all flags that are set. */
  lemma {:induction false} AllFit(t: Text, names: seq<Name>, size: nat)
    requires |t.str| + |Joined(names)| + 1 < size && DistinctBits(names) && t.named == []
    ensures TryAll(t, names, size).remaining == t.remaining - BitsOf(names)
  {
    if names != [] {
      var n := |names| - 1;
      TriedLength(t, names[..n], size);
      AllFit(t, names[..n], size);
      assert BitsOf(names) == BitsOf(names[..n]) + {names[n].bit} by { BitsNext(names); }
    }
  }

  function BitsOf(names: seq<Name>): set<nat> {
    set i | 0 <= i < |names| :: names[i].bit
  }

  lemma BitsNext(names: seq<Name>)
    requires names != []
    ensures BitsOf(names) == BitsOf(names[..|names| - 1]) + {names[|names| - 1].bit}
  {
    var n := |names| - 1;
    forall bit | bit in BitsOf(names) ensures bit in BitsOf(names[..n]) + {names[n].bit} {
      var i :| 0 <= i < |names| && names[i].bit == bit;
      if i < n { assert names[..n][i].bit == bit; }
    }
    forall i | 0 <= i < n ensures names[..n][i].bit in BitsOf(names) { assert names[i].bit in BitsOf(names); }
    assert names[n].bit in BitsOf(names);
  }

  lemma JoinedNext(names: seq<Name>, k: nat)
    requires k < |names|
    ensures |Joined(names[..k + 1])| == |Joined(names[..k])| + |names[k].text|
  {
    assert names[..k + 1][..k] == names[..k];
  }

  lemma TableLength()
    ensures |Joined(NAMES)| == 182 && |Joined(NAMES[..8])| == 177
  {
    var all := NAMES;
    assert all[..9] == all;
    assert |all[0].text| == 10 && |all[1].text| == 21 && |all[2].text| == 20 && |all[3].text| == 32 && |all[4].text| == 31;
    assert |all[5].text| == 22 && |all[6].text| == 14 && |all[7].text| == 27 && |all[8].text| == 5;
    forall k | 0 <= k < 9 ensures |Joined(all[..k + 1])| == |Joined(all[..k])| + |all[k].text| { JoinedNext(all, k); }
    assert |Joined(all[..0])| == 0;
    assert |Joined(all[..1])| == 10;
    assert |Joined(all[..2])| == 31;
    assert |Joined(all[..3])| == 51;
    assert |Joined(all[..4])| == 83;
    assert |Joined(all[..5])| == 114;
    assert |Joined(all[..6])| == 136;
    assert |Joined(all[..7])| == 150;
  }

  /** A buffer of 256 characters has room for everything: all flags with a name are named, only the others are in the number. */
  lemma LargeBufferNamesAll(flags: Flags, debug: bool, iphone: bool, size: nat)
    requires flags != {} && size >= 256
    ensures Listed(flags, debug, iphone, size).remaining
            == flags - if iphone then {0, 1, 2, 3, 4, 5, 16, 17, 18} else {0, 1, 2, 3, 4, 5, 16, 17}
  {
    var head, room, names := Head(flags, debug), Room(debug, size), NamesFor(iphone);
    var t := Text(head, flags, []);
    TableIsDistinct(iphone);
    TableLength();
    AllFit(t, names, room);
    TriedLength(t, names, room);
    TableBits();
  }

  lemma TableBits()
    ensures BitsOf(NAMES) == {0, 1, 2, 3, 4, 5, 16, 17, 18} && BitsOf(NAMES[..8]) == {0, 1, 2, 3, 4, 5, 16, 17}
  {
    var all, most := NAMES, NAMES[..8];
    assert forall i :: 0 <= i < 8 ==> most[i] == all[i];
    assert all[0].bit == 1 && all[1].bit == 0 && all[2].bit == 2 && all[3].bit == 3 && all[4].bit == 5 && all[5].bit == 4;
    assert all[6].bit == 16 && all[7].bit == 17 && all[8].bit == 18;
    assert most[0].bit == 1 && most[1].bit == 0 && most[2].bit == 2 && most[3].bit == 3 && most[4].bit == 5 && most[5].bit == 4;
    assert most[6].bit == 16 && most[7].bit == 17;
  }
}
