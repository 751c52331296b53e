/** The expansion of one resolver, as a function of its bytes and the padding, and what it achieves. */
module DnsResolver {
  import opened Options
  import opened DnsLayout
  import opened DnsDecode
  import opened DnsSlots

  /** The attribute loop: it stops at an attribute for which there is no list. */
  function Steps(w: Work, attrs: seq<Attr>): (bool, Work) {
    if attrs == [] then (true, w)
    else
      var n := |attrs| - 1;
      var (ok, u) := Steps(w, attrs[..n]);
      if !ok then (false, u)
      else
        match Step(u, attrs[n])
        case None => (false, u)
        case Some(v) => (true, v)
  }

  /** The counts of the header are those of the attributes. */
  predicate Complete(w: Work) {
    && w.nNameserver == w.header.numbers.nNameserver
    && w.nSearch == w.header.numbers.nSearch
    && w.nSortaddr == w.header.numbers.nSortaddr
  }

  type Resolvers = map<nat, Header>

  /** Success, the padding left, and the memory. */
  datatype Resolved = Resolved(ok: bool, padding: nat, nPadding: nat, resolvers: Resolvers, slots: Slots)

  /** The resolver's fields before its attributes are looked at. */
  function Initial(s: seq<Byte>, at: nat, c: Claims): Header
    requires at + RESOLVER_SIZE <= |s|
  {
    Header(NumbersAt(s, at), None, c.first, c.second, c.third, None, None, None)
  }

  /** `_dns_configuration_expand_resolver` on the n bytes at `at`. */
  function Resolve(s: seq<Byte>, at: nat, n: nat, padding: nat, nPadding: nat, resolvers: Resolvers, slots: Slots): Resolved
    requires at + n <= |s| && Readable(s, at, n)
  {
    if n < RESOLVER_SIZE then Resolved(false, padding, nPadding, resolvers, slots)
    else
      var num := NumbersAt(s, at);
      match ClaimThree(padding, nPadding, num.nNameserver, num.nSearch, num.nSortaddr)
      case None => Resolved(false, padding, nPadding, resolvers, slots)
      case Some(c) =>
        var h := Initial(s, at, c);
        if !Checked(s, at, n) then Resolved(false, c.padding, c.nPadding, resolvers[at := h], slots)
        else
          var (ok, w) := Steps(Work(h, slots, 0, 0, 0), ResolverAttrs(s, at, n));
          Resolved(ok && Complete(w), c.padding, c.nPadding, resolvers[at := w.header], w.slots)
  }

  // ----- the loop

  /** What holds of the loop's state after the attributes `done`, the slots having been `before` at its start. */
  ghost predicate LoopState(w: Work, before: Slots, h: Header, base: nat, done: seq<Attr>) {
    var r := RoomsOf(h.numbers);
    && w.header.numbers == h.numbers && Counted(w, done) && Pointers(w.header, done)
    && ListPointers(h, base) && ListPointers(w.header, base)
    && (InRoom(r, done) ==>
          && ListsFilled(r, w.slots, base, done)
          && KeptOutside(before, w.slots, base, base + r.Size())
          && NewInLists(before, w.slots, h))
  }

  lemma StepState(w: Work, before: Slots, h: Header, base: nat, done: seq<Attr>, a: Attr)
    requires LoopState(w, before, h, base, done) && Step(w, a).Some?
    ensures LoopState(Step(w, a).value, before, h, base, done + [a])
  {
    StepKeepsPointers(w, a, base);
    if InRoom(RoomsOf(h.numbers), done + [a]) {
      InRoomBefore(RoomsOf(h.numbers), done, a);
      StepLists(w, a, done, base);
      StepInLists(w, a, done);
      SameLists(w.header, h, base);
      NewJoins(before, w.slots, Step(w, a).value.slots, h, base, base + RoomsOf(h.numbers).Size());
    }
  }

  lemma SameLists(h: Header, g: Header, base: nat)
    requires h.numbers == g.numbers && ListPointers(h, base) && ListPointers(g, base)
    ensures forall p :: InLists(h, p) <==> InLists(g, p)
  {
  }

  lemma NewJoins(s0: Slots, s1: Slots, s2: Slots, h: Header, lo: nat, hi: nat)
    requires KeptOutside(s0, s1, lo, hi) && KeptOutside(s1, s2, lo, hi)
    requires NewInLists(s0, s1, h) && NewInLists(s1, s2, h)
    ensures KeptOutside(s0, s2, lo, hi) && NewInLists(s0, s2, h)
  {
  }

  /** The loop goes through all attributes, or stops after j of them for want of a list. */
  lemma {:induction false} StepsState(w0: Work, base: nat, attrs: seq<Attr>) returns (j: nat)
    requires LoopState(w0, w0.slots, w0.header, base, [])
    ensures var (ok, w) := Steps(w0, attrs);
            && j <= |attrs| && LoopState(w, w0.slots, w0.header, base, attrs[..j])
            && (if ok then j == |attrs| else j < |attrs| && Step(w, attrs[j]).None?)
  {
    if attrs == [] {
      j := 0;
    } else {
      var n := |attrs| - 1;
      j := StepsState(w0, base, attrs[..n]);
      var (ok, w) := Steps(w0, attrs[..n]);
      assert attrs[..n][..j] == attrs[..j];
      if ok && Step(w, attrs[n]).Some? {
        StepState(w, w0.slots, w0.header, base, attrs[..n], attrs[n]);
        assert attrs[..n] + [attrs[n]] == attrs == attrs[..|attrs|];
        j := |attrs|;
      }
    }
  }

  /** For want of a list: then the counts are not those of the attributes. */
  lemma MissingListMismatch(w: Work, h: Header, base: nat, attrs: seq<Attr>, j: nat)
    requires j < |attrs| <= BUF_MAX && w.header.numbers == h.numbers && ListPointers(w.header, base) && Step(w, attrs[j]).None?
    ensures !CountsMatch(h.numbers, attrs)
  {
    var kind := attrs[j].kind;
    PtrsOfPrefix(attrs, j, kind);
    if CountsMatch(h.numbers, attrs) { MatchingRooms(h.numbers, attrs); }
  }

  lemma {:induction false} InRoomPrefix(r: Rooms, attrs: seq<Attr>, j: nat)
    requires InRoom(r, attrs) && j <= |attrs|
    ensures InRoom(r, attrs[..j])
  {
    var n := |attrs| - 1;
    if j <= n {
      assert attrs == attrs[..n] + [attrs[n]];
      InRoomBefore(r, attrs[..n], attrs[n]);
      assert attrs[..n][..j] == attrs[..j];
      InRoomPrefix(r, attrs[..n], j);
    } else {
      assert attrs[..j] == attrs;
    }
  }

  // ----- the resolver

  lemma InitialState(s: seq<Byte>, at: nat, padding: nat, nPadding: nat, slots: Slots)
    requires at + RESOLVER_SIZE <= |s|
    ensures var num := NumbersAt(s, at);
            var claims := ClaimThree(padding, nPadding, num.nNameserver, num.nSearch, num.nSortaddr);
            && (claims.Some? <==> RoomsOf(num).Size() <= nPadding)
            && (claims.Some? ==>
                  && claims.value.padding == padding + RoomsOf(num).Size() && claims.value.nPadding == nPadding - RoomsOf(num).Size()
                  && LoopState(Work(Initial(s, at, claims.value), slots, 0, 0, 0), slots, Initial(s, at, claims.value), padding, []))
  {
    var num := NumbersAt(s, at);
    ClaimedInARow(padding, nPadding, num.nNameserver, num.nSearch, num.nSortaddr);
  }

  lemma {:induction false} AttrsFew(s: seq<Byte>, lo: nat, hi: nat)
    requires lo <= hi <= |s| && WellFormed(s, lo, hi)
    ensures ATTRIBUTE_SIZE * |Attrs(s, lo, hi)| <= hi - lo
    decreases hi - lo
  {
    if hi - lo >= ATTRIBUTE_SIZE { AttrsFew(s, lo + Get32(s, lo + 4), hi); }
  }

  /** A resolver whose counts are right takes just the padding that its counts say. */
  lemma ConsistentNeed(s: seq<Byte>, at: nat, n: nat)
    requires at + n <= |s| <= BUF_MAX && Readable(s, at, n) && Consistent(s, at, n)
    ensures RoomsOf(NumbersAt(s, at)).Size() == Need(NumbersAt(s, at)) && InRoom(RoomsOf(NumbersAt(s, at)), ResolverAttrs(s, at, n))
  {
    AttrsFew(s, at + RESOLVER_SIZE, at + n);
    MatchingRooms(NumbersAt(s, at), ResolverAttrs(s, at, n));
  }

  /** A resolver is expanded exactly when it is consistent and the padding has room for its lists. */
  lemma ResolveSucceeds(s: seq<Byte>, at: nat, n: nat, padding: nat, nPadding: nat, resolvers: Resolvers, slots: Slots)
    requires at + n <= |s| <= BUF_MAX && Readable(s, at, n)
    ensures Resolve(s, at, n, padding, nPadding, resolvers, slots).ok
            <==> Consistent(s, at, n) && Need(NumbersAt(s, at)) <= nPadding
  {
    if n >= RESOLVER_SIZE {
      InitialState(s, at, padding, nPadding, slots);
      if Consistent(s, at, n) { ConsistentNeed(s, at, n); }
      var num := NumbersAt(s, at);
      var claims := ClaimThree(padding, nPadding, num.nNameserver, num.nSearch, num.nSortaddr);
      if claims.Some? && Checked(s, at, n) {
        var attrs := ResolverAttrs(s, at, n);
        AttrsFew(s, at + RESOLVER_SIZE, at + n);
        LoopSucceeds(Work(Initial(s, at, claims.value), slots, 0, 0, 0), padding, attrs);
      }
    }
  }

  lemma LoopSucceeds(w0: Work, base: nat, attrs: seq<Attr>)
    requires LoopState(w0, w0.slots, w0.header, base, []) && |attrs| <= BUF_MAX
    ensures Steps(w0, attrs).0 && Complete(Steps(w0, attrs).1) <==> CountsMatch(w0.header.numbers, attrs)
  {
    var j := StepsState(w0, base, attrs);
    var (ok, w) := Steps(w0, attrs);
    if ok {
      assert attrs[..j] == attrs;
    } else {
      MissingListMismatch(w, w0.header, base, attrs, j);
    }
  }

  /** An expanded resolver has all its fields and slots right; nothing but its own slots was written. */
  lemma ResolveExpands(s: seq<Byte>, at: nat, n: nat, padding: nat, nPadding: nat, resolvers: Resolvers, slots: Slots)
    requires at + n <= |s| <= BUF_MAX && Readable(s, at, n) && Resolve(s, at, n, padding, nPadding, resolvers, slots).ok
    ensures Consistent(s, at, n)
    ensures var r := Resolve(s, at, n, padding, nPadding, resolvers, slots);
            && r.padding == padding + Need(NumbersAt(s, at)) && r.nPadding == nPadding - Need(NumbersAt(s, at))
            && at in r.resolvers && r.resolvers == resolvers[at := r.resolvers[at]]
            && Expanded(BodyAt(s, at, n), r.resolvers[at], r.slots, padding)
            && KeptOutside(slots, r.slots, padding, r.padding) && NewInLists(slots, r.slots, r.resolvers[at])
            && NewWithin(slots, r.slots, padding, r.padding)
  {
    ResolveSucceeds(s, at, n, padding, nPadding, resolvers, slots);
    InitialState(s, at, padding, nPadding, slots);
    ConsistentNeed(s, at, n);
    var num, attrs := NumbersAt(s, at), ResolverAttrs(s, at, n);
    AttrsFew(s, at + RESOLVER_SIZE, at + n);
    var c := ClaimThree(padding, nPadding, num.nNameserver, num.nSearch, num.nSortaddr).value;
    LoopExpanded(Work(Initial(s, at, c), slots, 0, 0, 0), padding, attrs, BodyAt(s, at, n));
  }

  lemma LoopExpanded(w0: Work, base: nat, attrs: seq<Attr>, b: Body)
    requires LoopState(w0, w0.slots, w0.header, base, []) && Steps(w0, attrs).0 && |attrs| <= BUF_MAX
    requires CountsMatch(w0.header.numbers, attrs) && InRoom(RoomsOf(w0.header.numbers), attrs)
    requires b == Body(w0.header.numbers, attrs)
    ensures var w := Steps(w0, attrs).1;
            && Expanded(b, w.header, w.slots, base) && NewInLists(w0.slots, w.slots, w.header)
            && KeptOutside(w0.slots, w.slots, base, base + RoomsOf(w0.header.numbers).Size())
            && NewWithin(w0.slots, w.slots, base, base + RoomsOf(w0.header.numbers).Size())
  {
    var j := StepsState(w0, base, attrs);
    var w := Steps(w0, attrs).1;
    assert attrs[..j] == attrs;
    LoopExpands(b, w.header, w.slots, base);
    SameLists(w.header, w0.header, base);
    ListsWithin(w0.slots, w.slots, w0.header, base);
  }

  /** No list of the resolver is given more entries than are claimed for it. */
  predicate ResolverInRoom(s: seq<Byte>, at: nat, n: nat)
    requires at + n <= |s| && Readable(s, at, n)
  {
    Checked(s, at, n) ==> InRoom(RoomsOf(NumbersAt(s, at)), ResolverAttrs(s, at, n))
  }

  /** New slots lie in [lo, hi), with all of their bytes. */
  ghost predicate NewWithin(before: Slots, after: Slots, lo: int, hi: int) {
    forall p :: p in after && p !in before ==> lo <= p && p + PTR_SIZE <= hi
  }

  lemma ListsWithin(before: Slots, after: Slots, h: Header, base: nat)
    requires ListPointers(h, base) && NewInLists(before, after, h)
    ensures NewWithin(before, after, base, base + RoomsOf(h.numbers).Size())
  {
  }

  /** The attributes gone through by the loop are stored in slots of their own lists exactly as long as they are in room. */
  lemma {:induction false} LoopStores(w0: Work, attrs: seq<Attr>)
    requires Steps(w0, attrs).0
    ensures var h := w0.header;
            Storable(h, attrs) && ((forall i :: 0 <= i < |attrs| ==> OwnSlot(h, attrs, i)) <==> InRoom(RoomsOf(h.numbers), attrs))
  {
    LoopStorable(w0, attrs);
    OwnSlotsIffInRoom(w0.header, attrs);
  }

  lemma {:induction false} LoopStorable(w0: Work, attrs: seq<Attr>)
    requires Steps(w0, attrs).0
    ensures Storable(w0.header, attrs)
    ensures var g := Steps(w0, attrs).1.header;
            g.nameserver == w0.header.nameserver && g.search == w0.header.search && g.sortaddr == w0.header.sortaddr
  {
    if attrs != [] { LoopStorable(w0, attrs[..|attrs| - 1]); }
  }

  /** Whether the expansion succeeds or not, it then writes no slot outside what it claimed. */
  lemma ResolveConfined(s: seq<Byte>, at: nat, n: nat, padding: nat, nPadding: nat, resolvers: Resolvers, slots: Slots)
    requires at + n <= |s| && Readable(s, at, n) && ResolverInRoom(s, at, n)
    ensures var r := Resolve(s, at, n, padding, nPadding, resolvers, slots);
            && padding <= r.padding && r.padding + r.nPadding == padding + nPadding
            && KeptOutside(slots, r.slots, padding, r.padding) && NewWithin(slots, r.slots, padding, r.padding)
  {
    if n >= RESOLVER_SIZE {
      InitialState(s, at, padding, nPadding, slots);
      var num := NumbersAt(s, at);
      var claims := ClaimThree(padding, nPadding, num.nNameserver, num.nSearch, num.nSortaddr);
      if claims.Some? && Checked(s, at, n) {
        var w0, attrs := Work(Initial(s, at, claims.value), slots, 0, 0, 0), ResolverAttrs(s, at, n);
        var j := StepsState(w0, padding, attrs);
        InRoomPrefix(RoomsOf(num), attrs, j);
        ListsWithin(slots, Steps(w0, attrs).1.slots, w0.header, padding);
      }
    }
  }
}
