/** The lists of a configuration in the padding: their places, what fills them, how they are read. */
module DnsLists {
  import opened Options
  import opened DnsLayout
  import opened DnsDecode
  import opened DnsSlots

  /** The configuration's fields once rewritten in place. */
  datatype ConfigHeader = ConfigHeader(
    counts: Counts,
    resolver: Option<nat>,
    scoped: Option<nat>,
    serviceSpecific: Option<nat>)

  /** How many entries of each of the three lists are filled. */
  datatype Tally = Tally(resolver: nat, scoped: nat, serviceSpecific: nat)

  function ListOf(h: ConfigHeader, kind: Word): Option<nat>
    requires IsResolver(kind)
  {
    if kind == CONFIG_RESOLVER then h.resolver
    else if kind == CONFIG_SCOPED_RESOLVER then h.scoped
    else h.serviceSpecific
  }

  /** A resolver is entered in the list of its kind, unless that list is missing. */
  function Enter(h: ConfigHeader, slots: Slots, n: Tally, kind: Word, ptr: nat): Option<(Slots, Tally)>
    requires IsResolver(kind)
  {
    match ListOf(h, kind)
    case None => None
    case Some(list) =>
      if kind == CONFIG_RESOLVER then
        Some((slots[list + PTR_SIZE * n.resolver := ptr], n.(resolver := n.resolver + 1)))
      else if kind == CONFIG_SCOPED_RESOLVER then
        Some((slots[list + PTR_SIZE * n.scoped := ptr], n.(scoped := n.scoped + 1)))
      else
        Some((slots[list + PTR_SIZE * n.serviceSpecific := ptr], n.(serviceSpecific := n.serviceSpecific + 1)))
  }

  /** Where the padding begins: after the last attribute. */
  function PaddingStart(s: seq<Byte>): nat
    requires CONFIG_SIZE <= |s|
  {
    CONFIG_SIZE + NAttribute(s)
  }

  // ----- the configuration's own lists

  function ConfigRooms(c: Counts): Rooms {
    RoomsFor(c.resolver, c.scoped, c.serviceSpecific)
  }

  ghost predicate ConfigPointers(h: ConfigHeader, p: nat) {
    var r := ConfigRooms(h.counts);
    && h.resolver == ListAt(p, r.first)
    && h.scoped == ListAt(p + PTR_SIZE * r.first, r.second)
    && h.serviceSpecific == ListAt(p + PTR_SIZE * (r.first + r.second), r.third)
  }

  /** Where the lists of the resolvers begin. */
  function ListsEnd(h: ConfigHeader, p: nat): nat {
    p + ConfigRooms(h.counts).Size()
  }

  ghost predicate ConfigFilled(r: Rooms, slots: Slots, p: nat, done: seq<Entry>) {
    ThreeFilled(slots, p, r.first, r.second, EntryPtrs(done, CONFIG_RESOLVER),
                EntryPtrs(done, CONFIG_SCOPED_RESOLVER), EntryPtrs(done, CONFIG_SERVICE_SPECIFIC_RESOLVER))
  }

  ghost predicate Tallied(n: Tally, done: seq<Entry>) {
    && n.resolver == |EntryPtrs(done, CONFIG_RESOLVER)|
    && n.scoped == |EntryPtrs(done, CONFIG_SCOPED_RESOLVER)|
    && n.serviceSpecific == |EntryPtrs(done, CONFIG_SERVICE_SPECIFIC_RESOLVER)|
  }

  /** No list has been given more entries than were claimed for it. */
  ghost predicate ConfigInRoom(r: Rooms, done: seq<Entry>) {
    && |EntryPtrs(done, CONFIG_RESOLVER)| <= r.first
    && |EntryPtrs(done, CONFIG_SCOPED_RESOLVER)| <= r.second
    && |EntryPtrs(done, CONFIG_SERVICE_SPECIFIC_RESOLVER)| <= r.third
  }

  lemma EntryPtrsNext(done: seq<Entry>, e: Entry, kind: Word)
    ensures EntryPtrs(done + [e], kind) ==
            if e.Entry? && e.kind == kind then EntryPtrs(done, kind) + [e.at] else EntryPtrs(done, kind)
  {
    assert (done + [e])[..|done|] == done;
  }

  lemma {:induction false} EntryPtrsConcat(a: seq<Entry>, b: seq<Entry>, kind: Word)
    ensures EntryPtrs(a + b, kind) == EntryPtrs(a, kind) + EntryPtrs(b, kind)
  {
    if b == [] {
      assert a + b == a;
    } else {
      var n := |b| - 1;
      assert (a + b)[..|a| + n] == a + b[..n];
      EntryPtrsConcat(a, b[..n], kind);
    }
  }

  lemma ConfigPtrsNext(done: seq<Entry>, e: Entry)
    ensures EntryPtrs(done + [e], CONFIG_RESOLVER) ==
            if e.Entry? && e.kind == CONFIG_RESOLVER then EntryPtrs(done, CONFIG_RESOLVER) + [e.at]
            else EntryPtrs(done, CONFIG_RESOLVER)
    ensures EntryPtrs(done + [e], CONFIG_SCOPED_RESOLVER) ==
            if e.Entry? && e.kind == CONFIG_SCOPED_RESOLVER then EntryPtrs(done, CONFIG_SCOPED_RESOLVER) + [e.at]
            else EntryPtrs(done, CONFIG_SCOPED_RESOLVER)
    ensures EntryPtrs(done + [e], CONFIG_SERVICE_SPECIFIC_RESOLVER) ==
            if e.Entry? && e.kind == CONFIG_SERVICE_SPECIFIC_RESOLVER then EntryPtrs(done, CONFIG_SERVICE_SPECIFIC_RESOLVER) + [e.at]
            else EntryPtrs(done, CONFIG_SERVICE_SPECIFIC_RESOLVER)
  {
    EntryPtrsNext(done, e, CONFIG_RESOLVER);
    EntryPtrsNext(done, e, CONFIG_SCOPED_RESOLVER);
    EntryPtrsNext(done, e, CONFIG_SERVICE_SPECIFIC_RESOLVER);
  }

  lemma TallyNext(h: ConfigHeader, slots: Slots, n: Tally, done: seq<Entry>, e: Entry)
    requires e.Entry? && IsResolver(e.kind) && Enter(h, slots, n, e.kind, e.at).Some? && Tallied(n, done)
    ensures Tallied(Enter(h, slots, n, e.kind, e.at).value.1, done + [e])
  {
    ConfigPtrsNext(done, e);
  }

  lemma ConfigInRoomBefore(r: Rooms, done: seq<Entry>, e: Entry)
    requires ConfigInRoom(r, done + [e])
    ensures ConfigInRoom(r, done)
  {
    ConfigPtrsNext(done, e);
  }

  /** A resolver about to be entered where there is room, with the lists filled so far. */
  ghost predicate EnterReady(h: ConfigHeader, slots: Slots, n: Tally, kind: Word, ptr: nat, p: nat,
                             p1: seq<nat>, p2: seq<nat>, p3: seq<nat>) {
    var r := ConfigRooms(h.counts);
    && IsResolver(kind) && Enter(h, slots, n, kind, ptr).Some? && ConfigPointers(h, p)
    && n == Tally(|p1|, |p2|, |p3|) && ThreeFilled(slots, p, r.first, r.second, p1, p2, p3)
    && |p1| <= r.first && |p2| <= r.second && |p3| <= r.third
    && (kind == CONFIG_RESOLVER ==> |p1| < r.first)
    && (kind == CONFIG_SCOPED_RESOLVER ==> |p2| < r.second)
    && (kind == CONFIG_SERVICE_SPECIFIC_RESOLVER ==> |p3| < r.third)
  }

  ghost predicate Entered(h: ConfigHeader, slots: Slots, after: Slots, p: nat, p1: seq<nat>, p2: seq<nat>, p3: seq<nat>) {
    var r := ConfigRooms(h.counts);
    ThreeFilled(after, p, r.first, r.second, p1, p2, p3) && KeptOutside(slots, after, p, p + r.Size())
  }

  lemma EnterPlain(h: ConfigHeader, slots: Slots, n: Tally, kind: Word, ptr: nat, p: nat, p1: seq<nat>, p2: seq<nat>, p3: seq<nat>)
    requires kind == CONFIG_RESOLVER && EnterReady(h, slots, n, kind, ptr, p, p1, p2, p3)
    ensures Entered(h, slots, Enter(h, slots, n, kind, ptr).value.0, p, p1 + [ptr], p2, p3)
  {
    var r := ConfigRooms(h.counts);
    assert Enter(h, slots, n, kind, ptr).value.0 == slots[p + PTR_SIZE * |p1| := ptr];
    FillFirst(slots, p, r.first, r.second, r.third, p1, p2, p3, ptr);
  }

  lemma EnterScoped(h: ConfigHeader, slots: Slots, n: Tally, kind: Word, ptr: nat, p: nat, p1: seq<nat>, p2: seq<nat>, p3: seq<nat>)
    requires kind == CONFIG_SCOPED_RESOLVER && EnterReady(h, slots, n, kind, ptr, p, p1, p2, p3)
    ensures Entered(h, slots, Enter(h, slots, n, kind, ptr).value.0, p, p1, p2 + [ptr], p3)
  {
    var r := ConfigRooms(h.counts);
    assert Enter(h, slots, n, kind, ptr).value.0 == slots[p + PTR_SIZE * r.first + PTR_SIZE * |p2| := ptr];
    FillSecond(slots, p, r.first, r.second, r.third, p1, p2, p3, ptr);
  }

  lemma EnterServiceSpecific(h: ConfigHeader, slots: Slots, n: Tally, kind: Word, ptr: nat, p: nat, p1: seq<nat>, p2: seq<nat>, p3: seq<nat>)
    requires kind == CONFIG_SERVICE_SPECIFIC_RESOLVER && EnterReady(h, slots, n, kind, ptr, p, p1, p2, p3)
    ensures Entered(h, slots, Enter(h, slots, n, kind, ptr).value.0, p, p1, p2, p3 + [ptr])
  {
    var r := ConfigRooms(h.counts);
    assert Enter(h, slots, n, kind, ptr).value.0 == slots[p + PTR_SIZE * (r.first + r.second) + PTR_SIZE * |p3| := ptr];
    FillThird(slots, p, r.first, r.second, r.third, p1, p2, p3, ptr);
  }

  /** A resolver entered where there is room goes into the next slot of its own list; no other slot is written. */
  lemma EnterFills(h: ConfigHeader, slots: Slots, n: Tally, done: seq<Entry>, e: Entry, p: nat)
    requires e.Entry? && IsResolver(e.kind) && Enter(h, slots, n, e.kind, e.at).Some? && Tallied(n, done)
    requires ConfigPointers(h, p) && ConfigFilled(ConfigRooms(h.counts), slots, p, done) && ConfigInRoom(ConfigRooms(h.counts), done + [e])
    ensures var r, after := ConfigRooms(h.counts), Enter(h, slots, n, e.kind, e.at).value.0;
            ConfigFilled(r, after, p, done + [e]) && KeptOutside(slots, after, p, p + r.Size())
  {
    ConfigPtrsNext(done, e);
    var p1, p2, p3 := EntryPtrs(done, CONFIG_RESOLVER), EntryPtrs(done, CONFIG_SCOPED_RESOLVER),
                      EntryPtrs(done, CONFIG_SERVICE_SPECIFIC_RESOLVER);
    if e.kind == CONFIG_RESOLVER { EnterPlain(h, slots, n, e.kind, e.at, p, p1, p2, p3); }
    else if e.kind == CONFIG_SCOPED_RESOLVER { EnterScoped(h, slots, n, e.kind, e.at, p, p1, p2, p3); }
    else { EnterServiceSpecific(h, slots, n, e.kind, e.at, p, p1, p2, p3); }
  }

  lemma ConfigFilledKept(r: Rooms, before: Slots, after: Slots, p: nat, done: seq<Entry>, lo: nat, hi: nat)
    requires ConfigFilled(r, before, p, done) && ConfigInRoom(r, done)
    requires KeptOutside(before, after, lo, hi) && p + r.Size() <= lo
    ensures ConfigFilled(r, after, p, done)
  {
  }

  // ----- a slot and its own list

  function RoomOfKind(r: Rooms, kind: Word): nat
    requires IsResolver(kind)
  {
    if kind == CONFIG_RESOLVER then r.first else if kind == CONFIG_SCOPED_RESOLVER then r.second else r.third
  }

  function TallyOf(n: Tally, kind: Word): nat
    requires IsResolver(kind)
  {
    if kind == CONFIG_RESOLVER then n.resolver else if kind == CONFIG_SCOPED_RESOLVER then n.scoped else n.serviceSpecific
  }

  /** p is a slot of one of the configuration's own lists. */
  predicate InConfigLists(h: ConfigHeader, p: nat) {
    var r := ConfigRooms(h.counts);
    InList(h.resolver, r.first, p) || InList(h.scoped, r.second, p) || InList(h.serviceSpecific, r.third, p)
  }

  // ----- the lists of the resolvers

  /** The resolver of an entry is expanded with its lists from `base` on. */
  ghost predicate EntryExpanded(e: Entry, resolvers: map<nat, Header>, slots: Slots, base: nat) {
    e.Entry? ==> e.at in resolvers && Expanded(e.body, resolvers[e.at], slots, base)
  }

  /** Each resolver has its lists right after those of the resolvers before it. */
  ghost predicate AllExpanded(es: seq<Entry>, resolvers: map<nat, Header>, slots: Slots, base: nat) {
    es == []
    || (var n := |es| - 1;
        && AllExpanded(es[..n], resolvers, slots, base)
        && EntryExpanded(es[n], resolvers, slots, base + TotalNeed(es[..n])))
  }

  lemma TotalNeedNext(done: seq<Entry>, e: Entry)
    ensures TotalNeed(done + [e]) == TotalNeed(done) + EntryNeed(e)
  {
    assert (done + [e])[..|done|] == done;
  }

  lemma {:induction false} TotalNeedGrows(done: seq<Entry>, rest: seq<Entry>)
    ensures TotalNeed(done) <= TotalNeed(done + rest)
  {
    if rest == [] {
      assert done + rest == done;
    } else {
      var n := |rest| - 1;
      assert (done + rest)[..|done| + n] == done + rest[..n];
      TotalNeedGrows(done, rest[..n]);
    }
  }

  lemma AllExpandedNext(done: seq<Entry>, e: Entry, resolvers: map<nat, Header>, slots: Slots, base: nat)
    requires AllExpanded(done, resolvers, slots, base) && EntryExpanded(e, resolvers, slots, base + TotalNeed(done))
    ensures AllExpanded(done + [e], resolvers, slots, base)
  {
    assert (done + [e])[..|done|] == done;
  }

  lemma EntryKept(e: Entry, resolvers: map<nat, Header>, before: Slots, after: Slots, base: nat, lo: int, hi: int)
    requires EntryExpanded(e, resolvers, before, base) && KeptOutside(before, after, lo, hi)
    requires hi <= base || base + EntryNeed(e) <= lo
    ensures EntryExpanded(e, resolvers, after, base)
  {
  }

  /** Writing outside their lists leaves the resolvers expanded. */
  lemma {:induction false} AllExpandedKept(es: seq<Entry>, resolvers: map<nat, Header>, before: Slots, after: Slots, base: nat,
                                           lo: nat, hi: nat)
    requires AllExpanded(es, resolvers, before, base) && KeptOutside(before, after, lo, hi)
    requires hi <= base || base + TotalNeed(es) <= lo
    ensures AllExpanded(es, resolvers, after, base)
  {
    if es != [] {
      var n := |es| - 1;
      AllExpandedKept(es[..n], resolvers, before, after, base, lo, hi);
      EntryKept(es[n], resolvers, before, after, base + TotalNeed(es[..n]), lo, hi);
    }
  }

  /** Rewriting the fields of another resolver does, too. */
  lemma {:induction false} AllExpandedBeside(es: seq<Entry>, resolvers: map<nat, Header>, at: nat, h: Header, slots: Slots, base: nat)
    requires AllExpanded(es, resolvers, slots, base)
    requires forall i :: 0 <= i < |es| && es[i].Entry? ==> es[i].at != at
    ensures AllExpanded(es, resolvers[at := h], slots, base)
  {
    if es != [] {
      var n := |es| - 1;
      assert es[n].Entry? ==> es[n].at != at;
      AllExpandedBeside(es[..n], resolvers, at, h, slots, base);
    }
  }

  lemma OwnListsNext(p: nat, h: ConfigHeader, s0: Slots, n: Tally, done: seq<Entry>, e: Entry, s1: Slots, top: nat)
    requires ConfigPointers(h, p) && ConfigFilled(ConfigRooms(h.counts), s0, p, done)
    requires Tallied(n, done) && ConfigInRoom(ConfigRooms(h.counts), done + [e]) && ConfigInRoom(ConfigRooms(h.counts), done)
    requires e.Entry? && IsResolver(e.kind) && Enter(h, s1, n, e.kind, e.at).Some?
    requires p + ConfigRooms(h.counts).Size() <= top && KeptOutside(s0, s1, top, top + EntryNeed(e))
    ensures var r, s2 := ConfigRooms(h.counts), Enter(h, s1, n, e.kind, e.at).value.0;
            ConfigFilled(r, s2, p, done + [e]) && KeptOutside(s1, s2, p, p + r.Size())
  {
    ConfigFilledKept(ConfigRooms(h.counts), s0, s1, p, done, top, top + EntryNeed(e));
    EnterFills(h, s1, n, done, e, p);
  }

  lemma ResolversNext(done: seq<Entry>, e: Entry, r0: map<nat, Header>, x: Header, s0: Slots, s1: Slots, s2: Slots,
                      lo: nat, base: nat, top: nat)
    requires AllExpanded(done, r0, s0, base) && e.Entry? && top == base + TotalNeed(done)
    requires forall i :: 0 <= i < |done| && done[i].Entry? ==> done[i].at != e.at
    requires Expanded(e.body, x, s1, top)
    requires KeptOutside(s0, s1, top, top + EntryNeed(e)) && KeptOutside(s1, s2, lo, base)
    ensures AllExpanded(done + [e], r0[e.at := x], s2, base)
  {
    var r1 := r0[e.at := x];
    AllExpandedKept(done, r0, s0, s1, base, top, top + EntryNeed(e));
    AllExpandedBeside(done, r0, e.at, x, s1, base);
    AllExpandedNext(done, e, r1, s1, base);
    AllExpandedKept(done + [e], r1, s1, s2, base, lo, base);
  }

  lemma {:induction false} EntryPtrsFew(es: seq<Entry>, kind: Word)
    ensures |EntryPtrs(es, kind)| <= |es|
  {
    if es != [] { EntryPtrsFew(es[..|es| - 1], kind); }
  }

  /** Counts that match have as much room as they say. */
  lemma MatchingConfigRooms(c: Counts, es: seq<Entry>)
    requires ConfigCountsMatch(c, es) && |es| <= BUF_MAX
    ensures ConfigRooms(c) == Rooms(c.resolver, c.scoped, c.serviceSpecific) && ConfigRooms(c).Size() == ConfigNeed(c)
    ensures ConfigInRoom(ConfigRooms(c), es)
  {
    EntryPtrsFew(es, CONFIG_RESOLVER);
    EntryPtrsFew(es, CONFIG_SCOPED_RESOLVER);
    EntryPtrsFew(es, CONFIG_SERVICE_SPECIFIC_RESOLVER);
    RoomIs(c.resolver);
    RoomIs(c.scoped);
    RoomIs(c.serviceSpecific);
  }

  // ----- an expanded configuration

  /** A buffer with these entries as the expansion leaves it: lists from p on, then those of the resolvers. */
  ghost predicate ConfigExpanded(es: seq<Entry>, h: ConfigHeader, resolvers: map<nat, Header>, slots: Slots, p: nat) {
    && ConfigPointers(h, p) && ConfigFilled(ConfigRooms(h.counts), slots, p, es)
    && AllExpanded(es, resolvers, slots, ListsEnd(h, p))
  }

  // ----- where the lists lie

  /** The list of `count` pointers lies in [lo, hi). */
  predicate Within(list: Option<nat>, count: nat, lo: nat, hi: nat) {
    list.Some? ==> lo <= list.value && list.value + PTR_SIZE * count <= hi
  }

  /** Two lists share no slot. */
  predicate Apart(a: Option<nat>, m: nat, b: Option<nat>, n: nat) {
    a.Some? && b.Some? ==> a.value + PTR_SIZE * m <= b.value || b.value + PTR_SIZE * n <= a.value
  }

  /** The three lists of a resolver share no slot and lie in [lo, hi). */
  ghost predicate Placed(h: Header, lo: nat, hi: nat) {
    var n := h.numbers;
    && Within(h.nameserver, n.nNameserver, lo, hi) && Within(h.search, n.nSearch, lo, hi) && Within(h.sortaddr, n.nSortaddr, lo, hi)
    && Apart(h.nameserver, n.nNameserver, h.search, n.nSearch)
    && Apart(h.nameserver, n.nNameserver, h.sortaddr, n.nSortaddr)
    && Apart(h.search, n.nSearch, h.sortaddr, n.nSortaddr)
  }

  ghost predicate ConfigPlaced(h: ConfigHeader, lo: nat, hi: nat) {
    var c := h.counts;
    && Within(h.resolver, c.resolver, lo, hi) && Within(h.scoped, c.scoped, lo, hi)
    && Within(h.serviceSpecific, c.serviceSpecific, lo, hi)
    && Apart(h.resolver, c.resolver, h.scoped, c.scoped)
    && Apart(h.resolver, c.resolver, h.serviceSpecific, c.serviceSpecific)
    && Apart(h.scoped, c.scoped, h.serviceSpecific, c.serviceSpecific)
  }

  /** Where the lists of the resolver of entry k begin. */
  function Region(es: seq<Entry>, base: nat, k: nat): nat
    requires k <= |es|
  {
    base + TotalNeed(es[..k])
  }

  lemma RegionNext(es: seq<Entry>, base: nat, k: nat)
    requires k < |es|
    ensures Region(es, base, k + 1) == Region(es, base, k) + EntryNeed(es[k])
  {
    assert es[..k + 1] == es[..k] + [es[k]];
    TotalNeedNext(es[..k], es[k]);
  }

  lemma RegionsInOrder(es: seq<Entry>, base: nat, i: nat, j: nat)
    requires i <= j <= |es|
    ensures Region(es, base, i) <= Region(es, base, j)
  {
    assert es[..j] == es[..i] + es[i..j];
    TotalNeedGrows(es[..i], es[i..j]);
  }

  lemma EntryPlaced(e: Entry, resolvers: map<nat, Header>, slots: Slots, base: nat)
    requires EntryExpanded(e, resolvers, slots, base) && e.Entry?
    ensures e.at in resolvers && Placed(resolvers[e.at], base, base + EntryNeed(e))
  {
  }

  lemma {:induction false} EntryIsExpanded(es: seq<Entry>, resolvers: map<nat, Header>, slots: Slots, base: nat, k: nat)
    requires AllExpanded(es, resolvers, slots, base) && k < |es|
    ensures EntryExpanded(es[k], resolvers, slots, Region(es, base, k))
  {
    var n := |es| - 1;
    if k < n {
      EntryIsExpanded(es[..n], resolvers, slots, base, k);
      assert es[..n][..k] == es[..k];
    }
  }

  /**
   After an expansion all lists share no slot and lie in the padding: the configuration's first,
   then those of each resolver, each in a region of its own.
   */
  lemma ListsPlaced(es: seq<Entry>, h: ConfigHeader, resolvers: map<nat, Header>, slots: Slots, p: nat, nPadding: nat)
    requires Fits(h.counts, es, nPadding) && |es| <= BUF_MAX && ConfigExpanded(es, h, resolvers, slots, p)
    ensures var base := p + ConfigNeed(h.counts);
            && ConfigPlaced(h, p, base)
            && (forall k :: 0 <= k < |es| && es[k].Entry? ==>
                  es[k].at in resolvers && Placed(resolvers[es[k].at], Region(es, base, k), Region(es, base, k + 1)))
            && (forall i, j :: 0 <= i <= j <= |es| ==> base <= Region(es, base, i) <= Region(es, base, j) <= p + nPadding)
  {
    MatchingConfigRooms(h.counts, es);
    var base := p + ConfigNeed(h.counts);
    forall k | 0 <= k < |es| && es[k].Entry?
      ensures es[k].at in resolvers && Placed(resolvers[es[k].at], Region(es, base, k), Region(es, base, k + 1))
    {
      RegionNext(es, base, k);
      EntryIsExpanded(es, resolvers, slots, base, k);
      EntryPlaced(es[k], resolvers, slots, Region(es, base, k));
    }
    forall i, j | 0 <= i <= j <= |es| ensures base <= Region(es, base, i) <= Region(es, base, j) <= p + nPadding {
      RegionsInOrder(es, base, i, j);
      RegionsInOrder(es, base, j, |es|);
      assert es[..|es|] == es;
    }
  }
}
