/**
 What a client reads in an expanded buffer, compared with what the bytes said before: exactly when the
 two agree, wherever the buffer is and whatever lies beyond it.
 */
module DnsReadBack {
  import opened Options
  import opened DnsLayout
  import opened DnsDecode
  import opened DnsSlots
  import opened DnsResolver
  import opened DnsLists
  import opened DnsExpansion
  import opened DnsMemory
  import opened DnsFields
  import opened DnsRegions
  import opened DnsClient
  import opened DnsSteady

  // ----- the entries

  /** The resolver is of a known kind and lies in the buffer. */
  ghost predicate EntrySound(s: seq<Byte>, e: Entry) {
    e.Entry? ==> IsResolver(e.kind) && e.at + RESOLVER_SIZE <= |s| && BodySound(s, e.body)
  }

  ghost predicate AllSound(s: seq<Byte>, es: seq<Entry>) {
    forall k :: 0 <= k < |es| ==> EntrySound(s, es[k])
  }

  lemma EntryIsSound(s: seq<Byte>, a: Attr)
    ensures EntrySound(s, EntryOf(s, a))
  {
    if EntryOf(s, a).Entry? {
      var at, n := a.Payload(), a.length - ATTRIBUTE_SIZE;
      AttrsLaid(s, at + RESOLVER_SIZE, at + n);
    }
  }

  lemma EntriesAreSound(s: seq<Byte>)
    requires WellFormedBuffer(s)
    ensures AllSound(s, ConfigEntries(s))
  {
    var attrs := ConfigAttrs(s);
    BufferAttrs(s);
    forall k | 0 <= k < |attrs| ensures EntrySound(s, Entries(s, attrs)[k]) { EntryIsSound(s, attrs[k]); }
  }

  /** Each resolver is read as the rewritten bytes say. */
  ghost predicate AllSeen(u: seq<Byte>, s: seq<Byte>, base: nat, es: seq<Entry>) {
    forall k :: 0 <= k < |es| && es[k].Entry? ==> ResolverSeen(u, s, base, es[k].at, es[k].body)
  }

  lemma EntryIsSeen(mem: seq<Byte>, beyond: seq<Byte>, s: seq<Byte>, base: nat, p: nat, h: ConfigHeader, resolvers: Resolvers, slots: Slots,
                    es: seq<Entry>, q: nat, k: nat)
    requires Stored(mem, s, base, p, h, resolvers, slots) && AllExpanded(es, resolvers, slots, q) && q + TotalNeed(es) <= |s|
    requires k < |es| && es[k].Entry? && EntrySound(s, es[k])
    ensures ResolverSeen(mem + beyond, s, base, es[k].at, es[k].body)
  {
    EntryIsExpanded(es, resolvers, slots, q, k);
    RegionNext(es, q, k);
    RegionsInOrder(es, q, k + 1, |es|);
    assert es[..|es|] == es;
    ResolverIsSeen(mem, beyond, s, base, p, h, resolvers, slots, es[k].at, es[k].body, resolvers[es[k].at], Region(es, q, k));
  }

  // ----- the configuration's lists

  lemma {:induction false} EntryPtrsBelow(s: seq<Byte>, es: seq<Entry>, kind: Word)
    requires AllSound(s, es)
    ensures Below(EntryPtrs(es, kind), |s|)
  {
    if es != [] {
      EntryPtrsBelow(s, es[..|es| - 1], kind);
      assert EntrySound(s, es[|es| - 1]);
    }
  }

  lemma ThreeOwnLists(s: seq<Byte>, es: seq<Entry>, h: ConfigHeader, slots: Slots, p: nat) returns (q2: nat, q3: nat)
    requires ConfigPointers(h, p) && ConfigFilled(ConfigRooms(h.counts), slots, p, es) && ConfigCountsMatch(h.counts, es)
    requires |es| <= BUF_MAX && p + ConfigNeed(h.counts) <= |s|
    ensures var p1, p2, p3 := EntryPtrs(es, CONFIG_RESOLVER), EntryPtrs(es, CONFIG_SCOPED_RESOLVER),
                              EntryPtrs(es, CONFIG_SERVICE_SPECIFIC_RESOLVER);
            && Filled(slots, p, p1) && p + PTR_SIZE * |p1| <= |s| && h.resolver == ListAt(p, |p1|) && h.counts.resolver == |p1|
            && Filled(slots, q2, p2) && q2 + PTR_SIZE * |p2| <= |s| && h.scoped == ListAt(q2, |p2|) && h.counts.scoped == |p2|
            && Filled(slots, q3, p3) && q3 + PTR_SIZE * |p3| <= |s| && h.serviceSpecific == ListAt(q3, |p3|)
            && h.counts.serviceSpecific == |p3|
  {
    MatchingConfigRooms(h.counts, es);
    q2, q3 := p + PTR_SIZE * h.counts.resolver, p + PTR_SIZE * (h.counts.resolver + h.counts.scoped);
  }

  /** What a client reads of the configuration. */
  ghost predicate ConfigSeen(u: seq<Byte>, s: seq<Byte>, base: nat, es: seq<Entry>)
    requires CONFIG_SIZE <= |s| <= |u|
  {
    ClientConfig(u, base) == Config(ClientResolvers(u, base, EntryPtrs(es, CONFIG_RESOLVER)),
                                    ClientResolvers(u, base, EntryPtrs(es, CONFIG_SCOPED_RESOLVER)),
                                    ClientResolvers(u, base, EntryPtrs(es, CONFIG_SERVICE_SPECIFIC_RESOLVER)),
                                    s[GENERATION..GENERATION + 8], s[VERSION..VERSION + 4])
  }

  lemma ConfigIsSeen(mem: seq<Byte>, beyond: seq<Byte>, s: seq<Byte>, base: nat, p: nat, h: ConfigHeader, resolvers: Resolvers, slots: Slots,
                     es: seq<Entry>)
    requires Stored(mem, s, base, p, h, resolvers, slots) && AllSound(s, es) && ConfigCountsMatch(h.counts, es) && |es| <= BUF_MAX
    requires ConfigPointers(h, p) && ConfigFilled(ConfigRooms(h.counts), slots, p, es)
    requires p + ConfigNeed(h.counts) <= |s|
    ensures ConfigSeen(mem + beyond, s, base, es)
  {
    var q2, q3 := ThreeOwnLists(s, es, h, slots, p);
    EntryPtrsBelow(s, es, CONFIG_RESOLVER);
    EntryPtrsBelow(s, es, CONFIG_SCOPED_RESOLVER);
    EntryPtrsBelow(s, es, CONFIG_SERVICE_SPECIFIC_RESOLVER);
    ConfigFieldsWritten(mem, s, base, h);
    var p1, p2, p3 := EntryPtrs(es, CONFIG_RESOLVER), EntryPtrs(es, CONFIG_SCOPED_RESOLVER), EntryPtrs(es, CONFIG_SERVICE_SPECIFIC_RESOLVER);
    ListFieldSeen(mem, beyond, s, base, p, h, resolvers, slots, N_RESOLVER, RESOLVER, p, h.counts.resolver, p1);
    ListFieldSeen(mem, beyond, s, base, p, h, resolvers, slots, N_SCOPED_RESOLVER, SCOPED_RESOLVER, q2, h.counts.scoped, p2);
    ListFieldSeen(mem, beyond, s, base, p, h, resolvers, slots, N_SERVICE_SPECIFIC_RESOLVER, SERVICE_SPECIFIC_RESOLVER, q3,
                  h.counts.serviceSpecific, p3);
  }

  // ----- what is read and what was said

  ghost predicate SaysTheSame(u: seq<Byte>, s: seq<Byte>, base: nat, e: Entry) {
    e.Entry? ==> ClientResolver(u, base, e.at) == ResolverOf(s, e.body)
  }

  ghost predicate KindSaysTheSame(u: seq<Byte>, s: seq<Byte>, base: nat, es: seq<Entry>, kind: Word) {
    forall k :: 0 <= k < |es| && es[k].Entry? && es[k].kind == kind ==> SaysTheSame(u, s, base, es[k])
  }

  lemma KindNext(u: seq<Byte>, s: seq<Byte>, base: nat, es: seq<Entry>, e: Entry, kind: Word)
    ensures KindSaysTheSame(u, s, base, es + [e], kind)
            <==> KindSaysTheSame(u, s, base, es, kind) && (e.Entry? && e.kind == kind ==> SaysTheSame(u, s, base, e))
  {
    var all := es + [e];
    assert all[|es|] == e && forall k :: 0 <= k < |es| ==> all[k] == es[k];
  }

  lemma ReadNext(u: seq<Byte>, s: seq<Byte>, base: nat, es: seq<Entry>, e: Entry, kind: Word)
    ensures ClientResolvers(u, base, EntryPtrs(es + [e], kind)) == ClientResolvers(u, base, EntryPtrs(es, kind))
            + if e.Entry? && e.kind == kind then [ClientResolver(u, base, e.at)] else []
    ensures ResolversOf(s, es + [e], kind) == ResolversOf(s, es, kind)
            + if e.Entry? && e.kind == kind then [ResolverOf(s, e.body)] else []
  {
    EntryPtrsNext(es, e, kind);
    assert (es + [e])[..|es|] == es;
  }

  /** The lists of one kind agree exactly when all resolvers of that kind do. */
  lemma {:induction false} ListsAgree(u: seq<Byte>, s: seq<Byte>, base: nat, es: seq<Entry>, kind: Word)
    ensures |ClientResolvers(u, base, EntryPtrs(es, kind))| == |ResolversOf(s, es, kind)|
    ensures ClientResolvers(u, base, EntryPtrs(es, kind)) == ResolversOf(s, es, kind) <==> KindSaysTheSame(u, s, base, es, kind)
  {
    if es != [] {
      var init, e := es[..|es| - 1], es[|es| - 1];
      assert es == init + [e];
      ListsAgree(u, s, base, init, kind);
      KindNext(u, s, base, init, e, kind);
      ReadNext(u, s, base, init, e, kind);
      var a, b := ClientResolvers(u, base, EntryPtrs(init, kind)), ResolversOf(s, init, kind);
      if e.Entry? && e.kind == kind { LastsAgree(a, b, ClientResolver(u, base, e.at), ResolverOf(s, e.body)); }
      else { assert a + [] == a && b + [] == b; }
    }
  }

  lemma LastsAgree(a: seq<Resolver>, b: seq<Resolver>, x: Resolver, y: Resolver)
    requires |a| == |b|
    ensures a + [x] == b + [y] <==> a == b && x == y
  {
    if a + [x] == b + [y] {
      assert (a + [x])[..|a|] == a && (b + [y])[..|b|] == b && (a + [x])[|a|] == x && (b + [y])[|b|] == y;
    }
  }

  lemma ConfigsAgree(u: seq<Byte>, s: seq<Byte>, base: nat, es: seq<Entry>)
    requires CONFIG_SIZE <= |s| <= |u| && ConfigSeen(u, s, base, es) && AllSound(s, es)
    ensures ClientConfig(u, base) == ConfigOf(s, es) <==> forall k :: 0 <= k < |es| ==> SaysTheSame(u, s, base, es[k])
  {
    ListsAgree(u, s, base, es, CONFIG_RESOLVER);
    ListsAgree(u, s, base, es, CONFIG_SCOPED_RESOLVER);
    ListsAgree(u, s, base, es, CONFIG_SERVICE_SPECIFIC_RESOLVER);
    assert forall k :: 0 <= k < |es| ==> EntrySound(s, es[k]);
  }

  // ----- one resolver

  /** The two pointer fields that are not reset are set by an attribute, or came as NULL. */
  predicate PointersKnown(s: seq<Byte>, at: nat, b: Body) {
    && Known(s, at + CID, LastOf(b.attrs, RESOLVER_CONFIGURATION_ID))
    && Known(s, at + IF_NAME, LastOf(b.attrs, RESOLVER_INTERFACE_NAME))
  }

  ghost predicate OptWhole(s: seq<Byte>, p: nat, o: Overlay, q: Option<nat>) {
    q.Some? ==> TextWhole(s, p, o, q.value)
  }

  /** All values of a resolver end in the buffer, and are read at bytes that the expansion leaves alone. */
  ghost predicate ValuesWhole(s: seq<Byte>, p: nat, o: Overlay, b: Body) {
    && OptWhole(s, p, o, LastOf(b.attrs, RESOLVER_DOMAIN)) && OptWhole(s, p, o, LastOf(b.attrs, RESOLVER_OPTIONS))
    && OptWhole(s, p, o, LastOf(b.attrs, RESOLVER_CONFIGURATION_ID)) && OptWhole(s, p, o, LastOf(b.attrs, RESOLVER_INTERFACE_NAME))
    && (forall i :: 0 <= i < |PtrsOf(b.attrs, RESOLVER_ADDRESS)| ==> SockaddrWhole(s, p, o, PtrsOf(b.attrs, RESOLVER_ADDRESS)[i]))
    && (forall i :: 0 <= i < |PtrsOf(b.attrs, RESOLVER_SEARCH)| ==> TextWhole(s, p, o, PtrsOf(b.attrs, RESOLVER_SEARCH)[i]))
    && (forall i :: 0 <= i < |PtrsOf(b.attrs, RESOLVER_SORTADDR)| ==> SortaddrWhole(s, p, o, PtrsOf(b.attrs, RESOLVER_SORTADDR)[i]))
  }

  lemma OptStays(s: seq<Byte>, base: nat, p: nat, o: Overlay, beyond: seq<Byte>, q: Option<nat>)
    requires OptWhole(s, p, o, q)
    ensures OptString(Space(s, base, p, o, beyond), q) == OptString(s, q)
  {
    if q.Some? { TextStays(s, base, p, o, beyond, q.value); }
  }

  lemma ListsStay(s: seq<Byte>, base: nat, p: nat, o: Overlay, beyond: seq<Byte>, p1: seq<nat>, p2: seq<nat>, p3: seq<nat>)
    requires forall i :: 0 <= i < |p1| ==> SockaddrWhole(s, p, o, p1[i])
    requires forall i :: 0 <= i < |p2| ==> TextWhole(s, p, o, p2[i])
    requires forall i :: 0 <= i < |p3| ==> SortaddrWhole(s, p, o, p3[i])
    ensures var u := Space(s, base, p, o, beyond);
            Sockaddrs(u, p1) == Sockaddrs(s, p1) && Strings(u, p2) == Strings(s, p2) && Sortaddrs(u, p3) == Sortaddrs(s, p3)
  {
    var u := Space(s, base, p, o, beyond);
    forall i | 0 <= i < |p1| ensures Sockaddr(u, p1[i]) == Sockaddr(s, p1[i]) { SockaddrStays(s, base, p, o, beyond, p1[i]); }
    forall i | 0 <= i < |p2| ensures CString(u, p2[i]) == CString(s, p2[i]) { TextStays(s, base, p, o, beyond, p2[i]); }
    forall i | 0 <= i < |p3| ensures Sortaddr(u, p3[i]) == Sortaddr(s, p3[i]) { SortaddrStays(s, base, p, o, beyond, p3[i]); }
  }

  lemma ValuesStay(s: seq<Byte>, base: nat, p: nat, o: Overlay, beyond: seq<Byte>, b: Body)
    requires ValuesWhole(s, p, o, b)
    ensures ResolverOf(Space(s, base, p, o, beyond), b) == ResolverOf(s, b)
  {
    OptStays(s, base, p, o, beyond, LastOf(b.attrs, RESOLVER_DOMAIN));
    OptStays(s, base, p, o, beyond, LastOf(b.attrs, RESOLVER_OPTIONS));
    OptStays(s, base, p, o, beyond, LastOf(b.attrs, RESOLVER_CONFIGURATION_ID));
    OptStays(s, base, p, o, beyond, LastOf(b.attrs, RESOLVER_INTERFACE_NAME));
    ListsStay(s, base, p, o, beyond, PtrsOf(b.attrs, RESOLVER_ADDRESS), PtrsOf(b.attrs, RESOLVER_SEARCH), PtrsOf(b.attrs, RESOLVER_SORTADDR));
  }

  // ----- and the other way round

  /** The resolver reads the same wherever the buffer is. */
  ghost predicate ReadsTheSame(s: seq<Byte>, p: nat, o: Overlay, b: Body) {
    forall base: nat :: Addressable(base, |s|) ==> ReadsTheSameAt(s, base, p, o, b)
  }

  ghost predicate ReadsTheSameAt(s: seq<Byte>, base: nat, p: nat, o: Overlay, b: Body) {
    ResolverOf(Space(s, base, p, o, Beyond()), b) == ResolverOf(s, b)
  }

  lemma OptKept(s: seq<Byte>, p: nat, o: Overlay, q: Option<nat>)
    requires |s| <= BUF_MAX && (q.Some? ==> q.value <= |s|)
    requires forall base: nat :: Addressable(base, |s|) ==> OptString(Space(s, base, p, o, Beyond()), q) == OptString(s, q)
    ensures OptWhole(s, p, o, q)
  {
    if q.Some? {
      forall base: nat | Addressable(base, |s|) ensures CString(Space(s, base, p, o, Beyond()), q.value) == CString(s, q.value) {
        assert OptString(Space(s, base, p, o, Beyond()), q) == OptString(s, q);
      }
      TextKeptIsWhole(s, p, o, q.value);
    }
  }

  lemma StringsKept(s: seq<Byte>, p: nat, o: Overlay, ptrs: seq<nat>)
    requires |s| <= BUF_MAX && Below(ptrs, |s|)
    requires forall base: nat :: Addressable(base, |s|) ==> Strings(Space(s, base, p, o, Beyond()), ptrs) == Strings(s, ptrs)
    ensures forall i :: 0 <= i < |ptrs| ==> TextWhole(s, p, o, ptrs[i])
  {
    forall i | 0 <= i < |ptrs| ensures TextWhole(s, p, o, ptrs[i]) {
      forall base: nat | Addressable(base, |s|) ensures CString(Space(s, base, p, o, Beyond()), ptrs[i]) == CString(s, ptrs[i]) {
        assert Strings(Space(s, base, p, o, Beyond()), ptrs)[i] == Strings(s, ptrs)[i];
      }
      TextKeptIsWhole(s, p, o, ptrs[i]);
    }
  }

  lemma SockaddrsKept(s: seq<Byte>, p: nat, o: Overlay, ptrs: seq<nat>)
    requires |s| <= BUF_MAX && Below(ptrs, |s|) && forall i :: 0 <= i < |ptrs| && ptrs[i] < |s| ==> !CellAt(o, p, ptrs[i]).Plain?
    requires forall base: nat :: Addressable(base, |s|) ==> Sockaddrs(Space(s, base, p, o, Beyond()), ptrs) == Sockaddrs(s, ptrs)
    ensures forall i :: 0 <= i < |ptrs| ==> SockaddrWhole(s, p, o, ptrs[i])
  {
    forall i | 0 <= i < |ptrs| ensures SockaddrWhole(s, p, o, ptrs[i]) {
      forall base: nat | Addressable(base, |s|) ensures Sockaddr(Space(s, base, p, o, Beyond()), ptrs[i]) == Sockaddr(s, ptrs[i]) {
        assert Sockaddrs(Space(s, base, p, o, Beyond()), ptrs)[i] == Sockaddrs(s, ptrs)[i];
      }
      SockaddrKeptIsWhole(s, p, o, ptrs[i]);
    }
  }

  lemma SortaddrsKept(s: seq<Byte>, p: nat, o: Overlay, ptrs: seq<nat>)
    requires |s| <= BUF_MAX && Below(ptrs, |s|)
    requires forall base: nat :: Addressable(base, |s|) ==> Sortaddrs(Space(s, base, p, o, Beyond()), ptrs) == Sortaddrs(s, ptrs)
    ensures forall i :: 0 <= i < |ptrs| ==> SortaddrWhole(s, p, o, ptrs[i])
  {
    forall i | 0 <= i < |ptrs| ensures SortaddrWhole(s, p, o, ptrs[i]) {
      forall base: nat | Addressable(base, |s|) ensures Sortaddr(Space(s, base, p, o, Beyond()), ptrs[i]) == Sortaddr(s, ptrs[i]) {
        assert Sortaddrs(Space(s, base, p, o, Beyond()), ptrs)[i] == Sortaddrs(s, ptrs)[i];
      }
      SortaddrKeptIsWhole(s, p, o, ptrs[i]);
    }
  }

  /** No attribute of the resolver begins at a number that is rewritten. */
  ghost predicate NoNumbers(s: seq<Byte>, p: nat, o: Overlay, attrs: seq<Attr>) {
    forall i :: 0 <= i < |attrs| && attrs[i].Payload() < |s| ==> !CellAt(o, p, attrs[i].Payload()).Plain?
  }

  lemma {:induction false} PtrsNoNumbers(s: seq<Byte>, p: nat, o: Overlay, attrs: seq<Attr>, kind: Word)
    requires NoNumbers(s, p, o, attrs)
    ensures forall i :: 0 <= i < |PtrsOf(attrs, kind)| && PtrsOf(attrs, kind)[i] < |s| ==> !CellAt(o, p, PtrsOf(attrs, kind)[i]).Plain?
  {
    if attrs != [] { PtrsNoNumbers(s, p, o, attrs[..|attrs| - 1], kind); }
  }

  lemma ValuesKept(s: seq<Byte>, p: nat, o: Overlay, b: Body)
    requires |s| <= BUF_MAX && BodySound(s, b) && NoNumbers(s, p, o, b.attrs) && ReadsTheSame(s, p, o, b)
    ensures ValuesWhole(s, p, o, b)
  {
    PtrsBelow(b.attrs, RESOLVER_DOMAIN, |s|);
    PtrsBelow(b.attrs, RESOLVER_ADDRESS, |s|);
    PtrsBelow(b.attrs, RESOLVER_SEARCH, |s|);
    PtrsBelow(b.attrs, RESOLVER_SORTADDR, |s|);
    PtrsBelow(b.attrs, RESOLVER_OPTIONS, |s|);
    PtrsBelow(b.attrs, RESOLVER_CONFIGURATION_ID, |s|);
    PtrsBelow(b.attrs, RESOLVER_INTERFACE_NAME, |s|);
    PtrsNoNumbers(s, p, o, b.attrs, RESOLVER_ADDRESS);
    OptKept(s, p, o, LastOf(b.attrs, RESOLVER_DOMAIN));
    OptKept(s, p, o, LastOf(b.attrs, RESOLVER_OPTIONS));
    OptKept(s, p, o, LastOf(b.attrs, RESOLVER_CONFIGURATION_ID));
    OptKept(s, p, o, LastOf(b.attrs, RESOLVER_INTERFACE_NAME));
    SockaddrsKept(s, p, o, PtrsOf(b.attrs, RESOLVER_ADDRESS));
    StringsKept(s, p, o, PtrsOf(b.attrs, RESOLVER_SEARCH));
    SortaddrsKept(s, p, o, PtrsOf(b.attrs, RESOLVER_SORTADDR));
  }

  // ----- the whole buffer

  /** All that the expansion rewrites. */
  ghost function Over(s: seq<Byte>): Overlay
    requires WellFormedBuffer(s)
  {
    Lay(Expansion(s).header, Expansion(s).resolvers, Expansion(s).slots)
  }

  lemma ExpansionStored(s: seq<Byte>, base: nat)
    requires WellFormedBuffer(s) && Addressable(base, |s|)
    ensures var m := Expansion(s);
            Stored(Image(s, base, PaddingStart(s), Over(s)), s, base, PaddingStart(s), m.header, m.resolvers, m.slots)
  {
    ExpansionOn(s);
  }

  /** What a client sees of an expanded buffer. */
  lemma ExpansionSeen(s: seq<Byte>, base: nat, beyond: seq<Byte>)
    requires WellFormedBuffer(s) && Expandable(s) && Addressable(base, |s|)
    ensures var u := Space(s, base, PaddingStart(s), Over(s), beyond);
            ConfigSeen(u, s, base, ConfigEntries(s)) && AllSeen(u, s, base, ConfigEntries(s))
  {
    var m, es, p := Expansion(s), ConfigEntries(s), PaddingStart(s);
    var mem := Image(s, base, p, Over(s));
    ExpansionSucceeds(s);
    ExpansionStored(s, base);
    EntriesAreSound(s);
    BufferAttrs(s);
    MatchingConfigRooms(m.header.counts, es);
    ConfigIsSeen(mem, beyond, s, base, p, m.header, m.resolvers, m.slots, es);
    forall k | 0 <= k < |es| && es[k].Entry? ensures ResolverSeen(mem + beyond, s, base, es[k].at, es[k].body) {
      EntryIsSeen(mem, beyond, s, base, p, m.header, m.resolvers, m.slots, es, ListsEnd(m.header, p), k);
    }
  }

  /**
   Nothing that a client reads is disturbed by the expansion: in every resolver, all values end in the
   buffer at bytes that are not rewritten, and the pointer fields that are not reset came as NULL or are set.
   */
  ghost predicate Undisturbed(s: seq<Byte>)
    requires WellFormedBuffer(s)
  {
    forall k :: 0 <= k < |ConfigEntries(s)| ==> EntryUndisturbed(s, ConfigEntries(s)[k])
  }

  ghost predicate EntryUndisturbed(s: seq<Byte>, e: Entry)
    requires WellFormedBuffer(s)
  {
    e.Entry? ==> PointersKnown(s, e.at, e.body) && ValuesWhole(s, PaddingStart(s), Over(s), e.body)
  }

  /** A client reads in the expanded buffer at `base` what its bytes said. */
  ghost predicate ReadBackAt(s: seq<Byte>, base: nat, beyond: seq<Byte>)
    requires WellFormedBuffer(s)
  {
    Some(ClientConfig(Space(s, base, PaddingStart(s), Over(s), beyond), base)) == Decode(s)
  }

  /** Then, wherever the buffer is and whatever lies beyond it, a client reads what the bytes said. */
  lemma ReadBack(s: seq<Byte>, base: nat, beyond: seq<Byte>)
    requires WellFormedBuffer(s) && Expandable(s) && Addressable(base, |s|) && Undisturbed(s)
    ensures ReadBackAt(s, base, beyond)
  {
    var u, es := Space(s, base, PaddingStart(s), Over(s), beyond), ConfigEntries(s);
    ExpansionSeen(s, base, beyond);
    EntriesAreSound(s);
    forall k | 0 <= k < |es| ensures SaysTheSame(u, s, base, es[k]) {
      assert EntryUndisturbed(s, es[k]);
      if es[k].Entry? {
        ValuesStay(s, base, PaddingStart(s), Over(s), beyond, es[k].body);
      }
    }
    ConfigsAgree(u, s, base, es);
  }

  lemma ReadBackEntry(s: seq<Byte>, base: nat, k: nat)
    requires WellFormedBuffer(s) && Expandable(s) && Addressable(base, |s|) && ReadBackAt(s, base, Beyond())
    requires k < |ConfigEntries(s)| && ConfigEntries(s)[k].Entry?
    ensures var e := ConfigEntries(s)[k];
            PointersKnown(s, e.at, e.body) && ReadsTheSameAt(s, base, PaddingStart(s), Over(s), e.body)
  {
    var u, es := Space(s, base, PaddingStart(s), Over(s), Beyond()), ConfigEntries(s);
    ExpansionSeen(s, base, Beyond());
    EntriesAreSound(s);
    ConfigsAgree(u, s, base, es);
    assert SaysTheSame(u, s, base, es[k]);
  }

  /** In a resolver's attributes nothing is rewritten. */
  lemma AttributeBytesSame(s: seq<Byte>, j: nat, i: nat)
    requires WellFormedBuffer(s) && j < |ConfigAttrs(s)| && i < PaddingStart(s)
    requires var a := ConfigAttrs(s)[j]; a.Payload() + RESOLVER_SIZE <= i <= a.at + a.length
    ensures CellAt(Over(s), PaddingStart(s), i) == Same
  {
    var attrs, o := ConfigAttrs(s), Over(s);
    BufferAttrs(s);
    ExpansionFields(s);
    assert attrs[j].at >= CONFIG_SIZE;
    forall r | r in o.resolvers ensures !(r <= i < r + |o.resolvers[r]|) {
      BesideFields(attrs, CONFIG_SIZE, PaddingStart(s), j, i, r);
    }
  }

  /** The attributes of entry k lie behind its fields, in its own attribute. */
  lemma EntryAttrs(s: seq<Byte>, k: nat, i: nat)
    requires WellFormedBuffer(s) && k < |ConfigEntries(s)| && ConfigEntries(s)[k].Entry? && i < |ConfigEntries(s)[k].body.attrs|
    ensures k < |ConfigAttrs(s)|
    ensures var c, a := ConfigAttrs(s)[k], ConfigEntries(s)[k].body.attrs[i];
            && ATTRIBUTE_SIZE <= a.length && c.Payload() + RESOLVER_SIZE <= a.at && a.at + a.length <= c.at + c.length <= PaddingStart(s) <= |s|
  {
    BufferAttrs(s);
    var c := ConfigAttrs(s)[k];
    assert ConfigEntries(s)[k] == EntryOf(s, c);
    var at, n := c.Payload(), c.length - ATTRIBUTE_SIZE;
    AttrsLaid(s, at + RESOLVER_SIZE, at + n);
  }

  lemma EntryNoNumbers(s: seq<Byte>, k: nat)
    requires WellFormedBuffer(s) && k < |ConfigEntries(s)| && ConfigEntries(s)[k].Entry?
    ensures NoNumbers(s, PaddingStart(s), Over(s), ConfigEntries(s)[k].body.attrs)
  {
    var attrs := ConfigEntries(s)[k].body.attrs;
    forall i | 0 <= i < |attrs| ensures !CellAt(Over(s), PaddingStart(s), attrs[i].Payload()).Plain? {
      EntryAttrs(s, k, i);
      if attrs[i].Payload() < PaddingStart(s) { AttributeBytesSame(s, k, attrs[i].Payload()); }
    }
  }

  /**
   A client reads what the bytes said, wherever the buffer is and whatever lies beyond it, exactly when
   nothing that it reads is disturbed.
   */
  lemma ReadBackIffUndisturbed(s: seq<Byte>)
    requires WellFormedBuffer(s) && Expandable(s)
    ensures (forall base: nat, beyond: seq<Byte> :: Addressable(base, |s|) ==> ReadBackAt(s, base, beyond)) <==> Undisturbed(s)
  {
    if Undisturbed(s) {
      forall base: nat, beyond: seq<Byte> | Addressable(base, |s|) ensures ReadBackAt(s, base, beyond) { ReadBack(s, base, beyond); }
    } else if forall base: nat, beyond: seq<Byte> :: Addressable(base, |s|) ==> ReadBackAt(s, base, beyond) {
      AlwaysReadBack(s);
    }
  }

  lemma AlwaysReadBack(s: seq<Byte>)
    requires WellFormedBuffer(s) && Expandable(s)
    requires forall base: nat, beyond: seq<Byte> :: Addressable(base, |s|) ==> ReadBackAt(s, base, beyond)
    ensures Undisturbed(s)
  {
    var es, p, o := ConfigEntries(s), PaddingStart(s), Over(s);
    EntriesAreSound(s);
    AnyPlace(s);
    forall k | 0 <= k < |es| ensures EntryUndisturbed(s, es[k]) {
      if es[k].Entry? {
        ReadBackEntry(s, 1, k);
        forall base: nat | Addressable(base, |s|) ensures ReadsTheSameAt(s, base, p, o, es[k].body) { ReadBackEntry(s, base, k); }
        EntryNoNumbers(s, k);
        assert EntrySound(s, es[k]);
        ValuesKept(s, p, o, es[k].body);
      }
    }
  }

  // ----- values within their attributes

  /** The attribute's value ends where the attribute does, or before. */
  ghost predicate AttrContained(s: seq<Byte>, a: Attr) {
    && (IsString(a.kind) ==> exists z :: a.Payload() <= z < a.at + a.length && z < |s| && s[z] == 0)
    && (a.kind == RESOLVER_ADDRESS ==> a.Payload() < a.at + a.length <= |s| && a.Payload() + s[a.Payload()] as int <= a.at + a.length)
    && (a.kind == RESOLVER_SORTADDR ==> a.Payload() + 8 <= a.at + a.length)
  }

  ghost predicate EntryContained(s: seq<Byte>, e: Entry) {
    e.Entry? ==> PointersKnown(s, e.at, e.body) && forall i :: 0 <= i < |e.body.attrs| ==> AttrContained(s, e.body.attrs[i])
  }

  ghost predicate Contained(s: seq<Byte>)
    requires WellFormedBuffer(s)
  {
    forall k :: 0 <= k < |ConfigEntries(s)| ==> EntryContained(s, ConfigEntries(s)[k])
  }

  lemma {:induction false} TextEndsBy(s: seq<Byte>, q: nat, z: nat)
    requires q <= z < |s| && s[z] == 0
    ensures TextEnd(s, q) <= z
    decreases z - q
  {
    if s[q] != 0 { TextEndsBy(s, q + 1, z); }
  }

  /** The bytes of an attribute of entry k are steady. */
  lemma AttrSteady(s: seq<Byte>, k: nat, i: nat, x: nat)
    requires WellFormedBuffer(s) && k < |ConfigEntries(s)| && ConfigEntries(s)[k].Entry? && i < |ConfigEntries(s)[k].body.attrs|
    requires var a := ConfigEntries(s)[k].body.attrs[i]; a.Payload() <= x < a.at + a.length
    ensures Steady(s, PaddingStart(s), Over(s), x)
  {
    EntryAttrs(s, k, i);
    AttributeBytesSame(s, k, x);
  }

  /** What an attribute's kind asks of its value. */
  ghost predicate AttrWhole(s: seq<Byte>, p: nat, o: Overlay, a: Attr) {
    && (IsString(a.kind) ==> TextWhole(s, p, o, a.Payload()))
    && (a.kind == RESOLVER_ADDRESS ==> SockaddrWhole(s, p, o, a.Payload()))
    && (a.kind == RESOLVER_SORTADDR ==> SortaddrWhole(s, p, o, a.Payload()))
  }

  lemma ContainedIsWhole(s: seq<Byte>, k: nat, i: nat)
    requires WellFormedBuffer(s) && k < |ConfigEntries(s)| && ConfigEntries(s)[k].Entry? && i < |ConfigEntries(s)[k].body.attrs|
    requires AttrContained(s, ConfigEntries(s)[k].body.attrs[i])
    ensures AttrWhole(s, PaddingStart(s), Over(s), ConfigEntries(s)[k].body.attrs[i])
  {
    var a := ConfigEntries(s)[k].body.attrs[i];
    EntryAttrs(s, k, i);
    forall x | a.Payload() <= x < a.at + a.length ensures Steady(s, PaddingStart(s), Over(s), x) { AttrSteady(s, k, i, x); }
    if IsString(a.kind) {
      var z :| a.Payload() <= z < a.at + a.length && z < |s| && s[z] == 0;
      TextEndsBy(s, a.Payload(), z);
    }
  }

  lemma {:induction false} PtrsWhole(s: seq<Byte>, p: nat, o: Overlay, attrs: seq<Attr>, kind: Word)
    requires forall i :: 0 <= i < |attrs| ==> AttrWhole(s, p, o, attrs[i])
    ensures IsString(kind) ==> OptWhole(s, p, o, LastOf(attrs, kind))
    ensures IsString(kind) ==> forall i :: 0 <= i < |PtrsOf(attrs, kind)| ==> TextWhole(s, p, o, PtrsOf(attrs, kind)[i])
    ensures kind == RESOLVER_ADDRESS ==> forall i :: 0 <= i < |PtrsOf(attrs, kind)| ==> SockaddrWhole(s, p, o, PtrsOf(attrs, kind)[i])
    ensures kind == RESOLVER_SORTADDR ==> forall i :: 0 <= i < |PtrsOf(attrs, kind)| ==> SortaddrWhole(s, p, o, PtrsOf(attrs, kind)[i])
  {
    if attrs != [] {
      PtrsWhole(s, p, o, attrs[..|attrs| - 1], kind);
      assert AttrWhole(s, p, o, attrs[|attrs| - 1]);
    }
  }

  lemma AttrsWhole(s: seq<Byte>, p: nat, o: Overlay, b: Body)
    requires forall i :: 0 <= i < |b.attrs| ==> AttrWhole(s, p, o, b.attrs[i])
    ensures ValuesWhole(s, p, o, b)
  {
    PtrsWhole(s, p, o, b.attrs, RESOLVER_DOMAIN);
    PtrsWhole(s, p, o, b.attrs, RESOLVER_ADDRESS);
    PtrsWhole(s, p, o, b.attrs, RESOLVER_SEARCH);
    PtrsWhole(s, p, o, b.attrs, RESOLVER_SORTADDR);
    PtrsWhole(s, p, o, b.attrs, RESOLVER_OPTIONS);
    PtrsWhole(s, p, o, b.attrs, RESOLVER_CONFIGURATION_ID);
    PtrsWhole(s, p, o, b.attrs, RESOLVER_INTERFACE_NAME);
  }

  /** Values that do not run past their attributes are not disturbed. */
  lemma ContainedIsUndisturbed(s: seq<Byte>)
    requires WellFormedBuffer(s) && Contained(s)
    ensures Undisturbed(s)
  {
    var es := ConfigEntries(s);
    forall k | 0 <= k < |es| ensures EntryUndisturbed(s, es[k]) {
      assert EntryContained(s, es[k]);
      if es[k].Entry? {
        forall i | 0 <= i < |es[k].body.attrs| ensures AttrWhole(s, PaddingStart(s), Over(s), es[k].body.attrs[i]) {
          ContainedIsWhole(s, k, i);
        }
        AttrsWhole(s, PaddingStart(s), Over(s), es[k].body);
      }
    }
  }
}
