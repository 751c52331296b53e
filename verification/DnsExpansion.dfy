/**
 The expansion of a whole configuration, as a function of its bytes: when it succeeds, what it leaves in
 memory, and which slots it writes.
 */
module DnsExpansion {
  import opened Options
  import opened DnsLayout
  import opened DnsDecode
  import opened DnsSlots
  import opened DnsResolver
  import opened DnsLists

  /** The attribute loop's state. */
  datatype Loop = Loop(ok: bool, padding: nat, nPadding: nat, n: Tally, resolvers: Resolvers, slots: Slots)

  /** An attribute that holds a resolver: it is expanded and entered in the list of its kind. */
  function ResolverTurn(s: seq<Byte>, h: ConfigHeader, l: Loop, a: Attr): Loop
    requires AttrReadable(s, a) && IsResolver(a.kind)
  {
    var r := Resolve(s, a.Payload(), a.length - ATTRIBUTE_SIZE, l.padding, l.nPadding, l.resolvers, l.slots);
    if !r.ok then Loop(false, r.padding, r.nPadding, l.n, r.resolvers, r.slots)
    else
      match Enter(h, r.slots, l.n, a.kind, a.Payload())
      case None => Loop(false, r.padding, r.nPadding, l.n, r.resolvers, r.slots)
      case Some(e) => Loop(true, r.padding, r.nPadding, e.1, r.resolvers, e.0)
  }

  function Turn(s: seq<Byte>, h: ConfigHeader, l: Loop, a: Attr): Loop {
    if IsResolver(a.kind) && AttrReadable(s, a) then ResolverTurn(s, h, l, a) else l
  }

  /** The attribute loop: it stops at the first resolver that cannot be expanded or entered. */
  function Turns(s: seq<Byte>, h: ConfigHeader, l: Loop, attrs: seq<Attr>): Loop {
    if attrs == [] then l
    else
      var u := Turns(s, h, l, attrs[..|attrs| - 1]);
      if u.ok then Turn(s, h, u, attrs[|attrs| - 1]) else u
  }

  /** Success, and the memory. */
  datatype Memory = Memory(ok: bool, header: ConfigHeader, resolvers: Resolvers, slots: Slots)

  const BLANK_CONFIG := ConfigHeader(Counts(0, 0, 0), None, None, None)

  function ConfigAttrs(s: seq<Byte>): seq<Attr>
    requires WellFormedBuffer(s)
  {
    Attrs(s, CONFIG_SIZE, PaddingStart(s))
  }

  predicate AllEntered(n: Tally, c: Counts) {
    n.resolver == c.resolver && n.scoped == c.scoped && n.serviceSpecific == c.serviceSpecific
  }

  /** The loop's state when the lists of the configuration are claimed. */
  function Start(c: Claims): Loop {
    Loop(true, c.padding, c.nPadding, Tally(0, 0, 0), map[], map[])
  }

  function HeaderWith(counts: Counts, c: Claims): ConfigHeader {
    ConfigHeader(counts, c.first, c.second, c.third)
  }

  /** `_dns_configuration_buffer_expand` on a buffer as it was created. */
  function Expansion(s: seq<Byte>): Memory
    requires WellFormedBuffer(s)
  {
    var counts := CountsAt(s);
    match ClaimThree(PaddingStart(s), NPadding(s), counts.resolver, counts.scoped, counts.serviceSpecific)
    case None => Memory(false, BLANK_CONFIG, map[], map[])
    case Some(c) =>
      var h := HeaderWith(counts, c);
      var l := Turns(s, h, Start(c), ConfigAttrs(s));
      Memory(l.ok && AllEntered(l.n, counts), h, l.resolvers, l.slots)
  }

  // ----- how far the loop has come

  /** Each slot is one of a claimed list: the configuration's, or that of a resolver gone through. */
  ghost predicate Claimed(done: seq<Entry>, h: ConfigHeader, resolvers: Resolvers, slots: Slots) {
    forall p :: p in slots ==> InConfigLists(h, p) || InResolverLists(done, resolvers, p)
  }

  ghost predicate InResolverLists(done: seq<Entry>, resolvers: Resolvers, p: nat) {
    exists k :: 0 <= k < |done| && done[k].Entry? && done[k].at in resolvers && InLists(resolvers[done[k].at], p)
  }

  /** What holds of the loop's state after the entries `done`, the lists of the configuration lying from p on. */
  ghost predicate LoopState(l: Loop, h: ConfigHeader, p: nat, total: nat, done: seq<Entry>) {
    var r := ConfigRooms(h.counts);
    && l.ok && Broken !in done && Tallied(l.n, done) && ConfigPointers(h, p)
    && l.padding == p + r.Size() + TotalNeed(done) && r.Size() + TotalNeed(done) + l.nPadding == total
    && (ConfigInRoom(r, done) ==> InPlace(done, h, l.resolvers, l.slots, p))
  }

  lemma ClaimedNext(done: seq<Entry>, e: Entry, h: ConfigHeader, r0: Resolvers, x: Header, s0: Slots, s1: Slots, s2: Slots)
    requires Claimed(done, h, r0, s0) && e.Entry? && forall i :: 0 <= i < |done| && done[i].Entry? ==> done[i].at != e.at
    requires NewInLists(s0, s1, x) && forall p :: p in s2 && p !in s1 ==> InConfigLists(h, p)
    ensures Claimed(done + [e], h, r0[e.at := x], s2)
  {
    var all, r1 := done + [e], r0[e.at := x];
    forall p | p in s2 ensures InConfigLists(h, p) || InResolverLists(all, r1, p) {
      if p in s1 && p !in s0 {
        assert all[|done|] == e && InLists(r1[e.at], p);
      } else if p in s0 && !InConfigLists(h, p) {
        var k :| 0 <= k < |done| && done[k].Entry? && done[k].at in r0 && InLists(r0[done[k].at], p);
        assert all[k] == done[k] && InLists(r1[all[k].at], p);
      }
    }
  }

  lemma EnterClaimed(h: ConfigHeader, slots: Slots, n: Tally, done: seq<Entry>, e: Entry)
    requires e.Entry? && IsResolver(e.kind) && Enter(h, slots, n, e.kind, e.at).Some? && Tallied(n, done)
    requires ConfigInRoom(ConfigRooms(h.counts), done + [e])
    ensures forall p :: p in Enter(h, slots, n, e.kind, e.at).value.0 && p !in slots ==> InConfigLists(h, p)
  {
    ConfigPtrsNext(done, e);
  }

  /** A consistent resolver, expanded and entered, takes the loop one entry further. */
  lemma ResolverState(s: seq<Byte>, l: Loop, h: ConfigHeader, p: nat, total: nat, done: seq<Entry>, a: Attr)
    requires LoopState(l, h, p, total, done) && AttrReadable(s, a) && IsResolver(a.kind) && |s| <= BUF_MAX
    requires forall i :: 0 <= i < |done| && done[i].Entry? ==> done[i].at != a.Payload()
    requires ResolverTurn(s, h, l, a).ok
    ensures LoopState(ResolverTurn(s, h, l, a), h, p, total, done + [EntryOf(s, a)])
  {
    var e, at, n := EntryOf(s, a), a.Payload(), a.length - ATTRIBUTE_SIZE;
    ResolveExpands(s, at, n, l.padding, l.nPadding, l.resolvers, l.slots);
    var r := Resolve(s, at, n, l.padding, l.nPadding, l.resolvers, l.slots);
    EnteredState(l, h, p, total, done, e, r, ResolverTurn(s, h, l, a));
  }

  lemma EnteredState(l: Loop, h: ConfigHeader, p: nat, total: nat, done: seq<Entry>, e: Entry, r: Resolved, u: Loop)
    requires LoopState(l, h, p, total, done) && e.Entry? && IsResolver(e.kind)
    requires forall i :: 0 <= i < |done| && done[i].Entry? ==> done[i].at != e.at
    requires r.padding == l.padding + EntryNeed(e) && r.nPadding == l.nPadding - EntryNeed(e)
    requires e.at in r.resolvers && r.resolvers == l.resolvers[e.at := r.resolvers[e.at]]
    requires Expanded(e.body, r.resolvers[e.at], r.slots, l.padding) && KeptOutside(l.slots, r.slots, l.padding, r.padding)
    requires NewInLists(l.slots, r.slots, r.resolvers[e.at])
    requires u.ok && Enter(h, r.slots, l.n, e.kind, e.at) == Some((u.slots, u.n))
    requires u.padding == r.padding && u.nPadding == r.nPadding && u.resolvers == r.resolvers
    ensures LoopState(u, h, p, total, done + [e])
  {
    TallyNext(h, r.slots, l.n, done, e);
    TotalNeedNext(done, e);
    if ConfigInRoom(ConfigRooms(h.counts), done + [e]) {
      ConfigInRoomBefore(ConfigRooms(h.counts), done, e);
      InPlaceNext(l.n, h, p, done, e, l.resolvers, r.resolvers[e.at], l.slots, r.slots, u.slots, l.padding);
    }
  }

  /** The loop's memory, while no list is given more than was claimed for it. */
  ghost predicate InPlace(done: seq<Entry>, h: ConfigHeader, resolvers: Resolvers, slots: Slots, p: nat) {
    ConfigExpanded(done, h, resolvers, slots, p) && Claimed(done, h, resolvers, slots)
  }

  /** A resolver x expanded (slots s1) and then entered (slots s2) is in place beside those before it. */
  lemma ExpandedNext(n: Tally, h: ConfigHeader, p: nat, base: nat, done: seq<Entry>, e: Entry, r0: Resolvers, x: Header,
                     s0: Slots, s1: Slots, s2: Slots, top: nat)
    requires ConfigPointers(h, p) && ConfigFilled(ConfigRooms(h.counts), s0, p, done) && AllExpanded(done, r0, s0, base)
    requires Tallied(n, done) && e.Entry? && IsResolver(e.kind)
    requires ConfigInRoom(ConfigRooms(h.counts), done + [e]) && base == ListsEnd(h, p) && top == base + TotalNeed(done)
    requires forall i :: 0 <= i < |done| && done[i].Entry? ==> done[i].at != e.at
    requires Expanded(e.body, x, s1, top) && KeptOutside(s0, s1, top, top + EntryNeed(e))
    requires Enter(h, s1, n, e.kind, e.at).Some? && Enter(h, s1, n, e.kind, e.at).value.0 == s2
    ensures ConfigFilled(ConfigRooms(h.counts), s2, p, done + [e]) && AllExpanded(done + [e], r0[e.at := x], s2, base)
  {
    ConfigInRoomBefore(ConfigRooms(h.counts), done, e);
    OwnListsNext(p, h, s0, n, done, e, s1, top);
    ResolversNext(done, e, r0, x, s0, s1, s2, p, base, top);
  }

  lemma InPlaceNext(n: Tally, h: ConfigHeader, p: nat, done: seq<Entry>, e: Entry, r0: Resolvers, x: Header,
                    s0: Slots, s1: Slots, s2: Slots, top: nat)
    requires InPlace(done, h, r0, s0, p) && Tallied(n, done) && e.Entry? && IsResolver(e.kind)
    requires ConfigInRoom(ConfigRooms(h.counts), done + [e]) && top == ListsEnd(h, p) + TotalNeed(done)
    requires forall i :: 0 <= i < |done| && done[i].Entry? ==> done[i].at != e.at
    requires Expanded(e.body, x, s1, top) && KeptOutside(s0, s1, top, top + EntryNeed(e)) && NewInLists(s0, s1, x)
    requires Enter(h, s1, n, e.kind, e.at).Some? && Enter(h, s1, n, e.kind, e.at).value.0 == s2
    ensures InPlace(done + [e], h, r0[e.at := x], s2, p)
  {
    ExpandedNext(n, h, p, ListsEnd(h, p), done, e, r0, x, s0, s1, s2, top);
    EnterClaimed(h, s1, n, done, e);
    ClaimedNext(done, e, h, r0, x, s0, s1, s2);
  }

  /** A turn fails for want of consistency, of padding, or of a list. */
  predicate TurnFailure(h: ConfigHeader, e: Entry, nPadding: nat) {
    e == Broken || EntryNeed(e) > nPadding || (e.Entry? && IsResolver(e.kind) && ListOf(h, e.kind) == None)
  }

  lemma TurnFails(s: seq<Byte>, h: ConfigHeader, l: Loop, a: Attr)
    requires AttrReadable(s, a) && IsResolver(a.kind) && |s| <= BUF_MAX && !ResolverTurn(s, h, l, a).ok
    ensures TurnFailure(h, EntryOf(s, a), l.nPadding)
  {
    var at, n := a.Payload(), a.length - ATTRIBUTE_SIZE;
    ResolveSucceeds(s, at, n, l.padding, l.nPadding, l.resolvers, l.slots);
  }

  /** When a turn fails, the lists do not fit. */
  lemma FailureMeansUnfit(l: Loop, h: ConfigHeader, p: nat, total: nat, done: seq<Entry>, e: Entry, rest: seq<Entry>)
    requires LoopState(l, h, p, total, done) && TurnFailure(h, e, l.nPadding) && |done + [e] + rest| <= BUF_MAX
    ensures !Fits(h.counts, done + [e] + rest, total)
  {
    var all := done + [e] + rest;
    assert e in all;
    TotalNeedNext(done, e);
    TotalNeedGrows(done + [e], rest);
    if ConfigCountsMatch(h.counts, all) { MatchingConfigRooms(h.counts, all); }
    if e.Entry? {
      EntryPtrsNext(done, e, e.kind);
      EntryPtrsConcat(done + [e], rest, e.kind);
    }
  }

  // ----- the whole loop

  /** The payloads of attributes that lie in order are at different places. */
  lemma PayloadsDiffer(s: seq<Byte>, attrs: seq<Attr>, j: nat, lo: nat, hi: nat)
    requires Laid(attrs, lo, hi) && j < |attrs|
    ensures forall i :: 0 <= i < j && Entries(s, attrs)[i].Entry? ==> Entries(s, attrs)[i].at != attrs[j].Payload()
  {
    forall i | 0 <= i < j && Entries(s, attrs)[i].Entry? ensures Entries(s, attrs)[i].at != attrs[j].Payload() {
      assert Entries(s, attrs)[i].at == attrs[i].Payload() && attrs[i].at + attrs[i].length <= attrs[j].at;
    }
  }

  lemma EntriesNext(s: seq<Byte>, attrs: seq<Attr>, n: nat)
    requires n < |attrs|
    ensures Entries(s, attrs[..n + 1]) == Entries(s, attrs[..n]) + [EntryOf(s, attrs[n])]
    ensures Entries(s, attrs[..n]) == Entries(s, attrs)[..n]
  {
  }

  /** One turn, on a state that the first n attributes left. */
  lemma TurnState(s: seq<Byte>, h: ConfigHeader, l: Loop, p: nat, total: nat, attrs: seq<Attr>, n: nat, lo: nat, hi: nat)
    requires |s| <= BUF_MAX && Laid(attrs, lo, hi) && AllReadable(s, attrs) && n < |attrs|
    requires LoopState(l, h, p, total, Entries(s, attrs[..n]))
    ensures var u := Turn(s, h, l, attrs[n]);
            if u.ok then LoopState(u, h, p, total, Entries(s, attrs[..n + 1])) else TurnFailure(h, EntryOf(s, attrs[n]), l.nPadding)
  {
    var a := attrs[n];
    assert AttrReadable(s, a);
    EntriesNext(s, attrs, n);
    if IsResolver(a.kind) {
      PayloadsDiffer(s, attrs, n, lo, hi);
      if ResolverTurn(s, h, l, a).ok { ResolverState(s, l, h, p, total, Entries(s, attrs[..n]), a); }
      else { TurnFails(s, h, l, a); }
    } else {
    }
  }

  /** The loop goes through all attributes, or fails and then the lists do not fit. */
  lemma {:induction false} TurnsState(s: seq<Byte>, h: ConfigHeader, l: Loop, p: nat, total: nat, attrs: seq<Attr>, n: nat, lo: nat, hi: nat)
    requires |s| <= BUF_MAX && Laid(attrs, lo, hi) && AllReadable(s, attrs) && n <= |attrs| <= BUF_MAX
    requires LoopState(l, h, p, total, [])
    ensures var u := Turns(s, h, l, attrs[..n]);
            if u.ok then LoopState(u, h, p, total, Entries(s, attrs[..n])) else !Fits(h.counts, Entries(s, attrs), total)
    decreases n
  {
    if n == 0 {
      assert Entries(s, attrs[..0]) == [];
    } else {
      TurnsState(s, h, l, p, total, attrs, n - 1, lo, hi);
      assert attrs[..n][..n - 1] == attrs[..n - 1];
      var u := Turns(s, h, l, attrs[..n - 1]);
      if u.ok {
        TurnState(s, h, u, p, total, attrs, n - 1, lo, hi);
        if !Turn(s, h, u, attrs[n - 1]).ok { TurnUnfit(s, h, u, p, total, attrs, n - 1); }
      }
    }
  }

  lemma TurnUnfit(s: seq<Byte>, h: ConfigHeader, l: Loop, p: nat, total: nat, attrs: seq<Attr>, n: nat)
    requires n < |attrs| <= BUF_MAX && LoopState(l, h, p, total, Entries(s, attrs[..n]))
    requires TurnFailure(h, EntryOf(s, attrs[n]), l.nPadding)
    ensures !Fits(h.counts, Entries(s, attrs), total)
  {
    var es, e := Entries(s, attrs), EntryOf(s, attrs[n]);
    EntriesNext(s, attrs, n);
    assert es == es[..n] + [e] + es[n + 1..];
    FailureMeansUnfit(l, h, p, total, es[..n], e, es[n + 1..]);
  }

  lemma StartState(p: nat, total: nat, counts: Counts, c: Claims)
    requires ClaimThree(p, total, counts.resolver, counts.scoped, counts.serviceSpecific) == Some(c)
    ensures LoopState(Start(c), HeaderWith(counts, c), p, total, [])
  {
    ClaimedInARow(p, total, counts.resolver, counts.scoped, counts.serviceSpecific);
  }

  /** When the counts agree after all entries, everything fits and is expanded. */
  lemma StateAtEnd(l: Loop, h: ConfigHeader, p: nat, total: nat, es: seq<Entry>)
    requires LoopState(l, h, p, total, es) && |es| <= BUF_MAX
    ensures AllEntered(l.n, h.counts) <==> Fits(h.counts, es, total)
    ensures Fits(h.counts, es, total) ==> ConfigExpanded(es, h, l.resolvers, l.slots, p) && Claimed(es, h, l.resolvers, l.slots)
  {
    if ConfigCountsMatch(h.counts, es) { MatchingConfigRooms(h.counts, es); }
  }

  // ----- main results

  lemma BufferAttrs(s: seq<Byte>)
    requires WellFormedBuffer(s)
    ensures Laid(ConfigAttrs(s), CONFIG_SIZE, PaddingStart(s)) && AllReadable(s, ConfigAttrs(s)) && |ConfigAttrs(s)| <= BUF_MAX
    ensures ConfigEntries(s) == Entries(s, ConfigAttrs(s)) && |ConfigEntries(s)| == |ConfigAttrs(s)|
  {
    AttrsLaid(s, CONFIG_SIZE, PaddingStart(s));
    AttrsFew(s, CONFIG_SIZE, PaddingStart(s));
  }

  /**
   Expansion succeeds exactly when all counts are right and the padding has room for all lists; then
   everything is in place, and each slot written is one of a claimed list.
   */
  lemma ExpansionSucceeds(s: seq<Byte>)
    requires WellFormedBuffer(s)
    ensures var m, es := Expansion(s), ConfigEntries(s);
            && (m.ok <==> Expandable(s))
            && (m.ok ==> m.header.counts == CountsAt(s)
                         && ConfigExpanded(es, m.header, m.resolvers, m.slots, PaddingStart(s))
                         && Claimed(es, m.header, m.resolvers, m.slots))
  {
    var attrs, p, total, counts := ConfigAttrs(s), PaddingStart(s), NPadding(s), CountsAt(s);
    BufferAttrs(s);
    ClaimedInARow(p, total, counts.resolver, counts.scoped, counts.serviceSpecific);
    var claims := ClaimThree(p, total, counts.resolver, counts.scoped, counts.serviceSpecific);
    if claims.Some? {
      var h := HeaderWith(counts, claims.value);
      StartState(p, total, counts, claims.value);
      TurnsState(s, h, Start(claims.value), p, total, attrs, |attrs|, CONFIG_SIZE, p);
      assert attrs[..|attrs|] == attrs;
      var l := Turns(s, h, Start(claims.value), attrs);
      if l.ok { StateAtEnd(l, h, p, total, ConfigEntries(s)); }
    } else if ConfigCountsMatch(counts, ConfigEntries(s)) {
      MatchingConfigRooms(counts, ConfigEntries(s));
    }
  }

  // ----- no slot outside the padding

  /** No list of the configuration is given more entries than are claimed for it. */
  predicate OwnInRoom(r: Rooms, attrs: seq<Attr>) {
    && |PtrsOf(attrs, CONFIG_RESOLVER)| <= r.first
    && |PtrsOf(attrs, CONFIG_SCOPED_RESOLVER)| <= r.second
    && |PtrsOf(attrs, CONFIG_SERVICE_SPECIFIC_RESOLVER)| <= r.third
  }

  /** No list is, at either level. */
  ghost predicate AllInRoom(s: seq<Byte>, counts: Counts, attrs: seq<Attr>) {
    OwnInRoom(ConfigRooms(counts), attrs) && forall i :: 0 <= i < |attrs| ==> AttrInRoom(s, attrs[i])
  }

  predicate AttrInRoom(s: seq<Byte>, a: Attr) {
    IsResolver(a.kind) && AttrReadable(s, a) ==> ResolverInRoom(s, a.Payload(), a.length - ATTRIBUTE_SIZE)
  }

  /** All slots, with all of their bytes, lie in [lo, hi). */
  ghost predicate SlotsWithin(slots: Slots, lo: int, hi: int) {
    forall p :: p in slots ==> lo <= p && p + PTR_SIZE <= hi
  }

  /** What holds of the loop's state whether it goes on or not: no slot lies beyond what is claimed. */
  ghost predicate Confined(l: Loop, h: ConfigHeader, p: nat, total: nat, attrs: seq<Attr>) {
    && ListsEnd(h, p) <= l.padding && l.padding + l.nPadding == p + total
    && SlotsWithin(l.slots, p, l.padding)
    && l.n.resolver <= |PtrsOf(attrs, CONFIG_RESOLVER)|
    && l.n.scoped <= |PtrsOf(attrs, CONFIG_SCOPED_RESOLVER)|
    && l.n.serviceSpecific <= |PtrsOf(attrs, CONFIG_SERVICE_SPECIFIC_RESOLVER)|
  }

  lemma InRoomPrefix(s: seq<Byte>, counts: Counts, attrs: seq<Attr>, a: Attr)
    requires AllInRoom(s, counts, attrs + [a])
    ensures AllInRoom(s, counts, attrs)
    ensures AttrInRoom(s, a)
  {
    PtrsOfNext(attrs, a, CONFIG_RESOLVER);
    PtrsOfNext(attrs, a, CONFIG_SCOPED_RESOLVER);
    PtrsOfNext(attrs, a, CONFIG_SERVICE_SPECIFIC_RESOLVER);
    var all := attrs + [a];
    assert all[|attrs|] == a;
    forall i | 0 <= i < |attrs| ensures AttrInRoom(s, attrs[i]) {
      assert all[i] == attrs[i];
    }
  }

  lemma EnterConfined(h: ConfigHeader, slots: Slots, n: Tally, kind: Word, ptr: nat, p: nat, hi: nat)
    requires IsResolver(kind) && Enter(h, slots, n, kind, ptr).Some? && ConfigPointers(h, p)
    requires TallyOf(n, kind) < RoomOfKind(ConfigRooms(h.counts), kind)
    requires SlotsWithin(slots, p, hi) && ListsEnd(h, p) <= hi
    ensures SlotsWithin(Enter(h, slots, n, kind, ptr).value.0, p, hi)
  {
  }

  lemma ResolverConfined(s: seq<Byte>, h: ConfigHeader, l: Loop, p: nat, a: Attr)
    requires AttrReadable(s, a) && IsResolver(a.kind) && AttrInRoom(s, a)
    requires ListsEnd(h, p) <= l.padding && SlotsWithin(l.slots, p, l.padding) && ConfigPointers(h, p)
    requires TallyOf(l.n, a.kind) < RoomOfKind(ConfigRooms(h.counts), a.kind)
    ensures var t := ResolverTurn(s, h, l, a);
            l.padding <= t.padding && t.padding + t.nPadding == l.padding + l.nPadding && SlotsWithin(t.slots, p, t.padding)
  {
    var at, n := a.Payload(), a.length - ATTRIBUTE_SIZE;
    ResolveConfined(s, at, n, l.padding, l.nPadding, l.resolvers, l.slots);
    var r := Resolve(s, at, n, l.padding, l.nPadding, l.resolvers, l.slots);
    WithinGrows(l.slots, r.slots, p, l.padding, r.padding);
    if Enter(h, r.slots, l.n, a.kind, at).Some? { EnterConfined(h, r.slots, l.n, a.kind, at, p, r.padding); }
  }

  lemma WithinGrows(before: Slots, after: Slots, lo: nat, mid: nat, hi: nat)
    requires SlotsWithin(before, lo, mid) && NewWithin(before, after, mid, hi) && lo <= mid <= hi
    ensures SlotsWithin(after, lo, hi)
  {
  }

  lemma TurnConfined(s: seq<Byte>, h: ConfigHeader, l: Loop, p: nat, total: nat, attrs: seq<Attr>, a: Attr)
    requires Confined(l, h, p, total, attrs) && ConfigPointers(h, p) && AllInRoom(s, h.counts, attrs + [a])
    ensures Confined(Turn(s, h, l, a), h, p, total, attrs + [a])
  {
    InRoomPrefix(s, h.counts, attrs, a);
    PtrsOfNext(attrs, a, CONFIG_RESOLVER);
    PtrsOfNext(attrs, a, CONFIG_SCOPED_RESOLVER);
    PtrsOfNext(attrs, a, CONFIG_SERVICE_SPECIFIC_RESOLVER);
    if IsResolver(a.kind) && AttrReadable(s, a) { ResolverConfined(s, h, l, p, a); }
  }

  lemma {:induction false} TurnsConfined(s: seq<Byte>, h: ConfigHeader, l: Loop, p: nat, total: nat, attrs: seq<Attr>)
    requires Confined(l, h, p, total, []) && ConfigPointers(h, p) && AllInRoom(s, h.counts, attrs)
    ensures Confined(Turns(s, h, l, attrs), h, p, total, attrs)
  {
    if attrs != [] {
      var init, a := attrs[..|attrs| - 1], attrs[|attrs| - 1];
      assert attrs == init + [a];
      InRoomPrefix(s, h.counts, init, a);
      TurnsConfined(s, h, l, p, total, init);
      if Turns(s, h, l, init).ok {
        TurnConfined(s, h, Turns(s, h, l, init), p, total, init, a);
      } else {
        PtrsOfNext(init, a, CONFIG_RESOLVER);
        PtrsOfNext(init, a, CONFIG_SCOPED_RESOLVER);
        PtrsOfNext(init, a, CONFIG_SERVICE_SPECIFIC_RESOLVER);
      }
    }
  }

  /**
   Whether the expansion succeeds or not: as long as no list is given more entries than are claimed for
   it, every slot written lies in the padding.
   */
  lemma ExpansionConfined(s: seq<Byte>)
    requires WellFormedBuffer(s) && AllInRoom(s, CountsAt(s), ConfigAttrs(s))
    ensures SlotsWithin(Expansion(s).slots, PaddingStart(s), |s|)
  {
    var p, total, counts := PaddingStart(s), NPadding(s), CountsAt(s);
    ClaimedInARow(p, total, counts.resolver, counts.scoped, counts.serviceSpecific);
    var claims := ClaimThree(p, total, counts.resolver, counts.scoped, counts.serviceSpecific);
    if claims.Some? {
      TurnsConfined(s, HeaderWith(counts, claims.value), Start(claims.value), p, total, ConfigAttrs(s));
    }
  }

  /** The slot in which the resolver of the i-th attribute is entered. */
  function EntrySlot(h: ConfigHeader, attrs: seq<Attr>, i: nat): nat
    requires i < |attrs| && IsResolver(attrs[i].kind) && ListOf(h, attrs[i].kind).Some?
  {
    ListOf(h, attrs[i].kind).value + PTR_SIZE * |PtrsOf(attrs[..i], attrs[i].kind)|
  }

  /** It is one of its own list. */
  predicate OwnEntry(h: ConfigHeader, attrs: seq<Attr>, i: nat)
    requires i < |attrs|
  {
    var kind := attrs[i].kind;
    IsResolver(kind) && ListOf(h, kind).Some? ==>
      InList(ListOf(h, kind), RoomOfKind(ConfigRooms(h.counts), kind), EntrySlot(h, attrs, i))
  }

  ghost predicate Enterable(h: ConfigHeader, attrs: seq<Attr>) {
    forall i :: 0 <= i < |attrs| && IsResolver(attrs[i].kind) ==> ListOf(h, attrs[i].kind).Some?
  }

  lemma TurnTallies(s: seq<Byte>, h: ConfigHeader, l: Loop, a: Attr, kind: Word)
    requires AttrReadable(s, a) && Turn(s, h, l, a).ok && IsResolver(kind)
    ensures TallyOf(Turn(s, h, l, a).n, kind) == TallyOf(l.n, kind) + if a.kind == kind then 1 else 0
    ensures a.kind == kind ==> ListOf(h, kind).Some?
  {
  }

  lemma {:induction false} TurnsTallied(s: seq<Byte>, h: ConfigHeader, l: Loop, attrs: seq<Attr>, kind: Word)
    requires Turns(s, h, l, attrs).ok && l.n == Tally(0, 0, 0) && AllReadable(s, attrs) && IsResolver(kind)
    ensures TallyOf(Turns(s, h, l, attrs).n, kind) == |PtrsOf(attrs, kind)|
    ensures forall i :: 0 <= i < |attrs| && attrs[i].kind == kind ==> ListOf(h, kind).Some?
  {
    if attrs != [] {
      var init, a := attrs[..|attrs| - 1], attrs[|attrs| - 1];
      assert AttrReadable(s, a);
      TurnsTallied(s, h, l, init, kind);
      TurnTallies(s, h, Turns(s, h, l, init), a, kind);
    }
  }

  /** The resolvers gone through are entered in slots of their own lists exactly as long as no list is given too many. */
  lemma EntriesStore(s: seq<Byte>, h: ConfigHeader, l: Loop, attrs: seq<Attr>)
    requires Turns(s, h, l, attrs).ok && l.n == Tally(0, 0, 0) && AllReadable(s, attrs)
    ensures Enterable(h, attrs)
    ensures (forall i :: 0 <= i < |attrs| ==> OwnEntry(h, attrs, i)) <==> OwnInRoom(ConfigRooms(h.counts), attrs)
  {
    TurnsTallied(s, h, l, attrs, CONFIG_RESOLVER);
    TurnsTallied(s, h, l, attrs, CONFIG_SCOPED_RESOLVER);
    TurnsTallied(s, h, l, attrs, CONFIG_SERVICE_SPECIFIC_RESOLVER);
    OwnEntriesIffInRoom(h, attrs);
  }

  lemma OwnEntriesIffInRoom(h: ConfigHeader, attrs: seq<Attr>)
    requires Enterable(h, attrs)
    ensures (forall i :: 0 <= i < |attrs| ==> OwnEntry(h, attrs, i)) <==> OwnInRoom(ConfigRooms(h.counts), attrs)
  {
    var r := ConfigRooms(h.counts);
    if OwnInRoom(r, attrs) {
      forall i | 0 <= i < |attrs| ensures OwnEntry(h, attrs, i) {
        if IsResolver(attrs[i].kind) { EntryOwned(h, attrs, i); }
      }
    } else {
      var kind := if |PtrsOf(attrs, CONFIG_RESOLVER)| > r.first then CONFIG_RESOLVER
                  else if |PtrsOf(attrs, CONFIG_SCOPED_RESOLVER)| > r.second then CONFIG_SCOPED_RESOLVER
                  else CONFIG_SERVICE_SPECIFIC_RESOLVER;
      var i := EntryAstray(h, attrs, kind);
    }
  }

  lemma EntryOwned(h: ConfigHeader, attrs: seq<Attr>, i: nat)
    requires i < |attrs| && IsResolver(attrs[i].kind) && ListOf(h, attrs[i].kind).Some?
    requires |PtrsOf(attrs, attrs[i].kind)| <= RoomOfKind(ConfigRooms(h.counts), attrs[i].kind)
    ensures OwnEntry(h, attrs, i)
  {
    PtrsOfPrefix(attrs, i, attrs[i].kind);
  }

  lemma EntryAstray(h: ConfigHeader, attrs: seq<Attr>, kind: Word) returns (i: nat)
    requires IsResolver(kind) && Enterable(h, attrs) && |PtrsOf(attrs, kind)| > RoomOfKind(ConfigRooms(h.counts), kind)
    ensures i < |attrs| && !OwnEntry(h, attrs, i)
  {
    i := OverfullAt(attrs, kind, RoomOfKind(ConfigRooms(h.counts), kind));
  }

  /** A consistent resolver gives no list too many entries. */
  lemma EntryInRoom(s: seq<Byte>, a: Attr)
    requires EntryOf(s, a) != Broken && |s| <= BUF_MAX
    ensures AttrInRoom(s, a)
  {
    if IsResolver(a.kind) { ConsistentNeed(s, a.Payload(), a.length - ATTRIBUTE_SIZE); }
  }

  lemma NotBroken(s: seq<Byte>, attrs: seq<Attr>, i: nat)
    requires Broken !in Entries(s, attrs) && i < |attrs|
    ensures EntryOf(s, attrs[i]) != Broken
  {
    assert Entries(s, attrs)[i] == EntryOf(s, attrs[i]);
  }

  /** A buffer that can be expanded gives no list too many entries. */
  lemma FittingInRoom(s: seq<Byte>, c: Counts, attrs: seq<Attr>, total: nat)
    requires Fits(c, Entries(s, attrs), total) && |attrs| <= BUF_MAX && |s| <= BUF_MAX
    ensures AllInRoom(s, c, attrs)
  {
    MatchingConfigRooms(c, Entries(s, attrs));
    EntriesOfKind(s, attrs, CONFIG_RESOLVER);
    EntriesOfKind(s, attrs, CONFIG_SCOPED_RESOLVER);
    EntriesOfKind(s, attrs, CONFIG_SERVICE_SPECIFIC_RESOLVER);
    forall i | 0 <= i < |attrs| ensures AttrInRoom(s, attrs[i]) {
      NotBroken(s, attrs, i);
      EntryInRoom(s, attrs[i]);
    }
  }

  lemma ExpandableInRoom(s: seq<Byte>)
    requires WellFormedBuffer(s) && Expandable(s)
    ensures AllInRoom(s, CountsAt(s), ConfigAttrs(s))
  {
    BufferAttrs(s);
    FittingInRoom(s, CountsAt(s), ConfigAttrs(s), NPadding(s));
  }

  lemma {:induction false} EntriesOfKind(s: seq<Byte>, attrs: seq<Attr>, kind: Word)
    requires Broken !in Entries(s, attrs) && IsResolver(kind)
    ensures EntryPtrs(Entries(s, attrs), kind) == PtrsOf(attrs, kind)
  {
    if attrs != [] {
      var init, a := attrs[..|attrs| - 1], attrs[|attrs| - 1];
      assert attrs == init + [a] && Entries(s, attrs) == Entries(s, init) + [EntryOf(s, a)];
      NotBroken(s, attrs, |attrs| - 1);
      EntriesOfKind(s, init, kind);
      EntryPtrsNext(Entries(s, init), EntryOf(s, a), kind);
      PtrsOfNext(init, a, kind);
    }
  }
}
