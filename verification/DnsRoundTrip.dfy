/** Every configuration survives the round trip, and attributes of unknown types do not change what is read. */
module DnsRoundTrip {
  import opened Options
  import opened DnsLayout
  import opened DnsDecode
  import opened DnsEncode

  // ----- a configuration, written for the wire

  predicate ValidResolver(r: Resolver) {
    && 0 <= r.port < 0x1_0000
    && (forall i :: 0 <= i < |r.nameservers| ==> r.nameservers[i] != [] && r.nameservers[i][0] == |r.nameservers[i]|)
    && (forall i :: 0 <= i < |r.searches| ==> 0 !in r.searches[i])
    && (forall i :: 0 <= i < |r.sortaddrs| ==> |r.sortaddrs[i]| == 8)
    && NoNul(r.domain) && NoNul(r.options) && NoNul(r.cid) && NoNul(r.ifName)
  }

  predicate NoNul(o: Option<seq<Byte>>) {
    o.Some? ==> 0 !in o.value
  }

  predicate ValidConfig(c: Config) {
    && |c.generation| == 8 && |c.version| == 4
    && (forall i :: 0 <= i < |c.resolvers| ==> ValidResolver(c.resolvers[i]))
    && (forall i :: 0 <= i < |c.scoped| ==> ValidResolver(c.scoped[i]))
    && (forall i :: 0 <= i < |c.serviceSpecific| ==> ValidResolver(c.serviceSpecific[i]))
  }

  function Ended(strings: seq<seq<Byte>>): seq<seq<Byte>> {
    seq(|strings|, i requires 0 <= i < |strings| => strings[i] + [0])
  }

  function OptEnded(o: Option<seq<Byte>>): seq<seq<Byte>> {
    match o case None => [] case Some(s) => [s + [0]]
  }

  function Many(kind: Word, payloads: seq<seq<Byte>>): seq<WireAttr> {
    seq(|payloads|, i requires 0 <= i < |payloads| => WireAttr(kind, payloads[i]))
  }

  /** The payloads a resolver needs, by type. */
  function PayloadsOf(r: Resolver, kind: Word): seq<seq<Byte>> {
    if kind == RESOLVER_DOMAIN then OptEnded(r.domain)
    else if kind == RESOLVER_ADDRESS then r.nameservers
    else if kind == RESOLVER_SEARCH then Ended(r.searches)
    else if kind == RESOLVER_SORTADDR then r.sortaddrs
    else if kind == RESOLVER_OPTIONS then OptEnded(r.options)
    else if kind == RESOLVER_CONFIGURATION_ID then OptEnded(r.cid)
    else if kind == RESOLVER_INTERFACE_NAME then OptEnded(r.ifName)
    else []
  }

  const RESOLVER_KINDS: seq<Word> :=
    [RESOLVER_DOMAIN, RESOLVER_ADDRESS, RESOLVER_SEARCH, RESOLVER_SORTADDR, RESOLVER_OPTIONS, RESOLVER_CONFIGURATION_ID,
     RESOLVER_INTERFACE_NAME]

  function AttrsOfKinds(r: Resolver, kinds: seq<Word>): seq<WireAttr> {
    if kinds == [] then [] else Many(kinds[0], PayloadsOf(r, kinds[0])) + AttrsOfKinds(r, kinds[1..])
  }

  function WireOf(r: Resolver): WireResolver {
    WireResolver(r.port, r.timeout, r.searchOrder, r.ifIndex, r.serviceIdentifier, r.flags, r.reachFlags,
                 AttrsOfKinds(r, RESOLVER_KINDS))
  }

  function TopOf(kind: Word, rs: seq<Resolver>): seq<Top> {
    seq(|rs|, i requires 0 <= i < |rs| => Res(kind, WireOf(rs[i])))
  }

  function WireOfConfig(c: Config, nPadding: Word): WireConfig {
    WireConfig(TopOf(CONFIG_RESOLVER, c.resolvers)
               + (TopOf(CONFIG_SCOPED_RESOLVER, c.scoped) + TopOf(CONFIG_SERVICE_SPECIFIC_RESOLVER, c.serviceSpecific)),
               c.generation, c.version, nPadding)
  }

  // ----- it means what was written

  lemma {:induction false} ChosenConcat(a: seq<WireAttr>, b: seq<WireAttr>, kind: Word)
    ensures Chosen(a + b, kind) == Chosen(a, kind) + Chosen(b, kind)
  {
    if b == [] {
      assert a + b == a;
    } else {
      var n := |b| - 1;
      assert (a + b)[..|a| + n] == a + b[..n];
      ChosenConcat(a, b[..n], kind);
    }
  }

  lemma {:induction false} ChosenMany(k: Word, payloads: seq<seq<Byte>>, kind: Word)
    ensures Chosen(Many(k, payloads), kind) == if k == kind then payloads else []
  {
    if payloads != [] {
      var n := |payloads| - 1;
      assert Many(k, payloads)[..n] == Many(k, payloads[..n]);
      ChosenMany(k, payloads[..n], kind);
      assert payloads == payloads[..n] + [payloads[n]];
    }
  }

  lemma {:induction false} ChosenOfKinds(r: Resolver, kinds: seq<Word>, kind: Word)
    requires forall i, j :: 0 <= i < j < |kinds| ==> kinds[i] != kinds[j]
    ensures Chosen(AttrsOfKinds(r, kinds), kind) == if kind in kinds then PayloadsOf(r, kind) else []
  {
    if kinds != [] {
      ChosenConcat(Many(kinds[0], PayloadsOf(r, kinds[0])), AttrsOfKinds(r, kinds[1..]), kind);
      ChosenMany(kinds[0], PayloadsOf(r, kinds[0]), kind);
      ChosenOfKinds(r, kinds[1..], kind);
    }
  }

  lemma {:induction false} EndedString(str: seq<Byte>, i: nat)
    requires 0 !in str && i <= |str|
    ensures CString(str + [0], i) == str[i..]
    decreases |str| - i
  {
    if i < |str| {
      EndedString(str, i + 1);
      assert str[i..] == [str[i]] + str[i + 1..];
    }
  }

  lemma OptStringBack(o: Option<seq<Byte>>, attrs: seq<WireAttr>, kind: Word)
    requires NoNul(o) && Chosen(attrs, kind) == OptEnded(o)
    ensures LastString(attrs, kind) == o
  {
    if o.Some? { EndedString(o.value, 0); }
  }

  lemma StringsBack(strings: seq<seq<Byte>>)
    requires forall i :: 0 <= i < |strings| ==> 0 !in strings[i]
    ensures EachString(Ended(strings)) == strings
  {
    forall i | 0 <= i < |strings| ensures CString(strings[i] + [0], 0) == strings[i] {
      EndedString(strings[i], 0);
    }
  }

  lemma AddressesBack(r: Resolver)
    requires ValidResolver(r)
    ensures EachSockaddr(r.nameservers) == r.nameservers && EachSortaddr(r.sortaddrs) == r.sortaddrs
  {
    forall i | 0 <= i < |r.nameservers| ensures Sockaddr(r.nameservers[i], 0) == r.nameservers[i] {
      var p := r.nameservers[i];
      assert p[0..0 + p[0] as int] == p;
    }
    forall i | 0 <= i < |r.sortaddrs| ensures Sortaddr(r.sortaddrs[i], 0) == r.sortaddrs[i] {
      var p := r.sortaddrs[i];
      assert p[0..0 + 8] == p;
    }
  }

  lemma PayloadsMean(r: Resolver, w: WireResolver)
    requires ValidResolver(r) && w == WireOf(r).(attrs := w.attrs)
    requires forall kind :: kind in RESOLVER_KINDS ==> Chosen(w.attrs, kind) == PayloadsOf(r, kind)
    ensures ResolverMeaning(w) == r
  {
    assert RESOLVER_KINDS[0] == RESOLVER_DOMAIN && RESOLVER_KINDS[1] == RESOLVER_ADDRESS && RESOLVER_KINDS[2] == RESOLVER_SEARCH
        && RESOLVER_KINDS[3] == RESOLVER_SORTADDR && RESOLVER_KINDS[4] == RESOLVER_OPTIONS
        && RESOLVER_KINDS[5] == RESOLVER_CONFIGURATION_ID && RESOLVER_KINDS[6] == RESOLVER_INTERFACE_NAME;
    OptStringBack(r.domain, w.attrs, RESOLVER_DOMAIN);
    OptStringBack(r.options, w.attrs, RESOLVER_OPTIONS);
    OptStringBack(r.cid, w.attrs, RESOLVER_CONFIGURATION_ID);
    OptStringBack(r.ifName, w.attrs, RESOLVER_INTERFACE_NAME);
    StringsBack(r.searches);
    AddressesBack(r);
  }

  lemma WireOfMeans(r: Resolver)
    requires ValidResolver(r)
    ensures ResolverMeaning(WireOf(r)) == r
  {
    forall kind: Word | kind in RESOLVER_KINDS ensures Chosen(WireOf(r).attrs, kind) == PayloadsOf(r, kind) {
      ChosenOfKinds(r, RESOLVER_KINDS, kind);
    }
    PayloadsMean(r, WireOf(r));
  }

  lemma {:induction false} WireOfOk(r: Resolver, kinds: seq<Word>)
    requires ValidResolver(r)
    ensures AttrsOk(AttrsOfKinds(r, kinds))
  {
    if kinds != [] {
      WireOfOk(r, kinds[1..]);
    }
  }

  lemma {:induction false} MeantConcat(a: seq<Top>, b: seq<Top>, kind: Word)
    ensures ResolversMeant(a + b, kind) == ResolversMeant(a, kind) + ResolversMeant(b, kind)
  {
    if b == [] {
      assert a + b == a;
    } else {
      var init, t := b[..|b| - 1], b[|b| - 1];
      MeantConcat(a, init, kind);
      assert a + b == a + init + [t] && b == init + [t];
    }
  }

  /** Each resolver, of one kind, means what is expected of it. */
  ghost predicate EachMeans(top: seq<Top>, kind: Word, rs: seq<Resolver>) {
    |top| == |rs| && forall i :: 0 <= i < |top| ==> top[i].Res? && top[i].kind == kind && ResolverMeaning(top[i].resolver) == rs[i]
  }

  lemma {:induction false} EachMeantIsMeant(top: seq<Top>, k: Word, rs: seq<Resolver>, kind: Word)
    requires EachMeans(top, k, rs)
    ensures ResolversMeant(top, kind) == if k == kind then rs else []
  {
    if top != [] {
      var n := |top| - 1;
      EachMeantIsMeant(top[..n], k, rs[..n], kind);
      assert rs == rs[..n] + [rs[n]];
    }
  }

  lemma TopOfMeans(k: Word, rs: seq<Resolver>, kind: Word)
    requires forall i :: 0 <= i < |rs| ==> ValidResolver(rs[i])
    ensures ResolversMeant(TopOf(k, rs), kind) == if k == kind then rs else []
  {
    forall i | 0 <= i < |rs| ensures ResolverMeaning(WireOf(rs[i])) == rs[i] {
      WireOfMeans(rs[i]);
    }
    EachMeantIsMeant(TopOf(k, rs), k, rs, kind);
  }

  lemma PartsMean(c: Config, nPadding: Word, kind: Word)
    requires ValidConfig(c)
    ensures ResolversMeant(WireOfConfig(c, nPadding).top, kind)
         == (if kind == CONFIG_RESOLVER then c.resolvers else [])
            + ((if kind == CONFIG_SCOPED_RESOLVER then c.scoped else [])
               + (if kind == CONFIG_SERVICE_SPECIFIC_RESOLVER then c.serviceSpecific else []))
  {
    var t1, t2, t3 := TopOf(CONFIG_RESOLVER, c.resolvers), TopOf(CONFIG_SCOPED_RESOLVER, c.scoped),
                      TopOf(CONFIG_SERVICE_SPECIFIC_RESOLVER, c.serviceSpecific);
    MeantConcat(t1, t2 + t3, kind);
    MeantConcat(t2, t3, kind);
    TopOfMeans(CONFIG_RESOLVER, c.resolvers, kind);
    TopOfMeans(CONFIG_SCOPED_RESOLVER, c.scoped, kind);
    TopOfMeans(CONFIG_SERVICE_SPECIFIC_RESOLVER, c.serviceSpecific, kind);
  }

  lemma TopOfOk(kind: Word, rs: seq<Resolver>)
    requires IsResolver(kind) && forall i :: 0 <= i < |rs| ==> ValidResolver(rs[i])
    ensures forall i :: 0 <= i < |rs| ==> TopOk(TopOf(kind, rs)[i])
  {
    forall i | 0 <= i < |rs| ensures TopOk(TopOf(kind, rs)[i]) {
      WireOfOk(rs[i], RESOLVER_KINDS);
    }
  }

  lemma WireOfConfigOk(c: Config, nPadding: Word)
    requires ValidConfig(c)
    ensures forall i :: 0 <= i < |WireOfConfig(c, nPadding).top| ==> TopOk(WireOfConfig(c, nPadding).top[i])
  {
    TopOfOk(CONFIG_RESOLVER, c.resolvers);
    TopOfOk(CONFIG_SCOPED_RESOLVER, c.scoped);
    TopOfOk(CONFIG_SERVICE_SPECIFIC_RESOLVER, c.serviceSpecific);
  }

  lemma WireOfConfigMeans(c: Config, nPadding: Word)
    requires ValidConfig(c)
    ensures Meaning(WireOfConfig(c, nPadding)) == c
  {
    PartsMean(c, nPadding, CONFIG_RESOLVER);
    PartsMean(c, nPadding, CONFIG_SCOPED_RESOLVER);
    PartsMean(c, nPadding, CONFIG_SERVICE_SPECIFIC_RESOLVER);
  }

  /** Any configuration, written for the wire with enough padding, is read back as it was. */
  lemma EveryConfigReturns(c: Config, w: WireConfig)
    requires ValidConfig(c) && w == WireOfConfig(c, w.nPadding)
    requires |EncodeConfig(w)| + w.nPadding <= BUF_MAX && PTR_SIZE * EntriesMeant(w.top) <= w.nPadding
    ensures WellFormedBuffer(Wire(w)) && Decode(Wire(w)) == Some(c)
  {
    WireOfConfigOk(c, w.nPadding);
    WireOfConfigMeans(c, w.nPadding);
    DecodeUndoesEncode(w);
  }

  // ----- unknown attributes

  predicate Known(kind: Word) {
    RESOLVER_DOMAIN <= kind <= RESOLVER_INTERFACE_NAME
  }

  function KnownAttrs(attrs: seq<WireAttr>): seq<WireAttr> {
    if attrs == [] then []
    else
      var n := |attrs| - 1;
      KnownAttrs(attrs[..n]) + if Known(attrs[n].kind) then [attrs[n]] else []
  }

  /** Without the attributes of unknown types, at both levels. */
  function Stripped(top: seq<Top>): seq<Top> {
    if top == [] then []
    else
      var n := |top| - 1;
      Stripped(top[..n])
      + match top[n]
        case Res(kind, w) => [Res(kind, w.(attrs := KnownAttrs(w.attrs)))]
        case Other(_) => []
  }

  lemma {:induction false} KnownChosen(attrs: seq<WireAttr>, kind: Word)
    requires Known(kind)
    ensures Chosen(KnownAttrs(attrs), kind) == Chosen(attrs, kind)
  {
    if attrs != [] {
      var n := |attrs| - 1;
      KnownChosen(attrs[..n], kind);
      if Known(attrs[n].kind) {
        ChosenConcat(KnownAttrs(attrs[..n]), [attrs[n]], kind);
        assert [attrs[n]][..0] == [];
      } else {
        assert KnownAttrs(attrs) == KnownAttrs(attrs[..n]);
      }
    }
  }

  lemma KnownMeans(w: WireResolver)
    ensures ResolverMeaning(w.(attrs := KnownAttrs(w.attrs))) == ResolverMeaning(w)
    ensures ListEntries(w.(attrs := KnownAttrs(w.attrs))) == ListEntries(w)
  {
    KnownChosen(w.attrs, RESOLVER_DOMAIN);
    KnownChosen(w.attrs, RESOLVER_ADDRESS);
    KnownChosen(w.attrs, RESOLVER_SEARCH);
    KnownChosen(w.attrs, RESOLVER_SORTADDR);
    KnownChosen(w.attrs, RESOLVER_OPTIONS);
    KnownChosen(w.attrs, RESOLVER_CONFIGURATION_ID);
    KnownChosen(w.attrs, RESOLVER_INTERFACE_NAME);
  }

  lemma {:induction false} StrippedMeans(top: seq<Top>, kind: Word)
    ensures ResolversMeant(Stripped(top), kind) == ResolversMeant(top, kind)
    ensures EntriesMeant(Stripped(top)) == EntriesMeant(top)
  {
    if top != [] {
      var n := |top| - 1;
      StrippedMeans(top[..n], kind);
      match top[n]
      case Res(k, w) =>
        KnownMeans(w);
      case Other(_) =>
        assert Stripped(top) == Stripped(top[..n]);
    }
  }

  /**
   Attributes of unknown types, anywhere at either level, do not matter: buffers that differ in
   nothing else decode alike.
   */
  lemma UnknownIsTransparent(c: WireConfig, d: WireConfig)
    requires Valid(c) && Valid(d)
    requires c.(top := Stripped(c.top)) == d.(top := Stripped(d.top))
    ensures WellFormedBuffer(Wire(c)) && WellFormedBuffer(Wire(d)) && Decode(Wire(c)) == Decode(Wire(d))
  {
    DecodeUndoesEncode(c);
    DecodeUndoesEncode(d);
    StrippedMeans(c.top, CONFIG_RESOLVER);
    StrippedMeans(c.top, CONFIG_SCOPED_RESOLVER);
    StrippedMeans(c.top, CONFIG_SERVICE_SPECIFIC_RESOLVER);
    StrippedMeans(d.top, CONFIG_RESOLVER);
    StrippedMeans(d.top, CONFIG_SCOPED_RESOLVER);
    StrippedMeans(d.top, CONFIG_SERVICE_SPECIFIC_RESOLVER);
  }
}
