/** What a client reads of a string that is not ended in its attribute, when a slot lies right behind it. */
module DnsUnended {
  import opened Options
  import opened DnsLayout
  import opened DnsDecode
  import opened DnsSlots
  import opened DnsLists
  import opened DnsExpansion
  import opened DnsMemory
  import opened DnsFields
  import opened DnsRegions
  import opened DnsClient
  import opened DnsSteady
  import opened DnsReadBack
  import opened DnsEncode
  import opened DnsOverfull

  const NO_LISTS := Stated(0, 0, 0)

  /** Where the fields of the first resolver are. */
  const FIRST_RESOLVER := CONFIG_SIZE + ATTRIBUTE_SIZE

  /** Where the padding is, but for the length of the domain. */
  const PADDING_OFFSET := CONFIG_SIZE + RESOLVER_SIZE + 2 * ATTRIBUTE_SIZE

  function OneDomain(text: seq<Byte>): seq<WireAttr> {
    [WireAttr(RESOLVER_DOMAIN, text)]
  }

  function OneSilent(w: WireResolver): seq<WireAttr> {
    [WireAttr(CONFIG_RESOLVER, RawResolver(NO_LISTS, w))]
  }

  /** A buffer of one resolver with just a domain, and padding for the one list entry. */
  function Unended(w: WireResolver): seq<Byte> {
    RawConfig(ONE_RESOLVER, OneSilent(w), Zeros(8), Zeros(4), PTR_SIZE) + Zeros(PTR_SIZE)
  }

  lemma OneEncoded(x: WireAttr)
    ensures |EncodeAttrs([x])| == ATTRIBUTE_SIZE + |x.payload|
  {
    var attrs := [x];
    assert attrs[1..] == [];
    assert EncodeAttrs(attrs) == EncodeAttr(x) + EncodeAttrs(attrs[1..]);
  }

  lemma SilentSize(w: WireResolver, text: seq<Byte>)
    requires w.attrs == OneDomain(text)
    ensures |RawResolver(NO_LISTS, w)| == RESOLVER_SIZE + ATTRIBUTE_SIZE + |text|
    ensures |EncodeAttrs(OneSilent(w))| == RESOLVER_SIZE + 2 * ATTRIBUTE_SIZE + |text|
  {
    OneEncoded(WireAttr(RESOLVER_DOMAIN, text));
    OneEncoded(WireAttr(CONFIG_RESOLVER, RawResolver(NO_LISTS, w)));
  }

  /** Where the padding is, which is zero. */
  lemma UnendedPadding(s: seq<Byte>, w: WireResolver, text: seq<Byte>) returns (p: nat)
    requires w.attrs == OneDomain(text) && s == Unended(w) && |s| <= BUF_MAX
    ensures ConfigLies(s, ONE_RESOLVER, OneSilent(w), Zeros(8), Zeros(4), PTR_SIZE)
    ensures p == PaddingStart(s) < |s| && s[p] == 0 && p == PADDING_OFFSET + |text|
  {
    RawBufferLies(ONE_RESOLVER, OneSilent(w), Zeros(8), Zeros(4), PTR_SIZE);
    SilentSize(w, text);
    p := PaddingStart(s);
  }

  lemma UnendedBody(s: seq<Byte>, at: nat, size: nat, w: WireResolver, text: seq<Byte>) returns (d: Attr)
    requires ResolverLies(s, at, size, NO_LISTS, w) && w.attrs == OneDomain(text)
    ensures at + size <= |s| && Readable(s, at, size) && Checked(s, at, size)
    ensures BodyAt(s, at, size) == Body(NumbersMeant(NO_LISTS, w), [d])
    ensures d.kind == RESOLVER_DOMAIN && d.at == at + RESOLVER_SIZE && Holds(s, d.Payload(), text)
  {
    LyingBody(s, at, size, NO_LISTS, w);
    var placed := Place(w.attrs, at + RESOLVER_SIZE);
    d := placed[0];
    assert w.attrs[0] == WireAttr(RESOLVER_DOMAIN, text) && placed == [d];
  }

  /** The one entry e: its domain `text` lies at q, at the end of its attribute a. */
  ghost predicate OneDomainAt(s: seq<Byte>, a: Attr, e: Entry, q: nat, text: seq<Byte>) {
    && e.Entry? && e.kind == CONFIG_RESOLVER && e.at == FIRST_RESOLVER && Need(e.body.numbers) == 0
    && LastOf(e.body.attrs, RESOLVER_DOMAIN) == Some(q)
    && a.at == CONFIG_SIZE && a.Payload() + RESOLVER_SIZE <= q && q + |text| == a.at + a.length && Holds(s, q, text)
  }

  lemma UnendedEntry(s: seq<Byte>, w: WireResolver, text: seq<Byte>) returns (a: Attr, q: nat, e: Entry)
    requires ConfigLies(s, ONE_RESOLVER, OneSilent(w), Zeros(8), Zeros(4), PTR_SIZE) && 0 <= w.port < 0x1_0000 && w.attrs == OneDomain(text)
    ensures WellFormedBuffer(s) && ConfigAttrs(s) == [a] && e == EntryOf(s, a) && OneDomainAt(s, a, e, q, text)
    ensures a.at + a.length == PADDING_OFFSET + |text|
  {
    var x := WireAttr(CONFIG_RESOLVER, RawResolver(NO_LISTS, w));
    SilentSize(w, text);
    a := OnePlaced(s, x, OneSilent(w));
    RawResolverLies(s, a.Payload(), a.length - ATTRIBUTE_SIZE, NO_LISTS, w);
    var d := UnendedBody(s, a.Payload(), a.length - ATTRIBUTE_SIZE, w, text);
    EntryIs(s, a, Body(NumbersMeant(NO_LISTS, w), [d]));
    OneAttr(s, a);
    q, e := d.Payload(), EntryOf(s, a);
  }

  lemma UnendedFits(s: seq<Byte>, a: Attr, e: Entry)
    requires WellFormedBuffer(s) && CountsAt(s) == ONE_RESOLVER && NPadding(s) == PTR_SIZE && ConfigAttrs(s) == [a] && e == EntryOf(s, a)
    requires e.Entry? && e.kind == CONFIG_RESOLVER && Need(e.body.numbers) == 0
    ensures ConfigEntries(s) == [e] && Expandable(s)
  {
    assert ConfigEntries(s) == [e];
  }

  // ----- what is read

  /** A text without a NUL, and what comes after it. */
  lemma {:induction false} TextAt(u: seq<Byte>, q: nat, text: seq<Byte>, i: nat)
    requires i <= |text| && q + |text| < |u| && 0 !in text && Holds(u, q, text)
    ensures CString(u, q + i) == text[i..] + CString(u, q + |text|)
    decreases |text| - i
  {
    if i < |text| {
      TextAt(u, q, text, i + 1);
      assert text[i..] == [text[i]] + text[i + 1..];
    }
  }

  /** The text is read as such exactly when it is ended right behind, at p. */
  lemma TextIff(u: seq<Byte>, q: nat, text: seq<Byte>, p: nat)
    requires q + |text| == p < |u| && 0 !in text && Holds(u, q, text)
    ensures CString(u, q) == text <==> u[p] == 0
  {
    TextAt(u, q, text, 0);
    assert text[0..] == text;
    if u[p] == 0 { assert text + [] == text; }
    else { assert |CString(u, q)| > |text|; }
  }

  lemma FirstFilled(slots: Slots, p: nat, x: nat)
    requires Filled(slots, p, [x])
    ensures p in slots && slots[p] == x
  {
    assert p + PTR_SIZE * 0 in slots && slots[p + PTR_SIZE * 0] == [x][0];
  }

  /** The first slot of the padding holds the first resolver. */
  lemma FirstSlot(s: seq<Byte>, x: nat)
    requires WellFormedBuffer(s) && Expandable(s) && EntryPtrs(ConfigEntries(s), CONFIG_RESOLVER) == [x]
    ensures CellAt(Over(s), PaddingStart(s), PaddingStart(s)) == Part(x, 0)
  {
    var p, m := PaddingStart(s), Expansion(s);
    ExpansionSucceeds(s);
    FirstFilled(m.slots, p, x);
    SlotCellAt(Over(s), p, p, p);
  }

  lemma TextStill(s: seq<Byte>, base: nat, p: nat, o: Overlay, beyond: seq<Byte>, q: nat, text: seq<Byte>)
    requires Holds(s, q, text) && forall i :: q <= i < q + |text| ==> CellAt(o, p, i) == Same
    ensures Holds(Space(s, base, p, o, beyond), q, text)
  {
    var u := Space(s, base, p, o, beyond);
    forall i | q <= i < q + |text| ensures u[i] == s[i] { assert Image(s, base, p, o)[i] == s[i]; }
    assert u[q..q + |text|] == s[q..q + |text|];
  }

  /** The text at the end of the resolver's attributes is not rewritten. */
  lemma TextSame(s: seq<Byte>, a: Attr, q: nat, n: nat)
    requires WellFormedBuffer(s) && ConfigAttrs(s) == [a] && a.Payload() + RESOLVER_SIZE <= q && q + n == a.at + a.length == PaddingStart(s)
    ensures forall i :: q <= i < q + n ==> CellAt(Over(s), PaddingStart(s), i) == Same
  {
    forall i | q <= i < q + n ensures CellAt(Over(s), PaddingStart(s), i) == Same {
      assert ConfigAttrs(s)[0] == a;
      AttributeBytesSame(s, 0, i);
    }
  }

  lemma OneEntryPtrs(e: Entry)
    requires e.Entry? && e.kind == CONFIG_RESOLVER
    ensures EntryPtrs([e], CONFIG_RESOLVER) == [e.at]
  {
    assert [e][..0] == [];
  }

  /** What a client sees of the one resolver. */
  lemma OneSeen(u: seq<Byte>, s: seq<Byte>, base: nat, e: Entry, q: nat)
    requires CONFIG_SIZE <= |s| <= |u| && ConfigSeen(u, s, base, [e]) && AllSeen(u, s, base, [e])
    requires e.Entry? && e.kind == CONFIG_RESOLVER && LastOf(e.body.attrs, RESOLVER_DOMAIN) == Some(q)
    ensures |ClientConfig(u, base).resolvers| == 1 && ClientConfig(u, base).resolvers[0].domain == Some(CString(u, q))
  {
    OneEntryPtrs(e);
    assert [e][0] == e && ResolverSeen(u, s, base, e.at, e.body);
  }

  lemma OneResolverOf(s: seq<Byte>, e: Entry)
    requires e.Entry? && e.kind == CONFIG_RESOLVER
    ensures ResolversOf(s, [e], CONFIG_RESOLVER) == [ResolverOf(s, e.body)]
  {
    assert [e][..0] == [];
  }

  /** What the bytes say of it. */
  lemma OneSaid(s: seq<Byte>, e: Entry, q: nat)
    requires WellFormedBuffer(s) && Expandable(s) && ConfigEntries(s) == [e]
    requires e.Entry? && e.kind == CONFIG_RESOLVER && LastOf(e.body.attrs, RESOLVER_DOMAIN) == Some(q)
    ensures Decode(s).Some? && |Decode(s).value.resolvers| == 1 && Decode(s).value.resolvers[0].domain == Some(CString(s, q))
  {
    OneResolverOf(s, e);
  }

  /** The text, in the expanded buffer. */
  lemma UnendedStays(s: seq<Byte>, a: Attr, e: Entry, q: nat, text: seq<Byte>, base: nat, beyond: seq<Byte>)
    requires WellFormedBuffer(s) && ConfigAttrs(s) == [a] && OneDomainAt(s, a, e, q, text) && a.at + a.length == PaddingStart(s)
    ensures Holds(Space(s, base, PaddingStart(s), Over(s), beyond), q, text)
  {
    TextSame(s, a, q, |text|);
    TextStill(s, base, PaddingStart(s), Over(s), beyond, q, text);
  }

  /** The byte behind it. */
  lemma UnendedByte(s: seq<Byte>, e: Entry, base: nat, beyond: seq<Byte>, p: nat)
    requires WellFormedBuffer(s) && Expandable(s) && ConfigEntries(s) == [e] && p == PaddingStart(s) < |s|
    requires e.Entry? && e.kind == CONFIG_RESOLVER && e.at == FIRST_RESOLVER
    ensures var u := Space(s, base, p, Over(s), beyond); p < |u| && u[p] == HostByte(base + FIRST_RESOLVER, 0)
  {
    OneEntryPtrs(e);
    FirstSlot(s, FIRST_RESOLVER);
  }

  /** The bytes say one resolver, of this domain. */
  ghost predicate DomainSaid(s: seq<Byte>, text: seq<Byte>)
    requires WellFormedBuffer(s)
  {
    Decode(s).Some? && |Decode(s).value.resolvers| == 1 && Decode(s).value.resolvers[0].domain == Some(text)
  }

  /** A client of the expanded buffer at `base` reads one resolver, of this domain. */
  ghost predicate DomainRead(s: seq<Byte>, base: nat, beyond: seq<Byte>, text: seq<Byte>)
    requires WellFormedBuffer(s)
  {
    var c := ClientConfig(Space(s, base, PaddingStart(s), Over(s), beyond), base);
    |c.resolvers| == 1 && c.resolvers[0].domain == Some(text)
  }

  /** What a client of the expanded buffer sees of the one resolver. */
  lemma OneExpanded(s: seq<Byte>, e: Entry, q: nat, base: nat, beyond: seq<Byte>, text: seq<Byte>)
    requires WellFormedBuffer(s) && Expandable(s) && ConfigEntries(s) == [e] && Addressable(base, |s|)
    requires e.Entry? && e.kind == CONFIG_RESOLVER && LastOf(e.body.attrs, RESOLVER_DOMAIN) == Some(q)
    ensures DomainRead(s, base, beyond, text) <==> CString(Space(s, base, PaddingStart(s), Over(s), beyond), q) == text
  {
    ExpansionSeen(s, base, beyond);
    OneSeen(Space(s, base, PaddingStart(s), Over(s), beyond), s, base, e, q);
  }

  lemma UnendedSaid(s: seq<Byte>, a: Attr, e: Entry, q: nat, text: seq<Byte>, p: nat)
    requires WellFormedBuffer(s) && Expandable(s) && ConfigEntries(s) == [e] && OneDomainAt(s, a, e, q, text)
    requires q + |text| == p < |s| && s[p] == 0 && 0 !in text
    ensures DomainSaid(s, text)
  {
    TextIff(s, q, text, p);
    OneSaid(s, e, q);
  }

  lemma UnendedText(s: seq<Byte>, a: Attr, e: Entry, q: nat, text: seq<Byte>, base: nat, beyond: seq<Byte>, p: nat)
    requires WellFormedBuffer(s) && Expandable(s) && ConfigAttrs(s) == [a] && ConfigEntries(s) == [e] && OneDomainAt(s, a, e, q, text)
    requires a.at + a.length == p == PaddingStart(s) < |s| && 0 !in text
    ensures CString(Space(s, base, PaddingStart(s), Over(s), beyond), q) == text <==> HostByte(base + FIRST_RESOLVER, 0) == 0
  {
    UnendedStays(s, a, e, q, text, base, beyond);
    UnendedByte(s, e, base, beyond, p);
    TextIff(Space(s, base, p, Over(s), beyond), q, text, p);
  }

  /** The buffer taken apart: the padding at p, right behind the domain. */
  lemma UnendedLies(s: seq<Byte>, w: WireResolver, text: seq<Byte>) returns (a: Attr, q: nat, e: Entry, p: nat)
    requires w.attrs == OneDomain(text) && 0 <= w.port < 0x1_0000 && s == Unended(w) && |s| <= BUF_MAX
    ensures WellFormedBuffer(s) && Expandable(s) && ConfigAttrs(s) == [a] && ConfigEntries(s) == [e] && OneDomainAt(s, a, e, q, text)
    ensures a.at + a.length == q + |text| == p == PaddingStart(s) < |s| && s[p] == 0
  {
    p := UnendedPadding(s, w, text);
    a, q, e := UnendedEntry(s, w, text);
    UnendedFits(s, a, e);
  }

  /**
   A domain without a NUL at the end of the last resolver's attributes: the bytes say the domain, the padding
   being zero, but a client reads it exactly when the lowest byte of the resolver's address happens to be zero.
   */
  lemma UnendedIsDisturbed(w: WireResolver, text: seq<Byte>, base: nat, beyond: seq<Byte>)
    requires w.attrs == OneDomain(text) && 0 !in text && 0 <= w.port < 0x1_0000
    requires |Unended(w)| <= BUF_MAX && Addressable(base, |Unended(w)|)
    ensures var s := Unended(w); WellFormedBuffer(s) && Expandable(s) && DomainSaid(s, text)
    ensures DomainRead(Unended(w), base, beyond, text) <==> HostByte(base + FIRST_RESOLVER, 0) == 0
  {
    var s := Unended(w);
    var a, q, e, p := UnendedLies(s, w, text);
    UnendedSaid(s, a, e, q, text, p);
    UnendedText(s, a, e, q, text, base, beyond, p);
    OneExpanded(s, e, q, base, beyond, text);
  }
}
