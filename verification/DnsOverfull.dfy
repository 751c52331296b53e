/** What the expansion does with a resolver that has more nameservers than it states. */
module DnsOverfull {
  import opened Options
  import opened DnsLayout
  import opened DnsDecode
  import opened DnsSlots
  import opened DnsResolver
  import opened DnsLists
  import opened DnsExpansion
  import opened DnsEncode

  const ONE_NAMESERVER := Stated(1, 0, 0)
  const ONE_RESOLVER := Counts(1, 0, 0)

  function OneResolver(w: WireResolver): seq<WireAttr> {
    [WireAttr(CONFIG_RESOLVER, RawResolver(ONE_NAMESERVER, w))]
  }

  /** A buffer of one resolver that states one nameserver, with padding for the two list entries stated. */
  function Overfull(w: WireResolver): seq<Byte> {
    RawConfig(ONE_RESOLVER, OneResolver(w), Zeros(8), Zeros(4), 2 * PTR_SIZE) + Zeros(2 * PTR_SIZE)
  }

  ghost predicate AllAddresses(attrs: seq<WireAttr>) {
    forall i :: 0 <= i < |attrs| ==> attrs[i].kind == RESOLVER_ADDRESS
  }

  /** The n slots from p on are written. */
  ghost predicate WrittenFrom(slots: Slots, p: nat, n: nat) {
    forall j :: 0 <= j < n ==> p + PTR_SIZE * j in slots
  }

  /** Each address is stored in the slot after that of the one before it, however long the list. */
  lemma {:induction false} AddressSteps(w0: Work, attrs: seq<Attr>, list: nat)
    requires forall i :: 0 <= i < |attrs| ==> attrs[i].kind == RESOLVER_ADDRESS
    requires w0.header.nameserver == Some(list) && w0.nNameserver == 0
    ensures var (ok, w) := Steps(w0, attrs);
            ok && w.header == w0.header && w.nNameserver == |attrs| && WrittenFrom(w.slots, list, |attrs|)
  {
    if attrs != [] { AddressSteps(w0, attrs[..|attrs| - 1], list); }
  }

  /** The resolver is refused, but only after the loop has stored all of the addresses. */
  lemma OverfullResolver(s: seq<Byte>, at: nat, size: nat, w: WireResolver, padding: nat)
    requires ResolverLies(s, at, size, ONE_NAMESERVER, w) && AllAddresses(w.attrs) && |w.attrs| >= 2
    requires at + size <= |s| && Readable(s, at, size)
    ensures var r := Resolve(s, at, size, padding, PTR_SIZE, map[], map[]);
            !r.ok && WrittenFrom(r.slots, padding, |w.attrs|)
  {
    LyingBody(s, at, size, ONE_NAMESERVER, w);
    var c := ClaimThree(padding, PTR_SIZE, 1, 0, 0).value;
    AddressSteps(Work(Initial(s, at, c), map[], 0, 0, 0), ResolverAttrs(s, at, size), padding);
  }

  /** What the bytes of such a buffer are. */
  ghost predicate OverfullLies(s: seq<Byte>, a: Attr, w: WireResolver) {
    && WellFormedBuffer(s) && ConfigAttrs(s) == [a] && CountsAt(s) == ONE_RESOLVER && NPadding(s) == 2 * PTR_SIZE
    && a.kind == CONFIG_RESOLVER && a.length >= ATTRIBUTE_SIZE && AttrReadable(s, a)
    && ResolverLies(s, a.Payload(), a.length - ATTRIBUTE_SIZE, ONE_NAMESERVER, w)
  }

  lemma OneAttr(s: seq<Byte>, a: Attr)
    requires Sized(s) && WellFormed(s, CONFIG_SIZE, CONFIG_SIZE + NAttribute(s))
    requires Attrs(s, CONFIG_SIZE, CONFIG_SIZE + NAttribute(s)) == [a] && AttrReadable(s, a)
    ensures WellFormedBuffer(s) && ConfigAttrs(s) == [a]
  {
  }

  lemma OnePlaced(s: seq<Byte>, x: WireAttr, attrs: seq<WireAttr>) returns (a: Attr)
    requires Sized(s) && NAttribute(s) == |EncodeAttrs(attrs)| && Holds(s, CONFIG_SIZE, EncodeAttrs(attrs)) && attrs == [x]
    ensures a == Attr(x.kind, CONFIG_SIZE, a.length) && a.length == ATTRIBUTE_SIZE + |x.payload|
    ensures WellFormed(s, CONFIG_SIZE, CONFIG_SIZE + NAttribute(s)) && Attrs(s, CONFIG_SIZE, CONFIG_SIZE + NAttribute(s)) == [a]
    ensures Holds(s, a.Payload(), x.payload)
  {
    EncodedPlaced(s, CONFIG_SIZE, CONFIG_SIZE + NAttribute(s), attrs);
    var placed := Place(attrs, CONFIG_SIZE);
    a := placed[0];
    assert attrs[0] == x && placed == [a];
  }

  lemma ResolverPlaced(s: seq<Byte>, w: WireResolver) returns (a: Attr)
    requires ConfigLies(s, ONE_RESOLVER, OneResolver(w), Zeros(8), Zeros(4), 2 * PTR_SIZE) && 0 <= w.port < 0x1_0000
    ensures OverfullLies(s, a, w)
  {
    a := OnePlaced(s, WireAttr(CONFIG_RESOLVER, RawResolver(ONE_NAMESERVER, w)), OneResolver(w));
    RawResolverLies(s, a.Payload(), a.length - ATTRIBUTE_SIZE, ONE_NAMESERVER, w);
    LyingBody(s, a.Payload(), a.length - ATTRIBUTE_SIZE, ONE_NAMESERVER, w);
    OneAttr(s, a);
  }

  /** The one turn of the configuration's loop fails. */
  lemma OverfullTurn(s: seq<Byte>, a: Attr, w: WireResolver, h: ConfigHeader, c: Claims)
    requires OverfullLies(s, a, w) && AllAddresses(w.attrs) && |w.attrs| >= 2 && c.nPadding == PTR_SIZE
    ensures var l := Turns(s, h, Start(c), [a]);
            !l.ok && WrittenFrom(l.slots, c.padding, |w.attrs|)
  {
    OverfullResolver(s, a.Payload(), a.length - ATTRIBUTE_SIZE, w, c.padding);
  }

  lemma WrittenAfter(slots: Slots, p: nat, n: nat)
    requires WrittenFrom(slots, p, n) && n > 0
    ensures WrittenFrom(slots, p + PTR_SIZE, n - 1)
  {
    forall j | 0 <= j < n - 1 ensures p + PTR_SIZE + PTR_SIZE * j in slots {
      assert p + PTR_SIZE + PTR_SIZE * j == p + PTR_SIZE * (j + 1);
    }
  }

  lemma OneClaim(p: nat) returns (c: Claims)
    ensures ClaimThree(p, 2 * PTR_SIZE, 1, 0, 0) == Some(c) && c.padding == p + PTR_SIZE && c.nPadding == PTR_SIZE
  {
    c := ClaimThree(p, 2 * PTR_SIZE, 1, 0, 0).value;
  }

  lemma PastTheEnd(s: seq<Byte>, a: Attr, w: WireResolver)
    requires OverfullLies(s, a, w) && AllAddresses(w.attrs) && |w.attrs| >= 2
    ensures !Expansion(s).ok && WrittenFrom(Expansion(s).slots, |s|, |w.attrs| - 1)
  {
    var c := OneClaim(PaddingStart(s));
    OverfullTurn(s, a, w, HeaderWith(ONE_RESOLVER, c), c);
    WrittenAfter(Expansion(s).slots, c.padding, |w.attrs|);
  }

  /**
   The expansion of such a buffer fails, but the addresses after the first have then been stored in
   slots from the end of the buffer on.
   */
  lemma OverfullOverruns(w: WireResolver)
    requires AllAddresses(w.attrs) && |w.attrs| >= 2 && 0 <= w.port < 0x1_0000 && |Overfull(w)| <= BUF_MAX
    ensures var s := Overfull(w);
            WellFormedBuffer(s) && !Expansion(s).ok && WrittenFrom(Expansion(s).slots, |s|, |w.attrs| - 1)
  {
    var s := Overfull(w);
    RawBufferLies(ONE_RESOLVER, OneResolver(w), Zeros(8), Zeros(4), 2 * PTR_SIZE);
    var a := ResolverPlaced(s, w);
    PastTheEnd(s, a, w);
  }
}
