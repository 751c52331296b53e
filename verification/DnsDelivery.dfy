/** From the encoder through the buffer to a client: what is sent is what is read. */
module DnsDelivery {
  import opened Options
  import opened DnsLayout
  import opened DnsDecode
  import opened DnsClient
  import opened DnsSteady
  import opened DnsReadBack
  import opened DnsBuffer
  import opened DnsEncode
  import opened DnsRoundTrip

  // ----- encoded values end with their attributes

  lemma AttrIsContained(s: seq<Byte>, a: Attr, w: WireAttr)
    requires a.kind == w.kind && a.length == ATTRIBUTE_SIZE + |w.payload| && Holds(s, a.Payload(), w.payload) && PayloadOk(w)
    ensures AttrContained(s, a)
  {
    if IsString(w.kind) {
      var z :| 0 <= z < |w.payload| && w.payload[z] == 0;
      assert s[a.Payload() + z] == 0;
    } else if w.kind == RESOLVER_ADDRESS {
    }
  }

  lemma ResolverContained(s: seq<Byte>, a: Attr, w: WireResolver)
    requires a.length >= ATTRIBUTE_SIZE && ResolverLies(s, a.Payload(), a.length - ATTRIBUTE_SIZE, CountsOf(w.attrs), w)
    requires IsResolver(a.kind) && AttrsOk(w.attrs)
    ensures EntryContained(s, EntryOf(s, a))
  {
    LyingResolver(s, a, w);
    LyingBody(s, a.Payload(), a.length - ATTRIBUTE_SIZE, CountsOf(w.attrs), w);
    var placed := Place(w.attrs, a.Payload() + RESOLVER_SIZE);
    forall i | 0 <= i < |placed| ensures AttrContained(s, placed[i]) { AttrIsContained(s, placed[i], w.attrs[i]); }
  }

  lemma TopContained(s: seq<Byte>, a: Attr, t: Top)
    requires |s| < 0x1_0000_0000 && TopOk(t)
    requires a.kind == TopAttr(t).kind && a.length == ATTRIBUTE_SIZE + |TopAttr(t).payload| && Holds(s, a.Payload(), TopAttr(t).payload)
    ensures EntryContained(s, EntryOf(s, a))
  {
    if t.Res? {
      RawResolverLies(s, a.Payload(), a.length - ATTRIBUTE_SIZE, CountsOf(t.resolver.attrs), t.resolver);
      ResolverContained(s, a, t.resolver);
    }
  }

  lemma EncodedContained(c: WireConfig)
    requires Valid(c)
    ensures WellFormedBuffer(Wire(c)) && Contained(Wire(c))
  {
    var s, attrs := Wire(c), TopAttrs(c.top);
    RawBufferLies(CountsMeant(c.top), attrs, c.generation, c.version, c.nPadding);
    LyingConfig(s, c);
    EncodedPlaced(s, CONFIG_SIZE, CONFIG_SIZE + NAttribute(s), attrs);
    var placed := Place(attrs, CONFIG_SIZE);
    forall k | 0 <= k < |placed| ensures EntryContained(s, EntryOf(s, placed[k])) {
      assert TopOk(c.top[k]) && attrs[k] == TopAttr(c.top[k]);
      TopContained(s, placed[k], c.top[k]);
    }
  }

  // ----- through the buffer

  lemma EncodedSizes(c: WireConfig)
    requires Valid(c)
    ensures CONFIG_SIZE <= |EncodeConfig(c)| && Sized(Wire(c))
    ensures CONFIG_SIZE + NAttribute(EncodeConfig(c)) == |EncodeConfig(c)| && NPadding(EncodeConfig(c)) == c.nPadding
  {
    var data := EncodeConfig(c);
    RawBufferLies(CountsMeant(c.top), TopAttrs(c.top), c.generation, c.version, c.nPadding);
  }

  /**
   An encoded configuration, made into a buffer and expanded: a client that reads the buffer's bytes, with
   whatever lies beyond them, reads what the configuration means, if the padding has room.
   */
  method Receive(c: WireConfig, base: nat, beyond: seq<Byte>) returns (read: Option<Config>)
    requires Valid(c) && Addressable(base, BUF_MAX)
    ensures read == if PTR_SIZE * EntriesMeant(c.top) <= c.nPadding then Some(Meaning(c)) else None
  {
    EncodedSizes(c);
    DecodeUndoesEncode(c);
    EncodedContained(c);
    ContainedIsUndisturbed(Wire(c));
    var buf := BufferCreate(EncodeConfig(c), base);
    var b := buf.value;
    assert b.wire == Wire(c);
    var ok := b.Expand();
    if !ok { return None; }
    read := Some(ClientConfig(b.memory[..] + beyond, base));
  }

  /** Any configuration, written for the wire with enough padding, made into a buffer and expanded, is read as it was. */
  method Deliver(c: Config, nPadding: Word, base: nat, beyond: seq<Byte>) returns (read: Option<Config>)
    requires ValidConfig(c) && |EncodeConfig(WireOfConfig(c, nPadding))| + nPadding <= BUF_MAX && Addressable(base, BUF_MAX)
    requires PTR_SIZE * EntriesMeant(WireOfConfig(c, nPadding).top) <= nPadding
    ensures read == Some(c)
  {
    WireOfConfigOk(c, nPadding);
    WireOfConfigMeans(c, nPadding);
    read := Receive(WireOfConfig(c, nPadding), base, beyond);
  }
}
