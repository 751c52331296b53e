/**
 The layout as documented, in numbers: types, sizes, byte order, and the condition under which a
 configuration can be expanded.
 */
module DnsDocumented {
  import opened DnsLayout
  import opened DnsDecode

  /** The attribute types, the fields of the configuration, and the sizes. */
  lemma DocumentedNumbers()
    ensures CONFIG_RESOLVER == 1 && CONFIG_SCOPED_RESOLVER == 2 && CONFIG_SERVICE_SPECIFIC_RESOLVER == 3
    ensures RESOLVER_DOMAIN == 10 && RESOLVER_ADDRESS == 11 && RESOLVER_SEARCH == 12 && RESOLVER_SORTADDR == 13
    ensures RESOLVER_OPTIONS == 14 && RESOLVER_CONFIGURATION_ID == 15 && RESOLVER_INTERFACE_NAME == 16
    ensures N_RESOLVER == 0 && RESOLVER == N_RESOLVER + 4 && N_SCOPED_RESOLVER == RESOLVER + 8 && SCOPED_RESOLVER == N_SCOPED_RESOLVER + 4
    ensures GENERATION == SCOPED_RESOLVER + 8 && N_SERVICE_SPECIFIC_RESOLVER == GENERATION + 8
    ensures SERVICE_SPECIFIC_RESOLVER == N_SERVICE_SPECIFIC_RESOLVER + 4 && VERSION == SERVICE_SPECIFIC_RESOLVER + 8
    ensures CONFIG_N_ATTRIBUTE == VERSION + 4 && CONFIG_N_PADDING == CONFIG_N_ATTRIBUTE + 4 && CONFIG_SIZE == CONFIG_N_PADDING + 4
    ensures PTR_SIZE == 8 && ATTRIBUTE_SIZE == 8 && RESOLVER_SIZE == RESOLVER_N_ATTRIBUTE + 4 && BUF_MAX == 1024 * 1024
  {
  }

  /** Numbers come with their most significant byte first. */
  lemma NetworkOrder(s: seq<Byte>, at: nat)
    requires at + 4 <= |s|
    ensures s[at] == 0 && s[at + 1] == 0 && s[at + 2] == 0 ==> Get32(s, at) == s[at + 3]
    ensures s[at + 1] == 0 && s[at + 2] == 0 && s[at + 3] == 0 ==> Get32(s, at) == s[at] as int * 0x100_0000
    ensures Get16(s, at) == s[at] as int * 0x100 + s[at + 1] && Get32(s, at) == Get16(s, at) * 0x1_0000 + Get16(s, at + 2)
  {
  }

  /** How many attributes have the type. */
  function NumberOf(attrs: seq<Attr>, kind: Word): nat {
    |set i | 0 <= i < |attrs| && attrs[i].kind == kind|
  }

  lemma NumberNext(attrs: seq<Attr>, kind: Word)
    requires attrs != []
    ensures var n := |attrs| - 1; NumberOf(attrs, kind) == NumberOf(attrs[..n], kind) + if attrs[n].kind == kind then 1 else 0
  {
    var n := |attrs| - 1;
    var before := set i | 0 <= i < n && attrs[..n][i].kind == kind;
    var all := set i | 0 <= i < |attrs| && attrs[i].kind == kind;
    assert all == before + if attrs[n].kind == kind then {n} else {};
  }

  lemma {:induction false} PtrsCounted(attrs: seq<Attr>, kind: Word)
    ensures |PtrsOf(attrs, kind)| == NumberOf(attrs, kind)
  {
    if attrs != [] {
      PtrsCounted(attrs[..|attrs| - 1], kind);
      NumberNext(attrs, kind);
    }
  }

  /** The attribute is a resolver of one of the three kinds. */
  predicate OfResolver(a: Attr) {
    a.kind == 1 || a.kind == 2 || a.kind == 3
  }

  /**
   The resolver in the attribute: it is as large as its fields and the attributes that it says it has, and it has as
   many nameservers, search domains and sort addresses as it says.
   */
  predicate ResolverSound(s: seq<Byte>, a: Attr)
    requires OfResolver(a) && AttrReadable(s, a)
  {
    var at, n := a.at + 8, a.length - 8;
    && n >= RESOLVER_SIZE && Get32(s, at + RESOLVER_N_ATTRIBUTE) == n - RESOLVER_SIZE
    && var attrs := Attrs(s, at + RESOLVER_SIZE, at + n);
       Get32(s, at + N_NAMESERVER) == NumberOf(attrs, 11) && Get32(s, at + N_SEARCH) == NumberOf(attrs, 12)
       && Get32(s, at + N_SORTADDR) == NumberOf(attrs, 13)
  }

  /** The list entries of a resolver, as it states them. */
  function StatedEntries(s: seq<Byte>, a: Attr): nat {
    if OfResolver(a) && a.Payload() + RESOLVER_SIZE <= |s|
    then Get32(s, a.Payload() + N_NAMESERVER) + Get32(s, a.Payload() + N_SEARCH) + Get32(s, a.Payload() + N_SORTADDR)
    else 0
  }

  function AllStated(s: seq<Byte>, attrs: seq<Attr>): nat {
    if attrs == [] then 0 else AllStated(s, attrs[..|attrs| - 1]) + StatedEntries(s, attrs[|attrs| - 1])
  }

  lemma SoundIffConsistent(s: seq<Byte>, a: Attr)
    requires OfResolver(a) && AttrReadable(s, a)
    ensures ResolverSound(s, a) <==> Consistent(s, a.Payload(), a.length - ATTRIBUTE_SIZE)
  {
    if Checked(s, a.Payload(), a.length - ATTRIBUTE_SIZE) {
      var attrs := ResolverAttrs(s, a.Payload(), a.length - ATTRIBUTE_SIZE);
      PtrsCounted(attrs, RESOLVER_ADDRESS);
      PtrsCounted(attrs, RESOLVER_SEARCH);
      PtrsCounted(attrs, RESOLVER_SORTADDR);
    }
  }

  lemma EntrySoundIff(s: seq<Byte>, a: Attr)
    requires AttrReadable(s, a)
    ensures EntryOf(s, a) == Broken <==> OfResolver(a) && !ResolverSound(s, a)
    ensures EntryOf(s, a).Entry? <==> OfResolver(a) && ResolverSound(s, a)
    ensures EntryOf(s, a).Entry? ==> EntryOf(s, a).kind == a.kind && EntryNeed(EntryOf(s, a)) == 8 * StatedEntries(s, a)
    ensures !OfResolver(a) ==> EntryNeed(EntryOf(s, a)) == StatedEntries(s, a) == 0
  {
    if OfResolver(a) { SoundIffConsistent(s, a); }
  }

  ghost predicate AllResolversSound(s: seq<Byte>, attrs: seq<Attr>)
    requires AllReadable(s, attrs)
  {
    forall i :: 0 <= i < |attrs| && OfResolver(attrs[i]) ==> ResolverSound(s, attrs[i])
  }

  lemma NoneBroken(s: seq<Byte>, attrs: seq<Attr>)
    requires AllReadable(s, attrs)
    ensures Broken !in Entries(s, attrs) <==> AllResolversSound(s, attrs)
  {
    var es := Entries(s, attrs);
    forall i | 0 <= i < |attrs| ensures es[i] == Broken <==> OfResolver(attrs[i]) && !ResolverSound(s, attrs[i]) {
      EntrySoundIff(s, attrs[i]);
    }
    if Broken in es { var i :| 0 <= i < |es| && es[i] == Broken; }
    if i :| 0 <= i < |attrs| && OfResolver(attrs[i]) && !ResolverSound(s, attrs[i]) { assert es[i] in es; }
  }

  /** Entries count as attributes do. */
  lemma {:induction false} EntriesCounted(s: seq<Byte>, attrs: seq<Attr>, kind: Word)
    requires AllReadable(s, attrs) && AllResolversSound(s, attrs) && 1 <= kind <= 3
    ensures |EntryPtrs(Entries(s, attrs), kind)| == NumberOf(attrs, kind)
    ensures TotalNeed(Entries(s, attrs)) == 8 * AllStated(s, attrs)
  {
    if attrs != [] {
      var n := |attrs| - 1;
      EntriesCounted(s, attrs[..n], kind);
      NumberNext(attrs, kind);
      EntrySoundIff(s, attrs[n]);
      assert Entries(s, attrs)[..n] == Entries(s, attrs[..n]);
    }
  }

  /**
   A well-formed buffer can be expanded exactly when each resolver in it is sound, the configuration states how many
   there are of each kind, and the padding has eight bytes for each resolver and each list entry.
   */
  lemma ExpandableIff(s: seq<Byte>)
    requires WellFormedBuffer(s)
    ensures var attrs := Attrs(s, 56, 56 + Get32(s, 48));
            Expandable(s) <==>
              && AllResolversSound(s, attrs)
              && Get32(s, 0) == NumberOf(attrs, 1) && Get32(s, 12) == NumberOf(attrs, 2) && Get32(s, 32) == NumberOf(attrs, 3)
              && 8 * (Get32(s, 0) + Get32(s, 12) + Get32(s, 32) + AllStated(s, attrs)) <= Get32(s, 52)
  {
    var attrs := Attrs(s, 56, 56 + Get32(s, 48));
    NoneBroken(s, attrs);
    if AllResolversSound(s, attrs) {
      EntriesCounted(s, attrs, 1);
      EntriesCounted(s, attrs, 2);
      EntriesCounted(s, attrs, 3);
    }
  }
}
