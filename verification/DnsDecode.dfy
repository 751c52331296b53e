/** What a DNS configuration in the documented layout says, and when it can be expanded. */
module DnsDecode {
  import opened Options
  import opened DnsLayout

  // ----- values

  datatype Resolver = Resolver(
    domain: Option<seq<Byte>>,
    nameservers: seq<seq<Byte>>,
    port: int,
    searches: seq<seq<Byte>>,
    sortaddrs: seq<seq<Byte>>,
    options: Option<seq<Byte>>,
    timeout: Word,
    searchOrder: Word,
    ifIndex: Word,
    serviceIdentifier: Word,
    flags: Word,
    reachFlags: Word,
    cid: Option<seq<Byte>>,
    ifName: Option<seq<Byte>>)

  /** The generation and the version are left in the byte order they came in. */
  datatype Config = Config(
    resolvers: seq<Resolver>,
    scoped: seq<Resolver>,
    serviceSpecific: seq<Resolver>,
    generation: seq<Byte>,
    version: seq<Byte>)

  /** The bytes from p up to the first NUL. */
  function CString(s: seq<Byte>, p: nat): seq<Byte>
    decreases |s| - p
  {
    if p >= |s| || s[p] == 0 then [] else [s[p]] + CString(s, p + 1)
  }

  /** A socket address says its own length in its first byte. */
  function Sockaddr(s: seq<Byte>, p: nat): seq<Byte> {
    if p < |s| && p + s[p] as int <= |s| then s[p..p + s[p] as int] else []
  }

  /** An address and a mask. */
  function Sortaddr(s: seq<Byte>, p: nat): seq<Byte> {
    if p + 8 <= |s| then s[p..p + 8] else []
  }

  predicate IsString(kind: Word) {
    || kind == RESOLVER_DOMAIN || kind == RESOLVER_SEARCH || kind == RESOLVER_OPTIONS
    || kind == RESOLVER_CONFIGURATION_ID || kind == RESOLVER_INTERFACE_NAME
  }

  function OptString(s: seq<Byte>, p: Option<nat>): Option<seq<Byte>> {
    match p case None => None case Some(a) => Some(CString(s, a))
  }

  function Strings(s: seq<Byte>, ps: seq<nat>): seq<seq<Byte>> {
    seq(|ps|, i requires 0 <= i < |ps| => CString(s, ps[i]))
  }

  function Sockaddrs(s: seq<Byte>, ps: seq<nat>): seq<seq<Byte>> {
    seq(|ps|, i requires 0 <= i < |ps| => Sockaddr(s, ps[i]))
  }

  function Sortaddrs(s: seq<Byte>, ps: seq<nat>): seq<seq<Byte>> {
    seq(|ps|, i requires 0 <= i < |ps| => Sortaddr(s, ps[i]))
  }

  // ----- one resolver

  /** The numeric fields of a resolver, in host order. */
  datatype Numbers = Numbers(nNameserver: Word, nSearch: Word, nSortaddr: Word, port: int, timeout: Word, searchOrder: Word,
                             ifIndex: Word, serviceIdentifier: Word, flags: Word, reachFlags: Word)

  function NumbersAt(s: seq<Byte>, at: nat): Numbers
    requires at + RESOLVER_SIZE <= |s|
  {
    Numbers(Get32(s, at + N_NAMESERVER), Get32(s, at + N_SEARCH), Get32(s, at + N_SORTADDR), Get16(s, at + PORT),
            Get32(s, at + TIMEOUT), Get32(s, at + SEARCH_ORDER), Get32(s, at + IF_INDEX),
            Get32(s, at + SERVICE_IDENTIFIER), Get32(s, at + FLAGS), Get32(s, at + REACH_FLAGS))
  }

  /** A pointer field of all zeros. */
  predicate NullField(s: seq<Byte>, at: nat) {
    at + PTR_SIZE <= |s| && s[at..at + PTR_SIZE] == seq(PTR_SIZE, _ => 0)
  }

  /** The size of the resolver fits, and the byte count it states is that of its attributes. */
  predicate Checked(s: seq<Byte>, at: nat, n: nat)
    requires at + n <= |s|
  {
    n >= RESOLVER_SIZE && Get32(s, at + RESOLVER_N_ATTRIBUTE) == n - RESOLVER_SIZE
  }

  /** The attribute lengths of a resolver are well-formed wherever they are looked at. */
  predicate Readable(s: seq<Byte>, at: nat, n: nat)
    requires at + n <= |s|
  {
    Checked(s, at, n) ==> WellFormed(s, at + RESOLVER_SIZE, at + n)
  }

  function ResolverAttrs(s: seq<Byte>, at: nat, n: nat): seq<Attr>
    requires at + n <= |s| && Checked(s, at, n) && Readable(s, at, n)
  {
    Attrs(s, at + RESOLVER_SIZE, at + n)
  }

  /** The counts in the header are the numbers of attributes of each kind. */
  predicate CountsMatch(num: Numbers, attrs: seq<Attr>) {
    && num.nNameserver == |PtrsOf(attrs, RESOLVER_ADDRESS)|
    && num.nSearch == |PtrsOf(attrs, RESOLVER_SEARCH)|
    && num.nSortaddr == |PtrsOf(attrs, RESOLVER_SORTADDR)|
  }

  /** The padding that the resolver's three lists take. */
  function Need(num: Numbers): nat {
    PTR_SIZE * (num.nNameserver + num.nSearch + num.nSortaddr)
  }

  predicate Consistent(s: seq<Byte>, at: nat, n: nat)
    requires at + n <= |s| && Readable(s, at, n)
  {
    Checked(s, at, n) && CountsMatch(NumbersAt(s, at), ResolverAttrs(s, at, n))
  }

  /** What the bytes of a resolver consist of. */
  datatype Body = Body(numbers: Numbers, attrs: seq<Attr>)

  function BodyAt(s: seq<Byte>, at: nat, n: nat): Body
    requires at + n <= |s| && Readable(s, at, n) && Checked(s, at, n)
  {
    Body(NumbersAt(s, at), ResolverAttrs(s, at, n))
  }

  /** What a resolver says. */
  function ResolverOf(s: seq<Byte>, b: Body): Resolver {
    Resolver(
      OptString(s, LastOf(b.attrs, RESOLVER_DOMAIN)),
      Sockaddrs(s, PtrsOf(b.attrs, RESOLVER_ADDRESS)),
      b.numbers.port,
      Strings(s, PtrsOf(b.attrs, RESOLVER_SEARCH)),
      Sortaddrs(s, PtrsOf(b.attrs, RESOLVER_SORTADDR)),
      OptString(s, LastOf(b.attrs, RESOLVER_OPTIONS)),
      b.numbers.timeout, b.numbers.searchOrder, b.numbers.ifIndex, b.numbers.serviceIdentifier,
      b.numbers.flags, b.numbers.reachFlags,
      OptString(s, LastOf(b.attrs, RESOLVER_CONFIGURATION_ID)),
      OptString(s, LastOf(b.attrs, RESOLVER_INTERFACE_NAME)))
  }

  // ----- the whole configuration

  predicate IsResolver(kind: Word) {
    kind == CONFIG_RESOLVER || kind == CONFIG_SCOPED_RESOLVER || kind == CONFIG_SERVICE_SPECIFIC_RESOLVER
  }

  predicate AttrReadable(s: seq<Byte>, a: Attr) {
    IsResolver(a.kind) ==>
      ATTRIBUTE_SIZE <= a.length && a.at + a.length <= |s| && Readable(s, a.Payload(), a.length - ATTRIBUTE_SIZE)
  }

  ghost predicate AllReadable(s: seq<Byte>, attrs: seq<Attr>) {
    forall i :: 0 <= i < |attrs| ==> AttrReadable(s, attrs[i])
  }

  /** An attribute of the configuration: a resolver, one that is not consistent, or something else. */
  datatype Entry = Entry(kind: Word, at: nat, body: Body) | Broken | Unknown

  function EntryOf(s: seq<Byte>, a: Attr): Entry {
    if !IsResolver(a.kind) then Unknown
    else if AttrReadable(s, a) && Consistent(s, a.Payload(), a.length - ATTRIBUTE_SIZE) then
      Entry(a.kind, a.Payload(), BodyAt(s, a.Payload(), a.length - ATTRIBUTE_SIZE))
    else Broken
  }

  function Entries(s: seq<Byte>, attrs: seq<Attr>): seq<Entry> {
    seq(|attrs|, i requires 0 <= i < |attrs| => EntryOf(s, attrs[i]))
  }

  /** The addresses of the resolvers of one kind, in order. */
  function EntryPtrs(es: seq<Entry>, kind: Word): seq<nat> {
    if es == [] then []
    else
      var n := |es| - 1;
      var r := EntryPtrs(es[..n], kind);
      if es[n].Entry? && es[n].kind == kind then r + [es[n].at] else r
  }

  /** The padding that the lists of one resolver take. */
  function EntryNeed(e: Entry): nat {
    if e.Entry? then Need(e.body.numbers) else 0
  }

  function TotalNeed(es: seq<Entry>): nat {
    if es == [] then 0 else TotalNeed(es[..|es| - 1]) + EntryNeed(es[|es| - 1])
  }

  function NAttribute(s: seq<Byte>): Word
    requires CONFIG_SIZE <= |s|
  {
    Get32(s, CONFIG_N_ATTRIBUTE)
  }

  function NPadding(s: seq<Byte>): Word
    requires CONFIG_SIZE <= |s|
  {
    Get32(s, CONFIG_N_PADDING)
  }

  /** A buffer as `_dns_configuration_buffer_create` makes it. */
  predicate Sized(s: seq<Byte>) {
    CONFIG_SIZE <= |s| <= BUF_MAX && CONFIG_SIZE + NAttribute(s) + NPadding(s) == |s|
  }

  /** Well-formed attribute lengths at both levels. */
  ghost predicate WellFormedBuffer(s: seq<Byte>) {
    && Sized(s)
    && WellFormed(s, CONFIG_SIZE, CONFIG_SIZE + NAttribute(s))
    && AllReadable(s, Attrs(s, CONFIG_SIZE, CONFIG_SIZE + NAttribute(s)))
  }

  function ConfigEntries(s: seq<Byte>): seq<Entry>
    requires WellFormedBuffer(s)
  {
    Entries(s, Attrs(s, CONFIG_SIZE, CONFIG_SIZE + NAttribute(s)))
  }

  datatype Counts = Counts(resolver: Word, scoped: Word, serviceSpecific: Word)

  function CountsAt(s: seq<Byte>): Counts
    requires CONFIG_SIZE <= |s|
  {
    Counts(Get32(s, N_RESOLVER), Get32(s, N_SCOPED_RESOLVER), Get32(s, N_SERVICE_SPECIFIC_RESOLVER))
  }

  predicate ConfigCountsMatch(c: Counts, es: seq<Entry>) {
    && c.resolver == |EntryPtrs(es, CONFIG_RESOLVER)|
    && c.scoped == |EntryPtrs(es, CONFIG_SCOPED_RESOLVER)|
    && c.serviceSpecific == |EntryPtrs(es, CONFIG_SERVICE_SPECIFIC_RESOLVER)|
  }

  function ConfigNeed(c: Counts): nat {
    PTR_SIZE * (c.resolver + c.scoped + c.serviceSpecific)
  }

  /** All resolvers are consistent, all counts are right, and the padding has room for every list. */
  predicate Fits(c: Counts, es: seq<Entry>, nPadding: nat) {
    Broken !in es && ConfigCountsMatch(c, es) && ConfigNeed(c) + TotalNeed(es) <= nPadding
  }

  ghost predicate Expandable(s: seq<Byte>)
    requires WellFormedBuffer(s)
  {
    Fits(CountsAt(s), ConfigEntries(s), NPadding(s))
  }

  /** The resolvers of one kind, in order. */
  function ResolversOf(s: seq<Byte>, es: seq<Entry>, kind: Word): seq<Resolver> {
    if es == [] then []
    else
      var n := |es| - 1;
      var r := ResolversOf(s, es[..n], kind);
      if es[n].Entry? && es[n].kind == kind then r + [ResolverOf(s, es[n].body)] else r
  }

  function ConfigOf(s: seq<Byte>, es: seq<Entry>): Config
    requires CONFIG_SIZE <= |s|
  {
    Config(ResolversOf(s, es, CONFIG_RESOLVER),
           ResolversOf(s, es, CONFIG_SCOPED_RESOLVER),
           ResolversOf(s, es, CONFIG_SERVICE_SPECIFIC_RESOLVER),
           s[GENERATION..GENERATION + 8],
           s[VERSION..VERSION + 4])
  }

  /** What a configuration says, if it can be expanded. */
  ghost function Decode(s: seq<Byte>): Option<Config>
    requires WellFormedBuffer(s)
  {
    if Expandable(s) then Some(ConfigOf(s, ConfigEntries(s))) else None
  }
}
