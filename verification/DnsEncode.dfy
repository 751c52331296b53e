/**
 The documented layout, written from the other side: an encoder, and the theorems that decoding undoes
 encoding and does not see attributes of unknown types.
 */
module DnsEncode {
  import opened Options
  import opened DnsLayout
  import opened DnsDecode

  // ----- what goes over the wire

  datatype WireAttr = WireAttr(kind: Word, payload: seq<Byte>)

  datatype WireResolver = WireResolver(
    port: int,
    timeout: Word,
    searchOrder: Word,
    ifIndex: Word,
    serviceIdentifier: Word,
    flags: Word,
    reachFlags: Word,
    attrs: seq<WireAttr>)

  datatype Top = Res(kind: Word, resolver: WireResolver) | Other(attr: WireAttr)

  datatype WireConfig = WireConfig(top: seq<Top>, generation: seq<Byte>, version: seq<Byte>, nPadding: Word)

  /** The payloads of one kind, in order. */
  function Chosen(attrs: seq<WireAttr>, kind: Word): seq<seq<Byte>> {
    if attrs == [] then []
    else
      var n := |attrs| - 1;
      var r := Chosen(attrs[..n], kind);
      if attrs[n].kind == kind then r + [attrs[n].payload] else r
  }

  function LastString(attrs: seq<WireAttr>, kind: Word): Option<seq<Byte>> {
    var ps := Chosen(attrs, kind);
    if ps == [] then None else Some(CString(ps[|ps| - 1], 0))
  }

  function EachString(ps: seq<seq<Byte>>): seq<seq<Byte>> {
    seq(|ps|, i requires 0 <= i < |ps| => CString(ps[i], 0))
  }

  function EachSockaddr(ps: seq<seq<Byte>>): seq<seq<Byte>> {
    seq(|ps|, i requires 0 <= i < |ps| => Sockaddr(ps[i], 0))
  }

  function EachSortaddr(ps: seq<seq<Byte>>): seq<seq<Byte>> {
    seq(|ps|, i requires 0 <= i < |ps| => Sortaddr(ps[i], 0))
  }

  function ResolverMeaning(w: WireResolver): Resolver {
    Resolver(
      LastString(w.attrs, RESOLVER_DOMAIN),
      EachSockaddr(Chosen(w.attrs, RESOLVER_ADDRESS)),
      w.port,
      EachString(Chosen(w.attrs, RESOLVER_SEARCH)),
      EachSortaddr(Chosen(w.attrs, RESOLVER_SORTADDR)),
      LastString(w.attrs, RESOLVER_OPTIONS),
      w.timeout, w.searchOrder, w.ifIndex, w.serviceIdentifier, w.flags, w.reachFlags,
      LastString(w.attrs, RESOLVER_CONFIGURATION_ID),
      LastString(w.attrs, RESOLVER_INTERFACE_NAME))
  }

  /** The resolvers of one kind, in order. */
  function ResolversMeant(top: seq<Top>, kind: Word): seq<Resolver> {
    if top == [] then []
    else
      var n := |top| - 1;
      var r := ResolversMeant(top[..n], kind);
      if top[n].Res? && top[n].kind == kind then r + [ResolverMeaning(top[n].resolver)] else r
  }

  function Meaning(c: WireConfig): Config {
    Config(ResolversMeant(c.top, CONFIG_RESOLVER), ResolversMeant(c.top, CONFIG_SCOPED_RESOLVER),
           ResolversMeant(c.top, CONFIG_SERVICE_SPECIFIC_RESOLVER), c.generation, c.version)
  }

  /** The entries of a resolver's three lists. */
  function ListEntries(w: WireResolver): nat {
    |Chosen(w.attrs, RESOLVER_ADDRESS)| + |Chosen(w.attrs, RESOLVER_SEARCH)| + |Chosen(w.attrs, RESOLVER_SORTADDR)|
  }

  /** One list entry for each resolver, and those of its own lists. */
  function EntriesMeant(top: seq<Top>): nat {
    if top == [] then 0
    else
      var n := |top| - 1;
      EntriesMeant(top[..n]) + if top[n].Res? then 1 + ListEntries(top[n].resolver) else 0
  }

  // ----- well-formedness

  predicate PayloadOk(a: WireAttr) {
    && (IsString(a.kind) ==> 0 in a.payload)
    && (a.kind == RESOLVER_ADDRESS ==> a.payload != [] && a.payload[0] <= |a.payload|)
    && (a.kind == RESOLVER_SORTADDR ==> |a.payload| >= 8)
  }

  ghost predicate AttrsOk(attrs: seq<WireAttr>) {
    forall i :: 0 <= i < |attrs| ==> PayloadOk(attrs[i])
  }

  ghost predicate TopOk(t: Top) {
    match t
    case Res(kind, w) => IsResolver(kind) && 0 <= w.port < 0x1_0000 && AttrsOk(w.attrs)
    case Other(a) => !IsResolver(a.kind)
  }

  ghost predicate Valid(c: WireConfig) {
    && |c.generation| == 8 && |c.version| == 4
    && (forall i :: 0 <= i < |c.top| ==> TopOk(c.top[i]))
    && |EncodeConfig(c)| + c.nPadding <= BUF_MAX
  }

  // ----- the encoder

  function Zeros(n: nat): seq<Byte> {
    seq(n, _ => 0)
  }

  function Low32(n: nat): Word {
    n % 0x1_0000_0000
  }

  function Low16(n: int): (r: int)
    ensures 0 <= r < 0x1_0000
  {
    n % 0x1_0000
  }

  function EncodeAttr(a: WireAttr): (r: seq<Byte>)
    ensures |r| == ATTRIBUTE_SIZE + |a.payload|
  {
    Put32(a.kind) + (Put32(Low32(ATTRIBUTE_SIZE + |a.payload|)) + a.payload)
  }

  function EncodeAttrs(attrs: seq<WireAttr>): seq<Byte> {
    if attrs == [] then [] else EncodeAttr(attrs[0]) + EncodeAttrs(attrs[1..])
  }

  function Count(attrs: seq<WireAttr>, kind: Word): Word {
    Low32(|Chosen(attrs, kind)|)
  }

  /** The three counts that a resolver states. */
  datatype Stated = Stated(nNameserver: Word, nSearch: Word, nSortaddr: Word)

  /** The resolver up to and with its search list: pointers are NULL. */
  function ResolverFront(n: Stated, w: WireResolver): (r: seq<Byte>)
    ensures |r| == 36
  {
    Zeros(8) + (Put32(n.nNameserver) + (Zeros(8) + (Put16(Low16(w.port)) + (Zeros(2) + (Put32(n.nSearch) + Zeros(8))))))
  }

  function ResolverMiddle(n: Stated, w: WireResolver): (r: seq<Byte>)
    ensures |r| == 32
  {
    Put32(n.nSortaddr) + (Zeros(16) + (Put32(w.timeout) + (Put32(w.searchOrder) + Put32(w.ifIndex))))
  }

  function ResolverBack(w: WireResolver, nAttribute: Word): (r: seq<Byte>)
    ensures |r| == 32
  {
    Put32(w.flags) + (Put32(w.reachFlags) + (Put32(w.serviceIdentifier) + (Zeros(8) + (Zeros(8) + Put32(nAttribute)))))
  }

  /** A resolver that states these counts, be they right or not. */
  function RawResolver(n: Stated, w: WireResolver): (r: seq<Byte>)
    ensures |r| == RESOLVER_SIZE + |EncodeAttrs(w.attrs)|
  {
    var attrs := EncodeAttrs(w.attrs);
    ResolverFront(n, w) + (ResolverMiddle(n, w) + (ResolverBack(w, Low32(|attrs|)) + attrs))
  }

  function CountsOf(attrs: seq<WireAttr>): Stated {
    Stated(Count(attrs, RESOLVER_ADDRESS), Count(attrs, RESOLVER_SEARCH), Count(attrs, RESOLVER_SORTADDR))
  }

  function EncodeResolver(w: WireResolver): seq<Byte> {
    RawResolver(CountsOf(w.attrs), w)
  }

  function TopAttr(t: Top): WireAttr {
    match t
    case Res(kind, w) => WireAttr(kind, EncodeResolver(w))
    case Other(a) => a
  }

  function TopAttrs(top: seq<Top>): seq<WireAttr> {
    seq(|top|, i requires 0 <= i < |top| => TopAttr(top[i]))
  }

  function CountTop(top: seq<Top>, kind: Word): Word {
    Low32(|ResolversMeant(top, kind)|)
  }

  function CountsMeant(top: seq<Top>): Counts {
    Counts(CountTop(top, CONFIG_RESOLVER), CountTop(top, CONFIG_SCOPED_RESOLVER), CountTop(top, CONFIG_SERVICE_SPECIFIC_RESOLVER))
  }

  function ConfigFront(n: Counts, generation: seq<Byte>): (r: seq<Byte>)
    ensures |r| == 24 + |generation|
  {
    Put32(n.resolver) + (Zeros(8) + (Put32(n.scoped) + (Zeros(8) + generation)))
  }

  function ConfigBack(n: Counts, version: seq<Byte>, nAttribute: Word, nPadding: Word): (r: seq<Byte>)
    ensures |r| == 20 + |version|
  {
    Put32(n.serviceSpecific) + (Zeros(8) + (version + (Put32(nAttribute) + Put32(nPadding))))
  }

  /** A configuration that states these counts, be they right or not. */
  function RawConfig(n: Counts, attrs: seq<WireAttr>, generation: seq<Byte>, version: seq<Byte>, nPadding: Word): (r: seq<Byte>)
    ensures |r| == 44 + |generation| + |version| + |EncodeAttrs(attrs)|
  {
    var bytes := EncodeAttrs(attrs);
    ConfigFront(n, generation) + (ConfigBack(n, version, Low32(|bytes|), nPadding) + bytes)
  }

  function EncodeConfig(c: WireConfig): seq<Byte> {
    RawConfig(CountsMeant(c.top), TopAttrs(c.top), c.generation, c.version, c.nPadding)
  }

  /** The buffer made of the encoded configuration. */
  function Wire(c: WireConfig): seq<Byte> {
    EncodeConfig(c) + Zeros(c.nPadding)
  }

  // ----- where the encoded attributes lie

  function Place(attrs: seq<WireAttr>, at: nat): (r: seq<Attr>)
    ensures |r| == |attrs|
  {
    if attrs == [] then []
    else
      var length := Low32(ATTRIBUTE_SIZE + |attrs[0].payload|);
      [Attr(attrs[0].kind, at, length)] + Place(attrs[1..], at + ATTRIBUTE_SIZE + |attrs[0].payload|)
  }

  /** The attributes at these places have these types and payloads. */
  ghost predicate Mirror(s: seq<Byte>, placed: seq<Attr>, attrs: seq<WireAttr>) {
    && |placed| == |attrs|
    && forall i :: 0 <= i < |attrs| ==>
         && placed[i].kind == attrs[i].kind && placed[i].length == ATTRIBUTE_SIZE + |attrs[i].payload|
         && Holds(s, placed[i].Payload(), attrs[i].payload)
  }

  lemma HeadPlaced(s: seq<Byte>, at: nat, a: WireAttr, rest: seq<Byte>)
    requires |s| < 0x1_0000_0000 && Holds(s, at, EncodeAttr(a) + rest)
    ensures var n := ATTRIBUTE_SIZE + |a.payload|;
            && at + n + |rest| <= |s| && Get32(s, at) == a.kind && Get32(s, at + 4) == n == Low32(n)
            && Holds(s, at + ATTRIBUTE_SIZE, a.payload) && Holds(s, at + n, rest)
  {
    HoldsParts(s, at, EncodeAttr(a), rest);
    HoldsParts(s, at, Put32(a.kind), Put32(Low32(ATTRIBUTE_SIZE + |a.payload|)) + a.payload);
    HoldsParts(s, at + 4, Put32(Low32(ATTRIBUTE_SIZE + |a.payload|)), a.payload);
    Holds32(s, at, a.kind);
    Holds32(s, at + 4, Low32(ATTRIBUTE_SIZE + |a.payload|));
  }

  lemma EncodedHead(s: seq<Byte>, at: nat, attrs: seq<WireAttr>)
    requires |s| < 0x1_0000_0000 && Holds(s, at, EncodeAttrs(attrs)) && attrs != []
    ensures var n := ATTRIBUTE_SIZE + |attrs[0].payload|;
            && |EncodeAttrs(attrs)| == n + |EncodeAttrs(attrs[1..])| && at + |EncodeAttrs(attrs)| <= |s|
            && Get32(s, at) == attrs[0].kind && Get32(s, at + 4) == n == Low32(n)
            && Holds(s, at + ATTRIBUTE_SIZE, attrs[0].payload) && Holds(s, at + n, EncodeAttrs(attrs[1..]))
  {
    var a, rest := attrs[0], EncodeAttrs(attrs[1..]);
    assert EncodeAttrs(attrs) == EncodeAttr(a) + rest;
    HeadPlaced(s, at, a, rest);
  }

  /** Attributes with these types and payloads lie one after the other from `at` to `hi`. */
  ghost predicate Chain(s: seq<Byte>, at: nat, hi: nat, attrs: seq<WireAttr>)
    decreases |attrs|
  {
    if attrs == [] then at == hi <= |s|
    else
      var n := ATTRIBUTE_SIZE + |attrs[0].payload|;
      && at + n <= hi <= |s| && Get32(s, at) == attrs[0].kind && Get32(s, at + 4) == n == Low32(n)
      && Holds(s, at + ATTRIBUTE_SIZE, attrs[0].payload) && Chain(s, at + n, hi, attrs[1..])
  }

  lemma {:induction false} EncodedChain(s: seq<Byte>, at: nat, hi: nat, attrs: seq<WireAttr>)
    requires |s| < 0x1_0000_0000 && Holds(s, at, EncodeAttrs(attrs)) && hi == at + |EncodeAttrs(attrs)|
    ensures Chain(s, at, hi, attrs)
    decreases |attrs|
  {
    if attrs != [] {
      EncodedHead(s, at, attrs);
      EncodedChain(s, at + ATTRIBUTE_SIZE + |attrs[0].payload|, hi, attrs[1..]);
    }
  }

  /** Reading encoded attributes finds them one after the other. */
  lemma {:induction false} EncodedAttrs(s: seq<Byte>, at: nat, hi: nat, attrs: seq<WireAttr>)
    requires Chain(s, at, hi, attrs)
    ensures at <= hi <= |s| && WellFormed(s, at, hi) && Attrs(s, at, hi) == Place(attrs, at)
    decreases |attrs|
  {
    if attrs != [] {
      EncodedAttrs(s, at + ATTRIBUTE_SIZE + |attrs[0].payload|, hi, attrs[1..]);
    }
  }

  lemma MirrorCons(s: seq<Byte>, a: Attr, placed: seq<Attr>, attrs: seq<WireAttr>)
    requires attrs != [] && Mirror(s, placed, attrs[1..])
    requires a.kind == attrs[0].kind && a.length == ATTRIBUTE_SIZE + |attrs[0].payload| && Holds(s, a.Payload(), attrs[0].payload)
    ensures Mirror(s, [a] + placed, attrs)
  {
    forall i | 0 < i < |attrs| ensures attrs[i] == attrs[1..][i - 1] && ([a] + placed)[i] == placed[i - 1] {
    }
  }

  lemma {:induction false} EncodedMirror(s: seq<Byte>, at: nat, hi: nat, attrs: seq<WireAttr>)
    requires Chain(s, at, hi, attrs)
    ensures Mirror(s, Place(attrs, at), attrs)
    decreases |attrs|
  {
    if attrs != [] {
      var next := at + ATTRIBUTE_SIZE + |attrs[0].payload|;
      EncodedMirror(s, next, hi, attrs[1..]);
      MirrorCons(s, Place(attrs, at)[0], Place(attrs[1..], next), attrs);
    }
  }

  lemma EncodedPlaced(s: seq<Byte>, at: nat, hi: nat, attrs: seq<WireAttr>)
    requires |s| < 0x1_0000_0000 && Holds(s, at, EncodeAttrs(attrs)) && hi == at + |EncodeAttrs(attrs)|
    ensures at <= hi <= |s| && WellFormed(s, at, hi) && Attrs(s, at, hi) == Place(attrs, at) && Mirror(s, Place(attrs, at), attrs)
  {
    EncodedChain(s, at, hi, attrs);
    EncodedAttrs(s, at, hi, attrs);
    EncodedMirror(s, at, hi, attrs);
  }

  lemma {:induction false} MirrorPtrs(s: seq<Byte>, placed: seq<Attr>, attrs: seq<WireAttr>, kind: Word)
    requires Mirror(s, placed, attrs)
    ensures var ptrs, ps := PtrsOf(placed, kind), Chosen(attrs, kind);
            |ptrs| == |ps| && forall j :: 0 <= j < |ptrs| ==> Holds(s, ptrs[j], ps[j])
  {
    if attrs != [] {
      var n := |attrs| - 1;
      MirrorPtrs(s, placed[..n], attrs[..n], kind);
    }
  }

  lemma {:induction false} ChosenOk(attrs: seq<WireAttr>, kind: Word)
    requires AttrsOk(attrs)
    ensures forall j :: 0 <= j < |Chosen(attrs, kind)| ==> PayloadOk(WireAttr(kind, Chosen(attrs, kind)[j]))
  {
    if attrs != [] {
      ChosenOk(attrs[..|attrs| - 1], kind);
      assert PayloadOk(attrs[|attrs| - 1]);
    }
  }

  lemma {:induction false} LastIsLast(attrs: seq<Attr>, kind: Word)
    ensures var ps := PtrsOf(attrs, kind);
            LastOf(attrs, kind) == if ps == [] then None else Some(ps[|ps| - 1])
  {
    if attrs != [] { LastIsLast(attrs[..|attrs| - 1], kind); }
  }

  // ----- payloads read in place

  lemma {:induction false} CStringHeld(s: seq<Byte>, at: nat, p: seq<Byte>, i: nat, z: nat)
    requires Holds(s, at, p) && i <= z < |p| && p[z] == 0
    ensures CString(s, at + i) == CString(p, i)
    decreases z - i
  {
    if p[i] != 0 { CStringHeld(s, at, p, i + 1, z); }
  }

  lemma StringHeld(s: seq<Byte>, at: nat, p: seq<Byte>)
    requires Holds(s, at, p) && 0 in p
    ensures CString(s, at) == CString(p, 0)
  {
    var z :| 0 <= z < |p| && p[z] == 0;
    CStringHeld(s, at, p, 0, z);
  }

  lemma SockaddrHeld(s: seq<Byte>, at: nat, p: seq<Byte>)
    requires Holds(s, at, p) && p != [] && p[0] <= |p|
    ensures Sockaddr(s, at) == Sockaddr(p, 0)
  {
    HoldsSlice(s, at, p, 0, p[0]);
  }

  lemma SortaddrHeld(s: seq<Byte>, at: nat, p: seq<Byte>)
    requires Holds(s, at, p) && |p| >= 8
    ensures Sortaddr(s, at) == Sortaddr(p, 0)
  {
    HoldsSlice(s, at, p, 0, 8);
  }

  lemma LastStringHeld(s: seq<Byte>, placed: seq<Attr>, attrs: seq<WireAttr>, kind: Word)
    requires Mirror(s, placed, attrs) && AttrsOk(attrs) && IsString(kind)
    ensures OptString(s, LastOf(placed, kind)) == LastString(attrs, kind)
  {
    MirrorPtrs(s, placed, attrs, kind);
    ChosenOk(attrs, kind);
    LastIsLast(placed, kind);
    var ptrs, ps := PtrsOf(placed, kind), Chosen(attrs, kind);
    if ps != [] {
      assert PayloadOk(WireAttr(kind, ps[|ps| - 1]));
      StringHeld(s, ptrs[|ps| - 1], ps[|ps| - 1]);
    }
  }

  lemma SearchesHeld(s: seq<Byte>, placed: seq<Attr>, attrs: seq<WireAttr>)
    requires Mirror(s, placed, attrs) && AttrsOk(attrs)
    ensures Strings(s, PtrsOf(placed, RESOLVER_SEARCH)) == EachString(Chosen(attrs, RESOLVER_SEARCH))
  {
    MirrorPtrs(s, placed, attrs, RESOLVER_SEARCH);
    ChosenOk(attrs, RESOLVER_SEARCH);
    var ptrs, ps := PtrsOf(placed, RESOLVER_SEARCH), Chosen(attrs, RESOLVER_SEARCH);
    forall j | 0 <= j < |ps| ensures CString(s, ptrs[j]) == CString(ps[j], 0) {
      assert PayloadOk(WireAttr(RESOLVER_SEARCH, ps[j]));
      StringHeld(s, ptrs[j], ps[j]);
    }
  }

  lemma NameserversHeld(s: seq<Byte>, placed: seq<Attr>, attrs: seq<WireAttr>)
    requires Mirror(s, placed, attrs) && AttrsOk(attrs)
    ensures Sockaddrs(s, PtrsOf(placed, RESOLVER_ADDRESS)) == EachSockaddr(Chosen(attrs, RESOLVER_ADDRESS))
  {
    MirrorPtrs(s, placed, attrs, RESOLVER_ADDRESS);
    ChosenOk(attrs, RESOLVER_ADDRESS);
    var ptrs, ps := PtrsOf(placed, RESOLVER_ADDRESS), Chosen(attrs, RESOLVER_ADDRESS);
    forall j | 0 <= j < |ps| ensures Sockaddr(s, ptrs[j]) == Sockaddr(ps[j], 0) {
      assert PayloadOk(WireAttr(RESOLVER_ADDRESS, ps[j]));
      SockaddrHeld(s, ptrs[j], ps[j]);
    }
  }

  lemma SortaddrsHeld(s: seq<Byte>, placed: seq<Attr>, attrs: seq<WireAttr>)
    requires Mirror(s, placed, attrs) && AttrsOk(attrs)
    ensures Sortaddrs(s, PtrsOf(placed, RESOLVER_SORTADDR)) == EachSortaddr(Chosen(attrs, RESOLVER_SORTADDR))
  {
    MirrorPtrs(s, placed, attrs, RESOLVER_SORTADDR);
    ChosenOk(attrs, RESOLVER_SORTADDR);
    var ptrs, ps := PtrsOf(placed, RESOLVER_SORTADDR), Chosen(attrs, RESOLVER_SORTADDR);
    forall j | 0 <= j < |ps| ensures Sortaddr(s, ptrs[j]) == Sortaddr(ps[j], 0) {
      assert PayloadOk(WireAttr(RESOLVER_SORTADDR, ps[j]));
      SortaddrHeld(s, ptrs[j], ps[j]);
    }
  }

  // ----- an encoded resolver

  lemma FrontRead(s: seq<Byte>, at: nat, n: Stated, w: WireResolver)
    requires Holds(s, at, ResolverFront(n, w)) && 0 <= w.port < 0x1_0000
    ensures at + 36 <= |s| && Get32(s, at + N_NAMESERVER) == n.nNameserver
    ensures Get16(s, at + PORT) == w.port && Get32(s, at + N_SEARCH) == n.nSearch
  {
    var r6 := Put32(n.nSearch) + Zeros(8);
    var r5 := Zeros(2) + r6;
    var r4 := Put16(Low16(w.port)) + r5;
    var r3 := Zeros(8) + r4;
    var r2 := Put32(n.nNameserver) + r3;
    HoldsParts(s, at, Zeros(8), r2);
    HoldsParts(s, at + 8, Put32(n.nNameserver), r3);
    HoldsParts(s, at + 12, Zeros(8), r4);
    HoldsParts(s, at + 20, Put16(Low16(w.port)), r5);
    HoldsParts(s, at + 22, Zeros(2), r6);
    HoldsParts(s, at + 24, Put32(n.nSearch), Zeros(8));
    Holds32(s, at + 8, n.nNameserver);
    Holds16(s, at + 20, Low16(w.port));
    Holds32(s, at + 24, n.nSearch);
  }

  lemma MiddleRead(s: seq<Byte>, at: nat, n: Stated, w: WireResolver)
    requires Holds(s, at, ResolverMiddle(n, w))
    ensures at + 32 <= |s| && Get32(s, at) == n.nSortaddr
    ensures Get32(s, at + 20) == w.timeout && Get32(s, at + 24) == w.searchOrder && Get32(s, at + 28) == w.ifIndex
  {
    var r4 := Put32(w.searchOrder) + Put32(w.ifIndex);
    var r3 := Put32(w.timeout) + r4;
    HoldsParts(s, at, Put32(n.nSortaddr), Zeros(16) + r3);
    HoldsParts(s, at + 4, Zeros(16), r3);
    HoldsParts(s, at + 20, Put32(w.timeout), r4);
    HoldsParts(s, at + 24, Put32(w.searchOrder), Put32(w.ifIndex));
    Holds32(s, at, n.nSortaddr);
    Holds32(s, at + 20, w.timeout);
    Holds32(s, at + 24, w.searchOrder);
    Holds32(s, at + 28, w.ifIndex);
  }

  lemma BackRead(s: seq<Byte>, at: nat, w: WireResolver, nAttribute: Word)
    requires Holds(s, at, ResolverBack(w, nAttribute))
    ensures at + 32 <= |s| && Get32(s, at) == w.flags && Get32(s, at + 4) == w.reachFlags
    ensures Get32(s, at + 8) == w.serviceIdentifier && Get32(s, at + 28) == nAttribute
    ensures NullField(s, at + 12) && NullField(s, at + 20)
  {
    var r5 := Zeros(8) + Put32(nAttribute);
    var r4 := Zeros(8) + r5;
    var r3 := Put32(w.serviceIdentifier) + r4;
    var r2 := Put32(w.reachFlags) + r3;
    HoldsParts(s, at, Put32(w.flags), r2);
    HoldsParts(s, at + 4, Put32(w.reachFlags), r3);
    HoldsParts(s, at + 8, Put32(w.serviceIdentifier), r4);
    HoldsParts(s, at + 12, Zeros(8), r5);
    HoldsParts(s, at + 20, Zeros(8), Put32(nAttribute));
    Holds32(s, at, w.flags);
    Holds32(s, at + 4, w.reachFlags);
    Holds32(s, at + 8, w.serviceIdentifier);
    Holds32(s, at + 28, nAttribute);
  }

  function NumbersMeant(n: Stated, w: WireResolver): Numbers {
    Numbers(n.nNameserver, n.nSearch, n.nSortaddr,
            w.port, w.timeout, w.searchOrder, w.ifIndex, w.serviceIdentifier, w.flags, w.reachFlags)
  }

  lemma ResolverParts(s: seq<Byte>, at: nat, n: Stated, w: WireResolver, nAttribute: Word, attrs: seq<Byte>)
    requires Holds(s, at, ResolverFront(n, w) + (ResolverMiddle(n, w) + (ResolverBack(w, nAttribute) + attrs)))
    ensures Holds(s, at, ResolverFront(n, w)) && Holds(s, at + 36, ResolverMiddle(n, w))
    ensures Holds(s, at + 68, ResolverBack(w, nAttribute)) && Holds(s, at + RESOLVER_SIZE, attrs)
  {
    var back := ResolverBack(w, nAttribute);
    HoldsParts(s, at, ResolverFront(n, w), ResolverMiddle(n, w) + (back + attrs));
    HoldsParts(s, at + 36, ResolverMiddle(n, w), back + attrs);
    HoldsParts(s, at + 68, back, attrs);
  }

  lemma FieldsRead(s: seq<Byte>, at: nat, n: Stated, w: WireResolver, nAttribute: Word)
    requires Holds(s, at, ResolverFront(n, w)) && Holds(s, at + 36, ResolverMiddle(n, w)) && Holds(s, at + 68, ResolverBack(w, nAttribute))
    requires 0 <= w.port < 0x1_0000
    ensures at + RESOLVER_SIZE <= |s| && NumbersAt(s, at) == NumbersMeant(n, w) && Get32(s, at + RESOLVER_N_ATTRIBUTE) == nAttribute
    ensures NullField(s, at + CID) && NullField(s, at + IF_NAME)
  {
    FrontRead(s, at, n, w);
    MiddleRead(s, at + 36, n, w);
    BackRead(s, at + 68, w, nAttribute);
  }

  /** A resolver of `size` bytes with these counts, fields and attributes lies at `at`. */
  ghost predicate ResolverLies(s: seq<Byte>, at: nat, size: nat, n: Stated, w: WireResolver) {
    && at + size <= |s| < 0x1_0000_0000 && |w.attrs| < 0x1_0000_0000
    && size == RESOLVER_SIZE + |EncodeAttrs(w.attrs)| && Holds(s, at + RESOLVER_SIZE, EncodeAttrs(w.attrs))
    && NumbersAt(s, at) == NumbersMeant(n, w) && Get32(s, at + RESOLVER_N_ATTRIBUTE) == size - RESOLVER_SIZE
    && NullField(s, at + CID) && NullField(s, at + IF_NAME)
  }

  lemma RawResolverLies(s: seq<Byte>, at: nat, size: nat, n: Stated, w: WireResolver)
    requires |s| < 0x1_0000_0000 && Holds(s, at, RawResolver(n, w)) && size == |RawResolver(n, w)| && 0 <= w.port < 0x1_0000
    ensures ResolverLies(s, at, size, n, w)
  {
    var attrs := EncodeAttrs(w.attrs);
    var nAttribute := Low32(|attrs|);
    assert at + RESOLVER_SIZE + |attrs| <= |s| && nAttribute == |attrs|;
    ResolverParts(s, at, n, w, nAttribute, attrs);
    FieldsRead(s, at, n, w, nAttribute);
    EncodedLength(w.attrs);
  }

  lemma {:induction false} ChosenFew(attrs: seq<WireAttr>, kind: Word)
    ensures |Chosen(attrs, kind)| <= |attrs|
  {
    if attrs != [] { ChosenFew(attrs[..|attrs| - 1], kind); }
  }

  lemma {:induction false} EncodedLength(attrs: seq<WireAttr>)
    ensures ATTRIBUTE_SIZE * |attrs| <= |EncodeAttrs(attrs)|
  {
    if attrs != [] { EncodedLength(attrs[1..]); }
  }

  lemma CountIs(attrs: seq<WireAttr>, kind: Word)
    requires |attrs| < 0x1_0000_0000
    ensures Count(attrs, kind) == |Chosen(attrs, kind)|
  {
    ChosenFew(attrs, kind);
  }

  lemma BodyMeans(s: seq<Byte>, placed: seq<Attr>, n: Stated, w: WireResolver)
    requires Mirror(s, placed, w.attrs) && AttrsOk(w.attrs)
    ensures ResolverOf(s, Body(NumbersMeant(n, w), placed)) == ResolverMeaning(w)
  {
    NameserversHeld(s, placed, w.attrs);
    SearchesHeld(s, placed, w.attrs);
    SortaddrsHeld(s, placed, w.attrs);
    LastStringHeld(s, placed, w.attrs, RESOLVER_DOMAIN);
    LastStringHeld(s, placed, w.attrs, RESOLVER_OPTIONS);
    LastStringHeld(s, placed, w.attrs, RESOLVER_CONFIGURATION_ID);
    LastStringHeld(s, placed, w.attrs, RESOLVER_INTERFACE_NAME);
  }

  function BodyMeant(n: Stated, w: WireResolver, at: nat): Body {
    Body(NumbersMeant(n, w), Place(w.attrs, at + RESOLVER_SIZE))
  }

  lemma CountsRight(s: seq<Byte>, placed: seq<Attr>, w: WireResolver)
    requires Mirror(s, placed, w.attrs) && |w.attrs| < 0x1_0000_0000
    ensures CountsMatch(NumbersMeant(CountsOf(w.attrs), w), placed)
    ensures Need(NumbersMeant(CountsOf(w.attrs), w)) == PTR_SIZE * ListEntries(w)
  {
    MirrorPtrs(s, placed, w.attrs, RESOLVER_ADDRESS);
    MirrorPtrs(s, placed, w.attrs, RESOLVER_SEARCH);
    MirrorPtrs(s, placed, w.attrs, RESOLVER_SORTADDR);
    CountIs(w.attrs, RESOLVER_ADDRESS);
    CountIs(w.attrs, RESOLVER_SEARCH);
    CountIs(w.attrs, RESOLVER_SORTADDR);
  }

  lemma LyingBody(s: seq<Byte>, at: nat, size: nat, n: Stated, w: WireResolver)
    requires ResolverLies(s, at, size, n, w)
    ensures at + size <= |s| && Readable(s, at, size) && Checked(s, at, size) && BodyAt(s, at, size) == BodyMeant(n, w, at)
    ensures Mirror(s, Place(w.attrs, at + RESOLVER_SIZE), w.attrs)
  {
    EncodedPlaced(s, at + RESOLVER_SIZE, at + size, w.attrs);
  }

  lemma EntryIs(s: seq<Byte>, a: Attr, b: Body)
    requires IsResolver(a.kind) && a.length >= ATTRIBUTE_SIZE && AttrReadable(s, a)
    requires Checked(s, a.Payload(), a.length - ATTRIBUTE_SIZE) && BodyAt(s, a.Payload(), a.length - ATTRIBUTE_SIZE) == b
    requires CountsMatch(b.numbers, b.attrs)
    ensures EntryOf(s, a) == Entry(a.kind, a.Payload(), b)
  {
  }

  /** A resolver that lies in the buffer with right counts is consistent, and says what it was made of. */
  lemma LyingResolver(s: seq<Byte>, a: Attr, w: WireResolver)
    requires a.length >= ATTRIBUTE_SIZE && ResolverLies(s, a.Payload(), a.length - ATTRIBUTE_SIZE, CountsOf(w.attrs), w)
    requires IsResolver(a.kind) && AttrsOk(w.attrs)
    ensures AttrReadable(s, a) && EntryOf(s, a) == Entry(a.kind, a.Payload(), BodyMeant(CountsOf(w.attrs), w, a.Payload()))
    ensures ResolverOf(s, EntryOf(s, a).body) == ResolverMeaning(w) && EntryNeed(EntryOf(s, a)) == PTR_SIZE * ListEntries(w)
  {
    var at, n := a.Payload(), CountsOf(w.attrs);
    var placed := Place(w.attrs, at + RESOLVER_SIZE);
    LyingBody(s, at, a.length - ATTRIBUTE_SIZE, n, w);
    CountsRight(s, placed, w);
    EntryIs(s, a, BodyMeant(n, w, at));
    BodyMeans(s, placed, n, w);
  }

  // ----- an encoded configuration

  /** The entries say what the attributes were made of. */
  ghost predicate Reflects(s: seq<Byte>, es: seq<Entry>, top: seq<Top>) {
    && |es| == |top|
    && forall i :: 0 <= i < |top| ==>
         match top[i]
         case Res(kind, w) => && es[i].Entry? && es[i].kind == kind && ResolverOf(s, es[i].body) == ResolverMeaning(w)
                              && EntryNeed(es[i]) == PTR_SIZE * ListEntries(w)
         case Other(_) => es[i] == Unknown
  }

  lemma {:induction false} ReflectedResolvers(s: seq<Byte>, es: seq<Entry>, top: seq<Top>, kind: Word)
    requires Reflects(s, es, top)
    ensures ResolversOf(s, es, kind) == ResolversMeant(top, kind) && |EntryPtrs(es, kind)| == |ResolversMeant(top, kind)|
  {
    if top != [] {
      var n := |top| - 1;
      ReflectedResolvers(s, es[..n], top[..n], kind);
      assert top[n].Res? ==> es[n].Entry? && es[n].kind == top[n].kind;
    }
  }

  lemma {:induction false} ReflectedNeed(s: seq<Byte>, es: seq<Entry>, top: seq<Top>)
    requires Reflects(s, es, top) && forall i :: 0 <= i < |top| ==> TopOk(top[i])
    ensures PTR_SIZE * (|ResolversMeant(top, CONFIG_RESOLVER)| + |ResolversMeant(top, CONFIG_SCOPED_RESOLVER)|
                        + |ResolversMeant(top, CONFIG_SERVICE_SPECIFIC_RESOLVER)|) + TotalNeed(es)
            == PTR_SIZE * EntriesMeant(top)
  {
    if top != [] {
      var n := |top| - 1;
      ReflectedNeed(s, es[..n], top[..n]);
      assert TopOk(top[n]);
      assert top[n].Res? ==> EntryNeed(es[n]) == PTR_SIZE * ListEntries(top[n].resolver);
    }
  }

  lemma EncodedEntries(s: seq<Byte>, placed: seq<Attr>, top: seq<Top>)
    requires |s| < 0x1_0000_0000 && Mirror(s, placed, TopAttrs(top)) && forall i :: 0 <= i < |top| ==> TopOk(top[i])
    ensures AllReadable(s, placed) && Reflects(s, Entries(s, placed), top)
  {
    forall i | 0 <= i < |top|
      ensures AttrReadable(s, placed[i])
      ensures match top[i]
              case Res(kind, w) =>
                && EntryOf(s, placed[i]).Entry? && EntryOf(s, placed[i]).kind == kind
                && ResolverOf(s, EntryOf(s, placed[i]).body) == ResolverMeaning(w)
                && EntryNeed(EntryOf(s, placed[i])) == PTR_SIZE * ListEntries(w)
              case Other(_) => EntryOf(s, placed[i]) == Unknown
    {
      assert TopOk(top[i]) && TopAttrs(top)[i] == TopAttr(top[i]);
      if top[i].Res? {
        var w := top[i].resolver;
        RawResolverLies(s, placed[i].Payload(), placed[i].length - ATTRIBUTE_SIZE, CountsOf(w.attrs), w);
        LyingResolver(s, placed[i], top[i].resolver);
      }
    }
  }

  lemma ConfigFrontRead(s: seq<Byte>, n: Counts, generation: seq<Byte>)
    requires Holds(s, 0, ConfigFront(n, generation)) && |generation| == 8
    ensures |s| >= 32 && Get32(s, N_RESOLVER) == n.resolver && Get32(s, N_SCOPED_RESOLVER) == n.scoped
    ensures s[GENERATION..GENERATION + 8] == generation
  {
    var r3 := Zeros(8) + generation;
    var r2 := Put32(n.scoped) + r3;
    HoldsParts(s, 0, Put32(n.resolver), Zeros(8) + r2);
    HoldsParts(s, 4, Zeros(8), r2);
    HoldsParts(s, 12, Put32(n.scoped), r3);
    HoldsParts(s, 16, Zeros(8), generation);
    Holds32(s, 0, n.resolver);
    Holds32(s, 12, n.scoped);
  }

  lemma ConfigBackRead(s: seq<Byte>, n: Counts, version: seq<Byte>, nAttribute: Word, nPadding: Word)
    requires Holds(s, 32, ConfigBack(n, version, nAttribute, nPadding)) && |version| == 4
    ensures |s| >= CONFIG_SIZE && Get32(s, N_SERVICE_SPECIFIC_RESOLVER) == n.serviceSpecific
    ensures s[VERSION..VERSION + 4] == version && NAttribute(s) == nAttribute && DnsDecode.NPadding(s) == nPadding
  {
    var r4 := Put32(nAttribute) + Put32(nPadding);
    var r3 := version + r4;
    HoldsParts(s, 32, Put32(n.serviceSpecific), Zeros(8) + r3);
    HoldsParts(s, 36, Zeros(8), r3);
    HoldsParts(s, 44, version, r4);
    HoldsParts(s, 48, Put32(nAttribute), Put32(nPadding));
    Holds32(s, 32, n.serviceSpecific);
    Holds32(s, 48, nAttribute);
    Holds32(s, 52, nPadding);
  }

  lemma ConfigParts(s: seq<Byte>, n: Counts, generation: seq<Byte>, version: seq<Byte>, nAttribute: Word, nPadding: Word, attrs: seq<Byte>)
    requires Holds(s, 0, ConfigFront(n, generation) + (ConfigBack(n, version, nAttribute, nPadding) + attrs))
    requires |generation| == 8 && |version| == 4
    ensures Holds(s, 0, ConfigFront(n, generation)) && Holds(s, 32, ConfigBack(n, version, nAttribute, nPadding))
    ensures Holds(s, CONFIG_SIZE, attrs)
  {
    var back := ConfigBack(n, version, nAttribute, nPadding);
    HoldsParts(s, 0, ConfigFront(n, generation), back + attrs);
    HoldsParts(s, 32, back, attrs);
  }

  /** A buffer with these counts, fields and attributes. */
  ghost predicate ConfigLies(s: seq<Byte>, n: Counts, attrs: seq<WireAttr>, generation: seq<Byte>, version: seq<Byte>, nPadding: Word) {
    && Sized(s) && NPadding(s) == nPadding && |attrs| < 0x1_0000_0000 && CountsAt(s) == n
    && s[GENERATION..GENERATION + 8] == generation && s[VERSION..VERSION + 4] == version
    && NAttribute(s) == |EncodeAttrs(attrs)| && Holds(s, CONFIG_SIZE, EncodeAttrs(attrs))
  }

  lemma RawConfigLies(s: seq<Byte>, n: Counts, attrs: seq<WireAttr>, generation: seq<Byte>, version: seq<Byte>, nPadding: Word)
    requires Holds(s, 0, RawConfig(n, attrs, generation, version, nPadding)) && |generation| == 8 && |version| == 4
    requires |s| == |RawConfig(n, attrs, generation, version, nPadding)| + nPadding <= BUF_MAX
    ensures ConfigLies(s, n, attrs, generation, version, nPadding)
  {
    var bytes := EncodeAttrs(attrs);
    var nAttribute := Low32(|bytes|);
    assert CONFIG_SIZE + |bytes| + nPadding == |s| && nAttribute == |bytes|;
    ConfigParts(s, n, generation, version, nAttribute, nPadding, bytes);
    ConfigFrontRead(s, n, generation);
    ConfigBackRead(s, n, version, nAttribute, nPadding);
    EncodedLength(attrs);
  }

  lemma RawBufferLies(n: Counts, attrs: seq<WireAttr>, generation: seq<Byte>, version: seq<Byte>, nPadding: Word)
    requires |generation| == 8 && |version| == 4 && |RawConfig(n, attrs, generation, version, nPadding)| + nPadding <= BUF_MAX
    ensures ConfigLies(RawConfig(n, attrs, generation, version, nPadding) + Zeros(nPadding), n, attrs, generation, version, nPadding)
  {
    var raw := RawConfig(n, attrs, generation, version, nPadding);
    var s := raw + Zeros(nPadding);
    assert s[0..|raw|] == raw;
    RawConfigLies(s, n, attrs, generation, version, nPadding);
  }

  lemma {:induction false} MeantFew(top: seq<Top>, kind: Word)
    ensures |ResolversMeant(top, kind)| <= |top|
  {
    if top != [] { MeantFew(top[..|top| - 1], kind); }
  }

  lemma CountTopIs(top: seq<Top>, kind: Word)
    requires |top| < 0x1_0000_0000
    ensures CountTop(top, kind) == |ResolversMeant(top, kind)|
  {
    MeantFew(top, kind);
  }

  lemma NoneBroken(s: seq<Byte>, es: seq<Entry>, top: seq<Top>)
    requires Reflects(s, es, top)
    ensures Broken !in es
  {
    forall i | 0 <= i < |es| ensures es[i] != Broken {
      assert top[i].Res? || top[i].Other?;
    }
  }

  lemma LyingConfig(s: seq<Byte>, c: WireConfig)
    requires ConfigLies(s, CountsMeant(c.top), TopAttrs(c.top), c.generation, c.version, c.nPadding)
    requires forall i :: 0 <= i < |c.top| ==> TopOk(c.top[i])
    ensures WellFormedBuffer(s) && Reflects(s, ConfigEntries(s), c.top)
  {
    var attrs, hi := TopAttrs(c.top), CONFIG_SIZE + NAttribute(s);
    EncodedPlaced(s, CONFIG_SIZE, hi, attrs);
    EncodedEntries(s, Place(attrs, CONFIG_SIZE), c.top);
  }

  lemma ReflectedFit(s: seq<Byte>, es: seq<Entry>, top: seq<Top>, c: Counts, nPadding: nat)
    requires Reflects(s, es, top) && |top| < 0x1_0000_0000 && forall i :: 0 <= i < |top| ==> TopOk(top[i])
    requires c == CountsMeant(top)
    ensures Fits(c, es, nPadding) <==> PTR_SIZE * EntriesMeant(top) <= nPadding
  {
    ReflectedResolvers(s, es, top, CONFIG_RESOLVER);
    ReflectedResolvers(s, es, top, CONFIG_SCOPED_RESOLVER);
    ReflectedResolvers(s, es, top, CONFIG_SERVICE_SPECIFIC_RESOLVER);
    ReflectedNeed(s, es, top);
    CountTopIs(top, CONFIG_RESOLVER);
    CountTopIs(top, CONFIG_SCOPED_RESOLVER);
    CountTopIs(top, CONFIG_SERVICE_SPECIFIC_RESOLVER);
    NoneBroken(s, es, top);
  }

  /**
   Decoding undoes encoding: it gives back what was encoded, exactly when the padding asked for has
   room for all the lists.
   */
  lemma DecodeUndoesEncode(c: WireConfig)
    requires Valid(c)
    ensures WellFormedBuffer(Wire(c))
    ensures Decode(Wire(c)) == if PTR_SIZE * EntriesMeant(c.top) <= c.nPadding then Some(Meaning(c)) else None
  {
    var s, top := Wire(c), c.top;
    RawBufferLies(CountsMeant(top), TopAttrs(top), c.generation, c.version, c.nPadding);
    LyingConfig(s, c);
    var es := ConfigEntries(s);
    ReflectedFit(s, es, top, CountsAt(s), c.nPadding);
    ReflectedResolvers(s, es, top, CONFIG_RESOLVER);
    ReflectedResolvers(s, es, top, CONFIG_SCOPED_RESOLVER);
    ReflectedResolvers(s, es, top, CONFIG_SERVICE_SPECIFIC_RESOLVER);
  }
}
