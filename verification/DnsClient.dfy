/**
 A client of an expanded buffer: it reads counts, pointers, strings and addresses from the bytes of the
 buffer, which begins at address `base`, and from whatever lies beyond its end.
 */
module DnsClient {
  import opened Options
  import opened DnsLayout
  import opened DnsDecode
  import opened DnsSlots
  import opened DnsResolver
  import opened DnsLists
  import opened DnsMemory
  import opened DnsFields
  import opened DnsRegions

  // ----- what a client does

  function HostAt(u: seq<Byte>, p: nat, n: nat): nat {
    if p + n <= |u| then Little(u[p..p + n]) else 0
  }

  function Word32(u: seq<Byte>, p: nat): Word {
    if p + 4 <= |u| then LittleBound(u[p..p + 4]); Ranges(); Little(u[p..p + 4]) else 0
  }

  function Offset(u: seq<Byte>, base: nat, address: nat): nat {
    if base <= address then address - base else |u|
  }

  function Text(u: seq<Byte>, base: nat, address: nat): Option<seq<Byte>> {
    if address == 0 then None else Some(CString(u, Offset(u, base, address)))
  }

  /** The pointers of a list of `count` entries, as offsets. */
  function PtrList(u: seq<Byte>, base: nat, list: nat, count: nat): seq<nat> {
    if list == 0 then []
    else seq(count, i requires 0 <= i < count => Offset(u, base, HostAt(u, Offset(u, base, list) + PTR_SIZE * i, PTR_SIZE)))
  }

  function ClientResolver(u: seq<Byte>, base: nat, p: nat): Resolver {
    Resolver(
      Text(u, base, HostAt(u, p + DOMAIN, PTR_SIZE)),
      Sockaddrs(u, PtrList(u, base, HostAt(u, p + NAMESERVER, PTR_SIZE), Word32(u, p + N_NAMESERVER))),
      HostAt(u, p + PORT, 2),
      Strings(u, PtrList(u, base, HostAt(u, p + SEARCH, PTR_SIZE), Word32(u, p + N_SEARCH))),
      Sortaddrs(u, PtrList(u, base, HostAt(u, p + SORTADDR, PTR_SIZE), Word32(u, p + N_SORTADDR))),
      Text(u, base, HostAt(u, p + OPTIONS, PTR_SIZE)),
      Word32(u, p + TIMEOUT), Word32(u, p + SEARCH_ORDER), Word32(u, p + IF_INDEX), Word32(u, p + SERVICE_IDENTIFIER),
      Word32(u, p + FLAGS), Word32(u, p + REACH_FLAGS),
      Text(u, base, HostAt(u, p + CID, PTR_SIZE)),
      Text(u, base, HostAt(u, p + IF_NAME, PTR_SIZE)))
  }

  function ClientResolvers(u: seq<Byte>, base: nat, ps: seq<nat>): seq<Resolver> {
    seq(|ps|, i requires 0 <= i < |ps| => ClientResolver(u, base, ps[i]))
  }

  function ClientConfig(u: seq<Byte>, base: nat): Config
    requires CONFIG_SIZE <= |u|
  {
    Config(ClientResolvers(u, base, PtrList(u, base, HostAt(u, RESOLVER, PTR_SIZE), Word32(u, N_RESOLVER))),
           ClientResolvers(u, base, PtrList(u, base, HostAt(u, SCOPED_RESOLVER, PTR_SIZE), Word32(u, N_SCOPED_RESOLVER))),
           ClientResolvers(u, base, PtrList(u, base, HostAt(u, SERVICE_SPECIFIC_RESOLVER, PTR_SIZE), Word32(u, N_SERVICE_SPECIFIC_RESOLVER))),
           u[GENERATION..GENERATION + 8],
           u[VERSION..VERSION + 4])
  }

  // ----- fields

  lemma NumberSeen(mem: seq<Byte>, beyond: seq<Byte>, s: seq<Byte>, base: nat, at: nat, v: nat, n: nat)
    requires Written(mem, s, base, at, NumberCells(v, n)) && v < Range(n)
    ensures HostAt(mem + beyond, at, n) == v
  {
    NumberRead(mem, s, base, at, v, n);
    assert (mem + beyond)[at..at + n] == mem[at..at + n];
  }

  lemma WordSeen(mem: seq<Byte>, beyond: seq<Byte>, s: seq<Byte>, base: nat, at: nat, v: Word)
    requires Written(mem, s, base, at, NumberCells(v, 4))
    ensures Word32(mem + beyond, at) == v
  {
    Ranges();
    NumberSeen(mem, beyond, s, base, at, v, 4);
  }

  lemma PointerSeen(mem: seq<Byte>, beyond: seq<Byte>, s: seq<Byte>, base: nat, at: nat, p: Option<nat>)
    requires Written(mem, s, base, at, PtrCells(p)) && Addr(base, p) < ADDRESSES
    ensures HostAt(mem + beyond, at, PTR_SIZE) == Addr(base, p)
  {
    PointerRead(mem, s, base, at, p);
    assert (mem + beyond)[at..at + PTR_SIZE] == mem[at..at + PTR_SIZE];
  }

  lemma {:induction false} LittleIsZero(b: seq<Byte>)
    ensures Little(b) == 0 <==> b == seq(|b|, _ => 0)
  {
    if b != [] {
      LittleIsZero(b[1..]);
      assert b == [b[0]] + b[1..];
    }
  }

  /** The pointer field at `at` is set, or came as NULL. */
  predicate Known(s: seq<Byte>, at: nat, p: Option<nat>) {
    p.Some? || NullField(s, at)
  }

  lemma SetPointerSeen(mem: seq<Byte>, beyond: seq<Byte>, s: seq<Byte>, base: nat, at: nat, p: Option<nat>)
    requires Written(mem, s, base, at, SetCells(p)) && Addr(base, p) < ADDRESSES
    ensures if Known(s, at, p) then HostAt(mem + beyond, at, PTR_SIZE) == Addr(base, p) else HostAt(mem + beyond, at, PTR_SIZE) != 0
  {
    if p.Some? {
      PointerSeen(mem, beyond, s, base, at, p);
    } else {
      assert (mem + beyond)[at..at + PTR_SIZE] == s[at..at + PTR_SIZE];
      LittleIsZero(s[at..at + PTR_SIZE]);
    }
  }

  // ----- a buffer in memory

  /** The bytes are those of a partly or fully expanded buffer at address `base`. */
  ghost predicate Stored(mem: seq<Byte>, s: seq<Byte>, base: nat, p: nat, h: ConfigHeader, resolvers: Resolvers, slots: Slots) {
    && CONFIG_SIZE <= p <= |s| && 0 < base && base + |s| < ADDRESSES
    && ResolversBefore(resolvers, p) && SlotsOn(slots, p) && ConfigIn(h, p, |s|)
    && mem == Image(s, base, p, Lay(h, resolvers, slots))
  }

  lemma StoredFields(mem: seq<Byte>, s: seq<Byte>, base: nat, p: nat, h: ConfigHeader, resolvers: Resolvers, slots: Slots, at: nat)
    requires Stored(mem, s, base, p, h, resolvers, slots) && at in resolvers
    ensures Written(mem, s, base, at, HeaderFields(resolvers[at]))
  {
    var o := Lay(h, resolvers, slots);
    LayApart(h, resolvers, slots, p, p);
    ResolverIsWritten(s, base, p, o, at);
  }

  lemma StoredSlot(mem: seq<Byte>, s: seq<Byte>, base: nat, p: nat, h: ConfigHeader, resolvers: Resolvers, slots: Slots, q: nat)
    requires Stored(mem, s, base, p, h, resolvers, slots) && q in slots && q + PTR_SIZE <= |s|
    ensures Written(mem, s, base, q, PtrCells(Some(slots[q])))
  {
    SlotIsWritten(s, base, p, Lay(h, resolvers, slots), q);
  }

  // ----- lists

  ghost predicate Below(ptrs: seq<nat>, hi: nat) {
    forall i :: 0 <= i < |ptrs| ==> ptrs[i] <= hi
  }

  lemma SlotSeen(mem: seq<Byte>, beyond: seq<Byte>, s: seq<Byte>, base: nat, p: nat, h: ConfigHeader, resolvers: Resolvers, slots: Slots, q: nat)
    requires Stored(mem, s, base, p, h, resolvers, slots) && q in slots && q + PTR_SIZE <= |s| && slots[q] <= |s|
    ensures Offset(mem + beyond, base, HostAt(mem + beyond, q, PTR_SIZE)) == slots[q]
  {
    StoredSlot(mem, s, base, p, h, resolvers, slots, q);
    PointerSeen(mem, beyond, s, base, q, Some(slots[q]));
  }

  /** Slot i of the list at q, as a client reads it. */
  function EntrySeen(u: seq<Byte>, base: nat, q: nat, i: nat): nat {
    Offset(u, base, HostAt(u, q + PTR_SIZE * i, PTR_SIZE))
  }

  lemma EntriesSeen(u: seq<Byte>, base: nat, q: nat, ptrs: seq<nat>)
    requires 0 < base && forall i :: 0 <= i < |ptrs| ==> EntrySeen(u, base, q, i) == ptrs[i]
    ensures PtrList(u, base, Addr(base, ListAt(q, |ptrs|)), |ptrs|) == ptrs
  {
    if ptrs != [] {
      var seen := PtrList(u, base, base + q, |ptrs|);
      forall i | 0 <= i < |ptrs| ensures seen[i] == ptrs[i] { assert EntrySeen(u, base, q, i) == ptrs[i]; }
    }
  }

  lemma ListSeen(mem: seq<Byte>, beyond: seq<Byte>, s: seq<Byte>, base: nat, p: nat, h: ConfigHeader, resolvers: Resolvers, slots: Slots,
                 q: nat, ptrs: seq<nat>)
    requires Stored(mem, s, base, p, h, resolvers, slots) && Filled(slots, q, ptrs) && q + PTR_SIZE * |ptrs| <= |s| && Below(ptrs, |s|)
    ensures PtrList(mem + beyond, base, Addr(base, ListAt(q, |ptrs|)), |ptrs|) == ptrs
  {
    var u := mem + beyond;
    forall i | 0 <= i < |ptrs| ensures EntrySeen(u, base, q, i) == ptrs[i] {
      SlotSeen(mem, beyond, s, base, p, h, resolvers, slots, q + PTR_SIZE * i);
    }
    EntriesSeen(u, base, q, ptrs);
  }

  /** A list as the header has it, read through its pointer field and its count. */
  lemma ListFieldSeen(mem: seq<Byte>, beyond: seq<Byte>, s: seq<Byte>, base: nat, p: nat, h: ConfigHeader, resolvers: Resolvers, slots: Slots,
                      number: nat, field: nat, q: nat, count: Word, ptrs: seq<nat>)
    requires Stored(mem, s, base, p, h, resolvers, slots) && Filled(slots, q, ptrs) && q + PTR_SIZE * |ptrs| <= |s| && Below(ptrs, |s|)
    requires count == |ptrs| && Written(mem, s, base, number, NumberCells(count, 4))
    requires Written(mem, s, base, field, PtrCells(ListAt(q, count)))
    ensures var u := mem + beyond; PtrList(u, base, HostAt(u, field, PTR_SIZE), Word32(u, number)) == ptrs
  {
    WordSeen(mem, beyond, s, base, number, count);
    PointerSeen(mem, beyond, s, base, field, ListAt(q, count));
    ListSeen(mem, beyond, s, base, p, h, resolvers, slots, q, ptrs);
  }

  // ----- one resolver

  /** The port is one, and the attributes lie in the buffer. */
  ghost predicate BodySound(s: seq<Byte>, b: Body) {
    0 <= b.numbers.port < 0x1_0000 && forall i :: 0 <= i < |b.attrs| ==> b.attrs[i].Payload() <= |s|
  }

  lemma {:induction false} PtrsBelow(attrs: seq<Attr>, kind: Word, hi: nat)
    requires forall i :: 0 <= i < |attrs| ==> attrs[i].Payload() <= hi
    ensures Below(PtrsOf(attrs, kind), hi) && (LastOf(attrs, kind).Some? ==> LastOf(attrs, kind).value <= hi)
  {
    if attrs != [] { PtrsBelow(attrs[..|attrs| - 1], kind, hi); }
  }

  lemma TextSeen(mem: seq<Byte>, beyond: seq<Byte>, s: seq<Byte>, base: nat, at: nat, p: Option<nat>)
    requires Written(mem, s, base, at, PtrCells(p)) && 0 < base && Addr(base, p) < ADDRESSES
    ensures Text(mem + beyond, base, HostAt(mem + beyond, at, PTR_SIZE)) == OptString(mem + beyond, p)
  {
    PointerSeen(mem, beyond, s, base, at, p);
  }

  lemma SetTextSeen(mem: seq<Byte>, beyond: seq<Byte>, s: seq<Byte>, base: nat, at: nat, p: Option<nat>)
    requires Written(mem, s, base, at, SetCells(p)) && 0 < base && Addr(base, p) < ADDRESSES
    ensures var text := Text(mem + beyond, base, HostAt(mem + beyond, at, PTR_SIZE));
            if Known(s, at, p) then text == OptString(mem + beyond, p) else text.Some? && p == None
  {
    SetPointerSeen(mem, beyond, s, base, at, p);
  }

  predicate NumbersAre(u: seq<Byte>, at: nat, n: Numbers) {
    && HostAt(u, at + PORT, 2) == n.port && Word32(u, at + TIMEOUT) == n.timeout && Word32(u, at + SEARCH_ORDER) == n.searchOrder
    && Word32(u, at + IF_INDEX) == n.ifIndex && Word32(u, at + SERVICE_IDENTIFIER) == n.serviceIdentifier
    && Word32(u, at + FLAGS) == n.flags && Word32(u, at + REACH_FLAGS) == n.reachFlags
  }

  predicate TextsAre(u: seq<Byte>, s: seq<Byte>, base: nat, at: nat, h: Header) {
    && Text(u, base, HostAt(u, at + DOMAIN, PTR_SIZE)) == OptString(u, h.domain)
    && Text(u, base, HostAt(u, at + OPTIONS, PTR_SIZE)) == OptString(u, h.options)
    && var cid, ifName := Text(u, base, HostAt(u, at + CID, PTR_SIZE)), Text(u, base, HostAt(u, at + IF_NAME, PTR_SIZE));
       && (if Known(s, at + CID, h.cid) then cid == OptString(u, h.cid) else cid.Some? && h.cid == None)
       && (if Known(s, at + IF_NAME, h.ifName) then ifName == OptString(u, h.ifName) else ifName.Some? && h.ifName == None)
  }

  /** The numbers of a resolver as a client reads them. */
  lemma NumbersSeen(mem: seq<Byte>, beyond: seq<Byte>, s: seq<Byte>, base: nat, at: nat, h: Header)
    requires Written(mem, s, base, at, HeaderFields(h)) && 0 <= h.numbers.port < 0x1_0000
    ensures NumbersAre(mem + beyond, at, h.numbers)
  {
    HeaderWritten(mem, s, base, at, h);
    FrontWritten(mem, s, base, at, h);
    MiddleWritten(mem, s, base, at, h);
    BackWritten(mem, s, base, at, h);
    Ranges();
    NumberSeen(mem, beyond, s, base, at + PORT, h.numbers.port, 2);
    WordSeen(mem, beyond, s, base, at + TIMEOUT, h.numbers.timeout);
    WordSeen(mem, beyond, s, base, at + SEARCH_ORDER, h.numbers.searchOrder);
    WordSeen(mem, beyond, s, base, at + IF_INDEX, h.numbers.ifIndex);
    WordSeen(mem, beyond, s, base, at + FLAGS, h.numbers.flags);
    WordSeen(mem, beyond, s, base, at + REACH_FLAGS, h.numbers.reachFlags);
    WordSeen(mem, beyond, s, base, at + SERVICE_IDENTIFIER, h.numbers.serviceIdentifier);
  }

  /** The strings of a resolver as a client reads them. */
  lemma TextsSeen(mem: seq<Byte>, beyond: seq<Byte>, s: seq<Byte>, base: nat, at: nat, h: Header)
    requires Written(mem, s, base, at, HeaderFields(h)) && 0 < base
    requires Addr(base, h.domain) < ADDRESSES && Addr(base, h.options) < ADDRESSES
    requires Addr(base, h.cid) < ADDRESSES && Addr(base, h.ifName) < ADDRESSES
    ensures TextsAre(mem + beyond, s, base, at, h)
  {
    HeaderWritten(mem, s, base, at, h);
    FrontWritten(mem, s, base, at, h);
    MiddleWritten(mem, s, base, at, h);
    BackWritten(mem, s, base, at, h);
    TextSeen(mem, beyond, s, base, at + DOMAIN, h.domain);
    TextSeen(mem, beyond, s, base, at + OPTIONS, h.options);
    SetTextSeen(mem, beyond, s, base, at + CID, h.cid);
    SetTextSeen(mem, beyond, s, base, at + IF_NAME, h.ifName);
  }

  /** The list fields of a resolver. */
  ghost predicate ListFields(mem: seq<Byte>, s: seq<Byte>, base: nat, at: nat, h: Header) {
    && Written(mem, s, base, at + N_NAMESERVER, NumberCells(h.numbers.nNameserver, 4))
    && Written(mem, s, base, at + NAMESERVER, PtrCells(h.nameserver))
    && Written(mem, s, base, at + N_SEARCH, NumberCells(h.numbers.nSearch, 4)) && Written(mem, s, base, at + SEARCH, PtrCells(h.search))
    && Written(mem, s, base, at + N_SORTADDR, NumberCells(h.numbers.nSortaddr, 4)) && Written(mem, s, base, at + SORTADDR, PtrCells(h.sortaddr))
  }

  lemma HeaderListFields(mem: seq<Byte>, s: seq<Byte>, base: nat, at: nat, h: Header)
    requires Written(mem, s, base, at, HeaderFields(h))
    ensures ListFields(mem, s, base, at, h)
  {
    HeaderWritten(mem, s, base, at, h);
    FrontWritten(mem, s, base, at, h);
    MiddleWritten(mem, s, base, at, h);
  }

  predicate ListsAre(u: seq<Byte>, base: nat, at: nat, p1: seq<nat>, p2: seq<nat>, p3: seq<nat>) {
    && PtrList(u, base, HostAt(u, at + NAMESERVER, PTR_SIZE), Word32(u, at + N_NAMESERVER)) == p1
    && PtrList(u, base, HostAt(u, at + SEARCH, PTR_SIZE), Word32(u, at + N_SEARCH)) == p2
    && PtrList(u, base, HostAt(u, at + SORTADDR, PTR_SIZE), Word32(u, at + N_SORTADDR)) == p3
  }

  /** What a client reads of a resolver, but for the two fields that are not reset, is what the bytes then say. */
  ghost predicate ResolverSeen(u: seq<Byte>, s: seq<Byte>, base: nat, at: nat, b: Body) {
    var r, x := ClientResolver(u, base, at), ResolverOf(u, b);
    && r.(cid := x.cid, ifName := x.ifName) == x
    && (if Known(s, at + CID, LastOf(b.attrs, RESOLVER_CONFIGURATION_ID)) then r.cid == x.cid else r.cid.Some? && x.cid == None)
    && (if Known(s, at + IF_NAME, LastOf(b.attrs, RESOLVER_INTERFACE_NAME)) then r.ifName == x.ifName else r.ifName.Some? && x.ifName == None)
  }

  lemma SeenByParts(u: seq<Byte>, s: seq<Byte>, base: nat, at: nat, b: Body, h: Header, q: nat)
    requires NumbersAre(u, at, h.numbers) && TextsAre(u, s, base, at, h) && h == HeaderFor(b, q)
    requires ListsAre(u, base, at, PtrsOf(b.attrs, RESOLVER_ADDRESS), PtrsOf(b.attrs, RESOLVER_SEARCH), PtrsOf(b.attrs, RESOLVER_SORTADDR))
    ensures ResolverSeen(u, s, base, at, b)
  {
  }

  lemma HeaderBelow(b: Body, s: seq<Byte>, q: nat, base: nat)
    requires BodySound(s, b) && base + |s| < ADDRESSES
    ensures var h := HeaderFor(b, q);
            && Addr(base, h.domain) < ADDRESSES && Addr(base, h.options) < ADDRESSES
            && Addr(base, h.cid) < ADDRESSES && Addr(base, h.ifName) < ADDRESSES
  {
    PtrsBelow(b.attrs, RESOLVER_DOMAIN, |s|);
    PtrsBelow(b.attrs, RESOLVER_OPTIONS, |s|);
    PtrsBelow(b.attrs, RESOLVER_CONFIGURATION_ID, |s|);
    PtrsBelow(b.attrs, RESOLVER_INTERFACE_NAME, |s|);
  }

  lemma FieldsSeen(mem: seq<Byte>, beyond: seq<Byte>, s: seq<Byte>, base: nat, at: nat, b: Body, h: Header, q: nat)
    requires Written(mem, s, base, at, HeaderFields(h)) && h == HeaderFor(b, q) && BodySound(s, b) && 0 < base && base + |s| < ADDRESSES
    ensures NumbersAre(mem + beyond, at, h.numbers) && TextsAre(mem + beyond, s, base, at, h)
  {
    HeaderBelow(b, s, q, base);
    NumbersSeen(mem, beyond, s, base, at, h);
    TextsSeen(mem, beyond, s, base, at, h);
  }

  /** Where the second and the third list of a resolver are. */
  lemma ThreeLists(s: seq<Byte>, b: Body, h: Header, slots: Slots, q: nat) returns (q2: nat, q3: nat)
    requires Expanded(b, h, slots, q) && q + Need(b.numbers) <= |s|
    ensures var p1, p2, p3 := PtrsOf(b.attrs, RESOLVER_ADDRESS), PtrsOf(b.attrs, RESOLVER_SEARCH), PtrsOf(b.attrs, RESOLVER_SORTADDR);
            && Filled(slots, q, p1) && q + PTR_SIZE * |p1| <= |s| && h.nameserver == ListAt(q, |p1|) && h.numbers.nNameserver == |p1|
            && Filled(slots, q2, p2) && q2 + PTR_SIZE * |p2| <= |s| && h.search == ListAt(q2, |p2|) && h.numbers.nSearch == |p2|
            && Filled(slots, q3, p3) && q3 + PTR_SIZE * |p3| <= |s| && h.sortaddr == ListAt(q3, |p3|) && h.numbers.nSortaddr == |p3|
  {
    var p1, p2, p3 := PtrsOf(b.attrs, RESOLVER_ADDRESS), PtrsOf(b.attrs, RESOLVER_SEARCH), PtrsOf(b.attrs, RESOLVER_SORTADDR);
    FilledSplit(slots, q, p1, p2 + p3);
    FilledSplit(slots, q + PTR_SIZE * |p1|, p2, p3);
    q2, q3 := q + PTR_SIZE * |p1|, q + PTR_SIZE * (|p1| + |p2|);
  }

  /** The lists of a resolver as a client reads them. */
  lemma BodyListsSeen(mem: seq<Byte>, beyond: seq<Byte>, s: seq<Byte>, base: nat, p: nat, ch: ConfigHeader, resolvers: Resolvers, slots: Slots,
                      at: nat, b: Body, h: Header, q: nat)
    requires Stored(mem, s, base, p, ch, resolvers, slots) && ListFields(mem, s, base, at, h) && Expanded(b, h, slots, q)
    requires q + Need(b.numbers) <= |s| && BodySound(s, b)
    ensures ListsAre(mem + beyond, base, at, PtrsOf(b.attrs, RESOLVER_ADDRESS), PtrsOf(b.attrs, RESOLVER_SEARCH), PtrsOf(b.attrs, RESOLVER_SORTADDR))
  {
    var q2, q3 := ThreeLists(s, b, h, slots, q);
    PtrsBelow(b.attrs, RESOLVER_ADDRESS, |s|);
    PtrsBelow(b.attrs, RESOLVER_SEARCH, |s|);
    PtrsBelow(b.attrs, RESOLVER_SORTADDR, |s|);
    var p1, p2, p3 := PtrsOf(b.attrs, RESOLVER_ADDRESS), PtrsOf(b.attrs, RESOLVER_SEARCH), PtrsOf(b.attrs, RESOLVER_SORTADDR);
    ListFieldSeen(mem, beyond, s, base, p, ch, resolvers, slots, at + N_NAMESERVER, at + NAMESERVER, q, h.numbers.nNameserver, p1);
    ListFieldSeen(mem, beyond, s, base, p, ch, resolvers, slots, at + N_SEARCH, at + SEARCH, q2, h.numbers.nSearch, p2);
    ListFieldSeen(mem, beyond, s, base, p, ch, resolvers, slots, at + N_SORTADDR, at + SORTADDR, q3, h.numbers.nSortaddr, p3);
  }

  lemma ResolverIsSeen(mem: seq<Byte>, beyond: seq<Byte>, s: seq<Byte>, base: nat, p: nat, ch: ConfigHeader, resolvers: Resolvers, slots: Slots,
                       at: nat, b: Body, h: Header, q: nat)
    requires Stored(mem, s, base, p, ch, resolvers, slots) && at in resolvers && h == resolvers[at] && Expanded(b, h, slots, q)
    requires q + Need(b.numbers) <= |s| && BodySound(s, b)
    ensures ResolverSeen(mem + beyond, s, base, at, b)
  {
    StoredFields(mem, s, base, p, ch, resolvers, slots, at);
    FieldsSeen(mem, beyond, s, base, at, b, h, q);
    HeaderListFields(mem, s, base, at, h);
    BodyListsSeen(mem, beyond, s, base, p, ch, resolvers, slots, at, b, h, q);
    SeenByParts(mem + beyond, s, base, at, b, h, q);
  }

  // ----- a buffer being expanded

  /** Bytes that are not rewritten yet. */
  lemma StoredSame(mem: seq<Byte>, s: seq<Byte>, base: nat, p: nat, h: ConfigHeader, resolvers: Resolvers, slots: Slots, lo: nat, hi: nat)
    requires Stored(mem, s, base, p, h, resolvers, slots) && ResolversBefore(resolvers, lo) && CONFIG_SIZE <= lo <= hi <= p
    ensures |mem| == |s| && forall i :: lo <= i < hi ==> mem[i] == s[i]
  {
    var o := Lay(h, resolvers, slots);
    forall i | lo <= i < hi ensures mem[i] == s[i] {
      forall at | at in o.resolvers ensures !(at <= i < at + |o.resolvers[at]|) { assert at in resolvers; }
    }
  }

  lemma SameNumbers(mem: seq<Byte>, s: seq<Byte>, at: nat)
    requires at + RESOLVER_SIZE <= |mem| == |s| && forall i :: at <= i < at + RESOLVER_SIZE ==> mem[i] == s[i]
    ensures NumbersAt(mem, at) == NumbersAt(s, at)
  {
  }

  /** Writing a pointer to a slot keeps the rest. */
  lemma SlotStored(mem: seq<Byte>, s: seq<Byte>, base: nat, p: nat, h: ConfigHeader, resolvers: Resolvers, slots: Slots, q: nat, ptr: nat)
    requires Stored(mem, s, base, p, h, resolvers, slots) && OnGrid(p, q)
    ensures Stored(Patch(mem, q, Host(base + ptr, PTR_SIZE)), s, base, p, h, resolvers, slots[q := ptr])
  {
    var o := Lay(h, resolvers, slots);
    SlotWritten(s, base, p, o, q, ptr);
    assert Lay(h, resolvers, slots[q := ptr]) == o.(slots := o.slots[q := ptr]);
  }

  /** Writing the fields of a resolver, all of them or some. */
  lemma FieldsStored(mem: seq<Byte>, mem': seq<Byte>, s: seq<Byte>, base: nat, p: nat, h: ConfigHeader, resolvers: Resolvers, slots: Slots,
                     at: nat, x: Header)
    requires Stored(mem, s, base, p, h, resolvers, slots) && ResolversBefore(resolvers[at := x], p)
    requires Written(mem', s, base, at, HeaderFields(x)) && OnlyAt(mem, mem', at, RESOLVER_SIZE)
    ensures Stored(mem', s, base, p, h, resolvers[at := x], slots)
  {
    var o := Lay(h, resolvers, slots);
    LayApart(h, resolvers, slots, p, p);
    LayApart(h, resolvers[at := x], slots, p, p);
    LayResolver(h, resolvers, slots, at, x);
    ResolverWritten(s, base, p, o, at, HeaderFields(x), mem');
  }

  lemma PointerSetWritten(mem: seq<Byte>, s: seq<Byte>, base: nat, at: nat, c: seq<Cell>, c': seq<Cell>, off: nat, ptr: nat)
    requires Written(mem, s, base, at, c) && PartSet(c, c', off, PtrCells(Some(ptr)))
    ensures var mem' := Patch(mem, at + off, Host(base + ptr, PTR_SIZE));
            Written(mem', s, base, at, c') && OnlyAt(mem, mem', at, |c'|)
  {
    PointerWritten(mem, s, base, at + off, Some(ptr));
    SetWritten(mem, Patch(mem, at + off, Host(base + ptr, PTR_SIZE)), s, base, at, c, c', off, PtrCells(Some(ptr)));
  }

  /** The fields of a resolver that is not expanded yet. */
  lemma StoredKept(mem: seq<Byte>, s: seq<Byte>, base: nat, p: nat, h: ConfigHeader, resolvers: Resolvers, slots: Slots, at: nat)
    requires Stored(mem, s, base, p, h, resolvers, slots) && ResolversBefore(resolvers, at)
    requires CONFIG_SIZE <= at && at + RESOLVER_SIZE <= p
    ensures Written(mem, s, base, at, Kept(RESOLVER_SIZE))
  {
    StoredSame(mem, s, base, p, h, resolvers, slots, at, at + RESOLVER_SIZE);
  }

  lemma HeaderStored(mem: seq<Byte>, mem': seq<Byte>, s: seq<Byte>, base: nat, p: nat, h: ConfigHeader, resolvers: Resolvers, slots: Slots,
                     at: nat, x: Header)
    requires Stored(mem, s, base, p, h, resolvers, slots) && ResolversBefore(resolvers, at)
    requires CONFIG_SIZE <= at && at + RESOLVER_SIZE <= p
    requires Written(mem', s, base, at, HeaderFields(x)) && OnlyAt(mem, mem', at, RESOLVER_SIZE)
    ensures Stored(mem', s, base, p, h, resolvers[at := x], slots) && ResolversBefore(resolvers[at := x], at + RESOLVER_SIZE)
  {
    FieldsStored(mem, mem', s, base, p, h, resolvers, slots, at, x);
  }

  /** Setting a pointer field of a resolver. */
  lemma PointerStored(mem: seq<Byte>, s: seq<Byte>, base: nat, p: nat, h: ConfigHeader, resolvers: Resolvers, slots: Slots,
                      at: nat, x: Header, off: nat, ptr: nat)
    requires Stored(mem, s, base, p, h, resolvers, slots) && at in resolvers
    requires PartSet(HeaderFields(resolvers[at]), HeaderFields(x), off, PtrCells(Some(ptr)))
    ensures Stored(Patch(mem, at + off, Host(base + ptr, PTR_SIZE)), s, base, p, h, resolvers[at := x], slots)
  {
    var mem' := Patch(mem, at + off, Host(base + ptr, PTR_SIZE));
    StoredFields(mem, s, base, p, h, resolvers, slots, at);
    PointerSetWritten(mem, s, base, at, HeaderFields(resolvers[at]), HeaderFields(x), off, ptr);
    FieldsStored(mem, mem', s, base, p, h, resolvers, slots, at, x);
  }

  /** The counts and the list pointers of a resolver, read where they were written. */
  lemma StoredLists(mem: seq<Byte>, s: seq<Byte>, base: nat, p: nat, ch: ConfigHeader, resolvers: Resolvers, slots: Slots, at: nat)
    requires Stored(mem, s, base, p, ch, resolvers, slots) && at in resolvers && HeaderIn(resolvers[at], p, |s|)
    ensures var h := resolvers[at];
            && HostAt(mem, at + NAMESERVER, PTR_SIZE) == Addr(base, h.nameserver) && HostAt(mem, at + SEARCH, PTR_SIZE) == Addr(base, h.search)
            && HostAt(mem, at + SORTADDR, PTR_SIZE) == Addr(base, h.sortaddr)
    ensures var n := resolvers[at].numbers;
            && Word32(mem, at + N_NAMESERVER) == n.nNameserver && Word32(mem, at + N_SEARCH) == n.nSearch
            && Word32(mem, at + N_SORTADDR) == n.nSortaddr
  {
    var h := resolvers[at];
    StoredFields(mem, s, base, p, ch, resolvers, slots, at);
    HeaderListFields(mem, s, base, at, h);
    ListFieldsRead(mem, s, base, at, h);
  }

  lemma ListFieldsRead(mem: seq<Byte>, s: seq<Byte>, base: nat, at: nat, h: Header)
    requires ListFields(mem, s, base, at, h)
    requires Addr(base, h.nameserver) < ADDRESSES && Addr(base, h.search) < ADDRESSES && Addr(base, h.sortaddr) < ADDRESSES
    ensures HostAt(mem, at + NAMESERVER, PTR_SIZE) == Addr(base, h.nameserver) && HostAt(mem, at + SEARCH, PTR_SIZE) == Addr(base, h.search)
    ensures HostAt(mem, at + SORTADDR, PTR_SIZE) == Addr(base, h.sortaddr)
    ensures Word32(mem, at + N_NAMESERVER) == h.numbers.nNameserver && Word32(mem, at + N_SEARCH) == h.numbers.nSearch
    ensures Word32(mem, at + N_SORTADDR) == h.numbers.nSortaddr
  {
    assert mem + [] == mem;
    PointerSeen(mem, [], s, base, at + NAMESERVER, h.nameserver);
    PointerSeen(mem, [], s, base, at + SEARCH, h.search);
    PointerSeen(mem, [], s, base, at + SORTADDR, h.sortaddr);
    WordSeen(mem, [], s, base, at + N_NAMESERVER, h.numbers.nNameserver);
    WordSeen(mem, [], s, base, at + N_SEARCH, h.numbers.nSearch);
    WordSeen(mem, [], s, base, at + N_SORTADDR, h.numbers.nSortaddr);
  }

  /** The byte count of a resolver's attributes is not rewritten. */
  lemma StoredNAttribute(mem: seq<Byte>, s: seq<Byte>, base: nat, p: nat, ch: ConfigHeader, resolvers: Resolvers, slots: Slots, at: nat)
    requires Stored(mem, s, base, p, ch, resolvers, slots) && at in resolvers
    ensures at + RESOLVER_SIZE <= |mem| == |s| && Get32(mem, at + RESOLVER_N_ATTRIBUTE) == Get32(s, at + RESOLVER_N_ATTRIBUTE)
  {
    StoredFields(mem, s, base, p, ch, resolvers, slots, at);
    HeaderWritten(mem, s, base, at, resolvers[at]);
    BackWritten(mem, s, base, at, resolvers[at]);
  }

  /** The counts and the list pointers of the configuration. */
  lemma StoredConfigLists(mem: seq<Byte>, s: seq<Byte>, base: nat, p: nat, h: ConfigHeader, resolvers: Resolvers, slots: Slots)
    requires Stored(mem, s, base, p, h, resolvers, slots)
    ensures HostAt(mem, RESOLVER, PTR_SIZE) == Addr(base, h.resolver) && HostAt(mem, SCOPED_RESOLVER, PTR_SIZE) == Addr(base, h.scoped)
    ensures HostAt(mem, SERVICE_SPECIFIC_RESOLVER, PTR_SIZE) == Addr(base, h.serviceSpecific)
    ensures Word32(mem, N_RESOLVER) == h.counts.resolver && Word32(mem, N_SCOPED_RESOLVER) == h.counts.scoped
    ensures Word32(mem, N_SERVICE_SPECIFIC_RESOLVER) == h.counts.serviceSpecific
  {
    assert mem + [] == mem;
    ConfigFieldsWritten(mem, s, base, h);
    PointerSeen(mem, [], s, base, RESOLVER, h.resolver);
    PointerSeen(mem, [], s, base, SCOPED_RESOLVER, h.scoped);
    PointerSeen(mem, [], s, base, SERVICE_SPECIFIC_RESOLVER, h.serviceSpecific);
    WordSeen(mem, [], s, base, N_RESOLVER, h.counts.resolver);
    WordSeen(mem, [], s, base, N_SCOPED_RESOLVER, h.counts.scoped);
    WordSeen(mem, [], s, base, N_SERVICE_SPECIFIC_RESOLVER, h.counts.serviceSpecific);
  }

  /** The configuration's fields written into the bytes as they came. */
  lemma ConfigStored(mem: seq<Byte>, s: seq<Byte>, base: nat, p: nat, h: ConfigHeader)
    requires CONFIG_SIZE <= p <= |s| && 0 < base && base + |s| < ADDRESSES && ConfigIn(h, p, |s|)
    requires Written(mem, s, base, 0, ConfigFields(h)) && OnlyAt(s, mem, 0, CONFIG_SIZE)
    ensures Stored(mem, s, base, p, h, map[], map[])
  {
    assert Lay(h, map[], map[]).resolvers == map[];
    assert Lay(h, map[], map[]) == Overlay(ConfigFields(h), map[], map[]);
  }
}
