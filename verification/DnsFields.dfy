/** The fields of the configuration and of the resolvers as the expansion leaves them in the buffer. */
module DnsFields {
  import opened Options
  import opened DnsLayout
  import opened DnsSlots
  import opened DnsResolver
  import opened DnsLists
  import opened DnsMemory

  function Kept(n: nat): (c: seq<Cell>)
    ensures |c| == n
  {
    seq(n, _ => Same)
  }

  /** A pointer field that stays as it came until it is set. */
  function SetCells(p: Option<nat>): (c: seq<Cell>)
    ensures |c| == PTR_SIZE
  {
    if p == None then Kept(PTR_SIZE) else PtrCells(p)
  }

  /** The resolver up to and with its search list. */
  function FrontFields(h: Header): (c: seq<Cell>)
    ensures |c| == N_SORTADDR
  {
    PtrCells(h.domain) + NumberCells(h.numbers.nNameserver, 4) + PtrCells(h.nameserver) + NumberCells(h.numbers.port, 2) + Kept(2)
    + NumberCells(h.numbers.nSearch, 4) + PtrCells(h.search)
  }

  function MiddleFields(h: Header): (c: seq<Cell>)
    ensures |c| == FLAGS - N_SORTADDR
  {
    NumberCells(h.numbers.nSortaddr, 4) + PtrCells(h.sortaddr) + PtrCells(h.options) + NumberCells(h.numbers.timeout, 4)
    + NumberCells(h.numbers.searchOrder, 4) + NumberCells(h.numbers.ifIndex, 4)
  }

  function BackFields(h: Header): (c: seq<Cell>)
    ensures |c| == RESOLVER_SIZE - FLAGS
  {
    NumberCells(h.numbers.flags, 4) + NumberCells(h.numbers.reachFlags, 4) + NumberCells(h.numbers.serviceIdentifier, 4)
    + SetCells(h.cid) + SetCells(h.ifName) + Kept(4)
  }

  function HeaderFields(h: Header): (c: seq<Cell>)
    ensures |c| == RESOLVER_SIZE
  {
    FrontFields(h) + MiddleFields(h) + BackFields(h)
  }

  function ConfigFields(h: ConfigHeader): (c: seq<Cell>)
    ensures |c| == CONFIG_SIZE
  {
    NumberCells(h.counts.resolver, 4) + PtrCells(h.resolver) + NumberCells(h.counts.scoped, 4) + PtrCells(h.scoped) + Kept(8)
    + NumberCells(h.counts.serviceSpecific, 4) + PtrCells(h.serviceSpecific) + Kept(12)
  }

  ghost function Lay(h: ConfigHeader, resolvers: Resolvers, slots: Slots): Overlay {
    Overlay(ConfigFields(h), map at | at in resolvers :: HeaderFields(resolvers[at]), slots)
  }

  lemma LayResolver(h: ConfigHeader, resolvers: Resolvers, slots: Slots, at: nat, x: Header)
    ensures var o := Lay(h, resolvers, slots);
            Lay(h, resolvers[at := x], slots) == o.(resolvers := o.resolvers[at := HeaderFields(x)])
  {
    var o := Lay(h, resolvers, slots);
    assert Lay(h, resolvers[at := x], slots).resolvers == o.resolvers[at := HeaderFields(x)];
  }

  // ----- field by field

  lemma Split(mem: seq<Byte>, s: seq<Byte>, base: nat, at: nat, a: seq<Cell>, b: seq<Cell>)
    requires Written(mem, s, base, at, a + b)
    ensures Written(mem, s, base, at, a) && Written(mem, s, base, at + |a|, b)
  {
    PartWritten(mem, s, base, at, a + b, 0, a);
    PartWritten(mem, s, base, at, a + b, |a|, b);
  }

  lemma FrontWritten(mem: seq<Byte>, s: seq<Byte>, base: nat, at: nat, h: Header)
    requires Written(mem, s, base, at, FrontFields(h))
    ensures Written(mem, s, base, at + DOMAIN, PtrCells(h.domain)) && Written(mem, s, base, at + N_NAMESERVER, NumberCells(h.numbers.nNameserver, 4))
    ensures Written(mem, s, base, at + NAMESERVER, PtrCells(h.nameserver)) && Written(mem, s, base, at + PORT, NumberCells(h.numbers.port, 2))
    ensures Written(mem, s, base, at + N_SEARCH, NumberCells(h.numbers.nSearch, 4)) && Written(mem, s, base, at + SEARCH, PtrCells(h.search))
  {
    var c1 := PtrCells(h.domain);
    var c2 := c1 + NumberCells(h.numbers.nNameserver, 4);
    var c3 := c2 + PtrCells(h.nameserver);
    var c4 := c3 + NumberCells(h.numbers.port, 2);
    var c5 := c4 + Kept(2);
    var c6 := c5 + NumberCells(h.numbers.nSearch, 4);
    Split(mem, s, base, at, c6, PtrCells(h.search));
    Split(mem, s, base, at, c5, NumberCells(h.numbers.nSearch, 4));
    Split(mem, s, base, at, c4, Kept(2));
    Split(mem, s, base, at, c3, NumberCells(h.numbers.port, 2));
    Split(mem, s, base, at, c2, PtrCells(h.nameserver));
    Split(mem, s, base, at, c1, NumberCells(h.numbers.nNameserver, 4));
  }

  lemma MiddleWritten(mem: seq<Byte>, s: seq<Byte>, base: nat, at: nat, h: Header)
    requires Written(mem, s, base, at + N_SORTADDR, MiddleFields(h))
    ensures Written(mem, s, base, at + N_SORTADDR, NumberCells(h.numbers.nSortaddr, 4)) && Written(mem, s, base, at + SORTADDR, PtrCells(h.sortaddr))
    ensures Written(mem, s, base, at + OPTIONS, PtrCells(h.options)) && Written(mem, s, base, at + TIMEOUT, NumberCells(h.numbers.timeout, 4))
    ensures Written(mem, s, base, at + SEARCH_ORDER, NumberCells(h.numbers.searchOrder, 4))
    ensures Written(mem, s, base, at + IF_INDEX, NumberCells(h.numbers.ifIndex, 4))
  {
    var c1 := NumberCells(h.numbers.nSortaddr, 4);
    var c2 := c1 + PtrCells(h.sortaddr);
    var c3 := c2 + PtrCells(h.options);
    var c4 := c3 + NumberCells(h.numbers.timeout, 4);
    var c5 := c4 + NumberCells(h.numbers.searchOrder, 4);
    var m := at + N_SORTADDR;
    Split(mem, s, base, m, c5, NumberCells(h.numbers.ifIndex, 4));
    Split(mem, s, base, m, c4, NumberCells(h.numbers.searchOrder, 4));
    Split(mem, s, base, m, c3, NumberCells(h.numbers.timeout, 4));
    Split(mem, s, base, m, c2, PtrCells(h.options));
    Split(mem, s, base, m, c1, PtrCells(h.sortaddr));
  }

  lemma BackWritten(mem: seq<Byte>, s: seq<Byte>, base: nat, at: nat, h: Header)
    requires Written(mem, s, base, at + FLAGS, BackFields(h))
    ensures Written(mem, s, base, at + FLAGS, NumberCells(h.numbers.flags, 4))
    ensures Written(mem, s, base, at + REACH_FLAGS, NumberCells(h.numbers.reachFlags, 4))
    ensures Written(mem, s, base, at + SERVICE_IDENTIFIER, NumberCells(h.numbers.serviceIdentifier, 4))
    ensures Written(mem, s, base, at + CID, SetCells(h.cid)) && Written(mem, s, base, at + IF_NAME, SetCells(h.ifName))
    ensures Written(mem, s, base, at + RESOLVER_N_ATTRIBUTE, Kept(4))
  {
    var c1 := NumberCells(h.numbers.flags, 4);
    var c2 := c1 + NumberCells(h.numbers.reachFlags, 4);
    var c3 := c2 + NumberCells(h.numbers.serviceIdentifier, 4);
    var c4 := c3 + SetCells(h.cid);
    var c5 := c4 + SetCells(h.ifName);
    var m := at + FLAGS;
    Split(mem, s, base, m, c5, Kept(4));
    Split(mem, s, base, m, c4, SetCells(h.ifName));
    Split(mem, s, base, m, c3, SetCells(h.cid));
    Split(mem, s, base, m, c2, NumberCells(h.numbers.serviceIdentifier, 4));
    Split(mem, s, base, m, c1, NumberCells(h.numbers.reachFlags, 4));
  }

  lemma HeaderWritten(mem: seq<Byte>, s: seq<Byte>, base: nat, at: nat, h: Header)
    requires Written(mem, s, base, at, HeaderFields(h))
    ensures Written(mem, s, base, at, FrontFields(h)) && Written(mem, s, base, at + N_SORTADDR, MiddleFields(h))
    ensures Written(mem, s, base, at + FLAGS, BackFields(h))
  {
    Split(mem, s, base, at, FrontFields(h) + MiddleFields(h), BackFields(h));
    Split(mem, s, base, at, FrontFields(h), MiddleFields(h));
  }

  lemma ConfigFieldsWritten(mem: seq<Byte>, s: seq<Byte>, base: nat, h: ConfigHeader)
    requires Written(mem, s, base, 0, ConfigFields(h))
    ensures Written(mem, s, base, N_RESOLVER, NumberCells(h.counts.resolver, 4)) && Written(mem, s, base, RESOLVER, PtrCells(h.resolver))
    ensures Written(mem, s, base, N_SCOPED_RESOLVER, NumberCells(h.counts.scoped, 4)) && Written(mem, s, base, SCOPED_RESOLVER, PtrCells(h.scoped))
    ensures Written(mem, s, base, GENERATION, Kept(8))
    ensures Written(mem, s, base, N_SERVICE_SPECIFIC_RESOLVER, NumberCells(h.counts.serviceSpecific, 4))
    ensures Written(mem, s, base, SERVICE_SPECIFIC_RESOLVER, PtrCells(h.serviceSpecific)) && Written(mem, s, base, VERSION, Kept(12))
  {
    var c1 := NumberCells(h.counts.resolver, 4);
    var c2 := c1 + PtrCells(h.resolver);
    var c3 := c2 + NumberCells(h.counts.scoped, 4);
    var c4 := c3 + PtrCells(h.scoped);
    var c5 := c4 + Kept(8);
    var c6 := c5 + NumberCells(h.counts.serviceSpecific, 4);
    var c7 := c6 + PtrCells(h.serviceSpecific);
    Split(mem, s, base, 0, c7, Kept(12));
    Split(mem, s, base, 0, c6, PtrCells(h.serviceSpecific));
    Split(mem, s, base, 0, c5, NumberCells(h.counts.serviceSpecific, 4));
    Split(mem, s, base, 0, c4, Kept(8));
    Split(mem, s, base, 0, c3, PtrCells(h.scoped));
    Split(mem, s, base, 0, c2, NumberCells(h.counts.scoped, 4));
    Split(mem, s, base, 0, c1, PtrCells(h.resolver));
  }

  // ----- a pointer field set

  /** The cells differ in one part only. */
  predicate PartSet(c: seq<Cell>, c': seq<Cell>, off: nat, part: seq<Cell>) {
    && off + |part| <= |c| == |c'| && c'[off..off + |part|] == part
    && forall k :: 0 <= k < |c| && !(off <= k < off + |part|) ==> c'[k] == c[k]
  }

  lemma SetWritten(mem: seq<Byte>, mem': seq<Byte>, s: seq<Byte>, base: nat, at: nat, c: seq<Cell>, c': seq<Cell>, off: nat, part: seq<Cell>)
    requires PartSet(c, c', off, part) && Written(mem, s, base, at, c)
    requires Written(mem', s, base, at + off, part) && OnlyAt(mem, mem', at + off, |part|)
    ensures Written(mem', s, base, at, c') && OnlyAt(mem, mem', at, |c'|)
  {
    forall i | at <= i < at + |c'| ensures mem'[i] == CellByte(s[i], base, c'[i - at]) {
      if at + off <= i < at + off + |part| { assert part[i - (at + off)] == c'[off..off + |part|][i - (at + off)]; }
    }
  }

  lemma DomainSet(h: Header, p: nat)
    ensures PartSet(HeaderFields(h), HeaderFields(h.(domain := Some(p))), DOMAIN, PtrCells(Some(p)))
  {
    var g, part := h.(domain := Some(p)), PtrCells(Some(p));
    var c, c' := PtrCells(h.domain), part;
    var n1, n2, n3, n4 := NumberCells(h.numbers.nNameserver, 4), PtrCells(h.nameserver), NumberCells(h.numbers.port, 2), Kept(2);
    var n5, n6 := NumberCells(h.numbers.nSearch, 4), PtrCells(h.search);
  }

  lemma OptionsSet(h: Header, p: nat)
    ensures PartSet(HeaderFields(h), HeaderFields(h.(options := Some(p))), OPTIONS, PtrCells(Some(p)))
  {
    var g, part := h.(options := Some(p)), PtrCells(Some(p));
    var first := NumberCells(h.numbers.nSortaddr, 4) + PtrCells(h.sortaddr);
    var n1, n2, n3 := NumberCells(h.numbers.timeout, 4), NumberCells(h.numbers.searchOrder, 4), NumberCells(h.numbers.ifIndex, 4);
    var c, c' := first + PtrCells(h.options), first + part;
  }

  lemma CidSet(h: Header, p: nat)
    ensures PartSet(HeaderFields(h), HeaderFields(h.(cid := Some(p))), CID, PtrCells(Some(p)))
  {
    var g, part := h.(cid := Some(p)), PtrCells(Some(p));
    var first := NumberCells(h.numbers.flags, 4) + NumberCells(h.numbers.reachFlags, 4) + NumberCells(h.numbers.serviceIdentifier, 4);
    var c, c' := first + SetCells(h.cid), first + part;
  }

  lemma IfNameSet(h: Header, p: nat)
    ensures PartSet(HeaderFields(h), HeaderFields(h.(ifName := Some(p))), IF_NAME, PtrCells(Some(p)))
  {
    var g, part := h.(ifName := Some(p)), PtrCells(Some(p));
    var first := NumberCells(h.numbers.flags, 4) + NumberCells(h.numbers.reachFlags, 4) + NumberCells(h.numbers.serviceIdentifier, 4)
                 + SetCells(h.cid);
  }

  // ----- fields written one after the other

  lemma AppendNumber(mem: seq<Byte>, s: seq<Byte>, base: nat, at: nat, c: seq<Cell>, v: int, n: nat)
    requires Written(mem, s, base, at, c) && at + |c| + n <= |mem| == |s|
    ensures var mem' := Patch(mem, at + |c|, Host(v, n));
            Written(mem', s, base, at, c + NumberCells(v, n)) && OnlyAt(mem, mem', at + |c|, n)
  {
    var mem' := Patch(mem, at + |c|, Host(v, n));
    StaysWritten(mem, mem', s, base, at, c, at + |c|, n);
    PartsWritten(mem', s, base, at, c, NumberCells(v, n));
  }

  lemma AppendPointer(mem: seq<Byte>, s: seq<Byte>, base: nat, at: nat, c: seq<Cell>, p: Option<nat>)
    requires Written(mem, s, base, at, c) && at + |c| + PTR_SIZE <= |mem| == |s|
    ensures var mem' := Patch(mem, at + |c|, Host(Addr(base, p), PTR_SIZE));
            Written(mem', s, base, at, c + PtrCells(p)) && OnlyAt(mem, mem', at + |c|, PTR_SIZE)
  {
    var mem' := Patch(mem, at + |c|, Host(Addr(base, p), PTR_SIZE));
    PointerWritten(mem, s, base, at + |c|, p);
    StaysWritten(mem, mem', s, base, at, c, at + |c|, PTR_SIZE);
    PartsWritten(mem', s, base, at, c, PtrCells(p));
  }

  /** Some bytes left as they came. */
  lemma AppendKept(first: seq<Byte>, mem: seq<Byte>, s: seq<Byte>, base: nat, at: nat, c: seq<Cell>, n: nat, total: nat)
    requires Written(first, s, base, at, Kept(total)) && |c| + n <= total
    requires Written(mem, s, base, at, c) && OnlyAt(first, mem, at, |c|)
    ensures Written(mem, s, base, at, c + Kept(n)) && OnlyAt(first, mem, at, |c| + n)
  {
  }

  lemma OnlyAtFurther(first: seq<Byte>, mem: seq<Byte>, mem': seq<Byte>, at: nat, k: nat, n: nat)
    requires OnlyAt(first, mem, at, k) && OnlyAt(mem, mem', at + k, n)
    ensures OnlyAt(first, mem', at, k + n)
  {
  }
}
