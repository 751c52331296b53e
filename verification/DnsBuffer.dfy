/**
 The configuration buffer and its expansion in place. The memory is an array of bytes; beside it, ghost
 fields say what has been rewritten in it: the fields of the configuration and of each resolver, and the
 pointer slots, each under its offset in the buffer. Slots beyond the end are recorded, too.
 */
module DnsBuffer {
  import opened Options
  import opened DnsLayout
  import opened DnsDecode
  import opened DnsSlots
  import opened DnsResolver
  import opened DnsLists
  import opened DnsExpansion
  import opened DnsMemory
  import opened DnsFields
  import opened DnsRegions
  import opened DnsClient
  import opened DnsSteady
  import opened DnsReadBack

  const SIZE_MAX := 0x1_0000_0000_0000_0000

  class Buffer {
    /** The address of the memory. */
    const base: nat
    const memory: array<Byte>

    /** The bytes that came over the wire, with the padding. */
    ghost const wire: seq<Byte>

    /** Where the padding starts. */
    ghost const start: nat
    ghost var header: ConfigHeader
    ghost var resolvers: Resolvers
    ghost var slots: Slots

    /** Nothing is written yet. */
    ghost predicate Untouched()
      reads this, memory
    {
      && CONFIG_SIZE <= |wire| && start == PaddingStart(wire) && memory[..] == wire && Addressable(base, |wire|)
      && header == BLANK_CONFIG && resolvers == map[] && slots == map[]
    }

    /** The memory is as the ghost fields say; what that means is looked into only where it is asked for. */
    ghost predicate InMemory()
      reads this, memory
    {
      && CONFIG_SIZE <= start <= |wire| == memory.Length
      && forall n: nat :: Asked(n) ==> Stored(memory[..], wire, base, start, header, resolvers, slots)
    }

    lemma Look()
      requires InMemory()
      ensures Stored(memory[..], wire, base, start, header, resolvers, slots)
    {
      assert Asked(0);
    }

    lemma Seen()
      requires Stored(memory[..], wire, base, start, header, resolvers, slots)
      ensures InMemory()
    {
    }

    constructor (bytes: seq<Byte>, base: nat)
      requires CONFIG_SIZE <= |bytes| && Addressable(base, |bytes|)
      ensures wire == bytes && this.base == base && Untouched() && fresh(memory)
    {
      wire, start, this.base := bytes, PaddingStart(bytes), base;
      memory := new Byte[|bytes|](i requires 0 <= i < |bytes| => bytes[i]);
      header := BLANK_CONFIG;
      resolvers, slots := map[], map[];
    }

    // ----- writing

    /** Writes bytes; those beyond the end of the buffer are lost. */
    method Put(at: nat, bytes: seq<Byte>)
      modifies memory
      ensures memory[..] == Patch(old(memory[..]), at, bytes)
    {
      for k := 0 to |bytes|
        invariant forall i :: 0 <= i < memory.Length ==> memory[i] == if at <= i < at + k then bytes[i - at] else old(memory[i])
      {
        if at + k < memory.Length { memory[at + k] := bytes[k]; }
      }
    }

    /** The next number, in host order, of fields written one after the other from `at` on. */
    method PutNumber(at: nat, off: nat, v: int, n: nat, ghost first: seq<Byte>, ghost c: seq<Cell>)
      requires |c| == off && Written(memory[..], wire, base, at, c) && OnlyAt(first, memory[..], at, off) && at + off + n <= memory.Length
      modifies memory
      ensures Written(memory[..], wire, base, at, c + NumberCells(v, n)) && OnlyAt(first, memory[..], at, off + n)
    {
      ghost var mem := memory[..];
      Put(at + off, Host(v, n));
      AppendNumber(mem, wire, base, at, c, v, n);
      OnlyAtFurther(first, mem, memory[..], at, off, n);
    }

    method PutPointer(at: nat, off: nat, p: Option<nat>, ghost first: seq<Byte>, ghost c: seq<Cell>)
      requires |c| == off && Written(memory[..], wire, base, at, c) && OnlyAt(first, memory[..], at, off) && at + off + PTR_SIZE <= memory.Length
      modifies memory
      ensures Written(memory[..], wire, base, at, c + PtrCells(p)) && OnlyAt(first, memory[..], at, off + PTR_SIZE)
    {
      ghost var mem := memory[..];
      Put(at + off, Host(Addr(base, p), PTR_SIZE));
      AppendPointer(mem, wire, base, at, c, p);
      OnlyAtFurther(first, mem, memory[..], at, off, PTR_SIZE);
    }

    /** A pointer stored in a slot. */
    method PutSlot(q: nat, ptr: nat)
      requires InMemory() && OnGrid(start, q)
      modifies this`slots, memory
      ensures InMemory() && slots == old(slots)[q := ptr]
    {
      Look();
      SlotStored(memory[..], wire, base, start, header, resolvers, slots, q, ptr);
      Put(q, Host(base + ptr, PTR_SIZE));
      slots := slots[q := ptr];
      Seen();
    }

    /** A pointer field of a resolver set, which makes its fields those of x. */
    method SetPointer(at: nat, off: nat, ptr: nat, ghost x: Header)
      requires InMemory() && at in resolvers && PartSet(HeaderFields(resolvers[at]), HeaderFields(x), off, PtrCells(Some(ptr)))
      modifies this`resolvers, memory
      ensures InMemory() && resolvers == old(resolvers)[at := x]
    {
      Look();
      PointerStored(memory[..], wire, base, start, header, resolvers, slots, at, x, off, ptr);
      Put(at + off, Host(base + ptr, PTR_SIZE));
      resolvers := resolvers[at := x];
      Seen();
    }

    /** The first fields of a resolver: the domain is reset. */
    method PutFront(at: nat, num: Numbers, nameserver: Option<nat>, search: Option<nat>, ghost h: Header)
      requires Written(memory[..], wire, base, at, Kept(N_SORTADDR))
      requires h.numbers == num && h.domain == None && h.nameserver == nameserver && h.search == search
      modifies memory
      ensures Written(memory[..], wire, base, at, FrontFields(h)) && OnlyAt(old(memory[..]), memory[..], at, N_SORTADDR)
    {
      ghost var first := memory[..];
      PutPointer(at, DOMAIN, None, first, []);
      ghost var c := [] + PtrCells(None);
      assert c == PtrCells(None);
      PutNumber(at, N_NAMESERVER, num.nNameserver, 4, first, c);
      c := c + NumberCells(num.nNameserver, 4);
      PutPointer(at, NAMESERVER, nameserver, first, c);
      c := c + PtrCells(nameserver);
      PutNumber(at, PORT, num.port, 2, first, c);
      c := c + NumberCells(num.port, 2);
      AppendKept(first, memory[..], wire, base, at, c, 2, N_SORTADDR);
      c := c + Kept(2);
      PutNumber(at, N_SEARCH, num.nSearch, 4, first, c);
      c := c + NumberCells(num.nSearch, 4);
      PutPointer(at, SEARCH, search, first, c);
    }

    /** The options are reset. */
    method PutMiddle(at: nat, num: Numbers, sortaddr: Option<nat>, ghost h: Header)
      requires at + FLAGS <= memory.Length == |wire| && h.numbers == num && h.options == None && h.sortaddr == sortaddr
      modifies memory
      ensures Written(memory[..], wire, base, at + N_SORTADDR, MiddleFields(h))
      ensures OnlyAt(old(memory[..]), memory[..], at + N_SORTADDR, FLAGS - N_SORTADDR)
    {
      ghost var first := memory[..];
      var m := at + N_SORTADDR;
      PutNumber(m, 0, num.nSortaddr, 4, first, []);
      ghost var c := [] + NumberCells(num.nSortaddr, 4);
      assert c == NumberCells(num.nSortaddr, 4);
      PutPointer(m, SORTADDR - N_SORTADDR, sortaddr, first, c);
      c := c + PtrCells(sortaddr);
      PutPointer(m, OPTIONS - N_SORTADDR, None, first, c);
      c := c + PtrCells(None);
      PutNumber(m, TIMEOUT - N_SORTADDR, num.timeout, 4, first, c);
      c := c + NumberCells(num.timeout, 4);
      PutNumber(m, SEARCH_ORDER - N_SORTADDR, num.searchOrder, 4, first, c);
      c := c + NumberCells(num.searchOrder, 4);
      PutNumber(m, IF_INDEX - N_SORTADDR, num.ifIndex, 4, first, c);
    }

    /** The configuration identifier, the interface name and the byte count of the attributes stay. */
    method PutBack(at: nat, num: Numbers, ghost h: Header)
      requires Written(memory[..], wire, base, at + FLAGS, Kept(RESOLVER_SIZE - FLAGS))
      requires h.numbers == num && h.cid == None && h.ifName == None
      modifies memory
      ensures Written(memory[..], wire, base, at + FLAGS, BackFields(h))
      ensures OnlyAt(old(memory[..]), memory[..], at + FLAGS, RESOLVER_SIZE - FLAGS)
    {
      ghost var first := memory[..];
      var m := at + FLAGS;
      PutNumber(m, 0, num.flags, 4, first, []);
      ghost var c := [] + NumberCells(num.flags, 4);
      assert c == NumberCells(num.flags, 4);
      PutNumber(m, REACH_FLAGS - FLAGS, num.reachFlags, 4, first, c);
      c := c + NumberCells(num.reachFlags, 4);
      PutNumber(m, SERVICE_IDENTIFIER - FLAGS, num.serviceIdentifier, 4, first, c);
      c := c + NumberCells(num.serviceIdentifier, 4);
      AppendKept(first, memory[..], wire, base, m, c, PTR_SIZE, RESOLVER_SIZE - FLAGS);
      c := c + Kept(PTR_SIZE);
      AppendKept(first, memory[..], wire, base, m, c, PTR_SIZE, RESOLVER_SIZE - FLAGS);
      c := c + Kept(PTR_SIZE);
      AppendKept(first, memory[..], wire, base, m, c, 4, RESOLVER_SIZE - FLAGS);
    }

    /** All fields of a resolver. */
    method PutHeader(at: nat, num: Numbers, c: Claims, ghost h: Header)
      requires Written(memory[..], wire, base, at, Kept(RESOLVER_SIZE))
      requires h == Header(num, None, c.first, c.second, c.third, None, None, None)
      modifies memory
      ensures Written(memory[..], wire, base, at, HeaderFields(h)) && OnlyAt(old(memory[..]), memory[..], at, RESOLVER_SIZE)
    {
      ghost var m0 := memory[..];
      KeptParts(m0, wire, base, at);
      PutFront(at, num, c.first, c.second, h);
      ghost var m1 := memory[..];
      PutMiddle(at, num, c.third, h);
      ghost var m2 := memory[..];
      StaysWritten(m1, m2, wire, base, at, FrontFields(h), at + N_SORTADDR, FLAGS - N_SORTADDR);
      OnlyAtFurther(m0, m1, m2, at, N_SORTADDR, FLAGS - N_SORTADDR);
      StaysWritten(m0, m2, wire, base, at + FLAGS, Kept(RESOLVER_SIZE - FLAGS), at, FLAGS);
      PutBack(at, num, h);
      ghost var m3 := memory[..];
      StaysWritten(m2, m3, wire, base, at, FrontFields(h), at + FLAGS, RESOLVER_SIZE - FLAGS);
      StaysWritten(m2, m3, wire, base, at + N_SORTADDR, MiddleFields(h), at + FLAGS, RESOLVER_SIZE - FLAGS);
      OnlyAtFurther(m0, m2, m3, at, FLAGS, RESOLVER_SIZE - FLAGS);
      PartsWritten(m3, wire, base, at, FrontFields(h), MiddleFields(h));
      PartsWritten(m3, wire, base, at, FrontFields(h) + MiddleFields(h), BackFields(h));
    }

    /** The fields of a resolver in host order, its strings reset, its lists where they were claimed. */
    method RewriteResolver(at: nat, num: Numbers, c: Claims, ghost h: Header)
      requires InMemory() && ResolversBefore(resolvers, at) && CONFIG_SIZE <= at && at + RESOLVER_SIZE <= start
      requires h == Header(num, None, c.first, c.second, c.third, None, None, None)
      modifies this`resolvers, memory
      ensures InMemory() && resolvers == old(resolvers)[at := h] && ResolversBefore(resolvers, at + RESOLVER_SIZE)
    {
      Look();
      ghost var mem := memory[..];
      StoredKept(mem, wire, base, start, header, resolvers, slots, at);
      PutHeader(at, num, c, h);
      HeaderStored(mem, memory[..], wire, base, start, header, resolvers, slots, at, h);
      resolvers := resolvers[at := h];
      Seen();
    }

    // ----- one resolver

    /** `__dns_configuration_expand_add_list`: the size is computed in 32 bits. */
    static method AddList(padding: nat, nPadding: nat, count: Word, size: nat)
      returns (ok: bool, list: Option<nat>, padding': nat, nPadding': nat)
      ensures var need := count * size % 0x1_0000_0000;
              && (ok <==> need <= nPadding)
              && (ok ==> list == ListAt(padding, need) && padding' == padding + need && nPadding' == nPadding - need)
    {
      var need := count * size % 0x1_0000_0000;
      if need > nPadding { return false, None, padding, nPadding; }
      return true, if need == 0 then None else Some(padding), padding + need, nPadding - need;
    }

    /** Three lists, claimed one after the other: all of them, or none. */
    static method ClaimLists(padding: nat, nPadding: nat, c1: Word, c2: Word, c3: Word) returns (claims: Option<Claims>)
      ensures claims == ClaimThree(padding, nPadding, c1, c2, c3)
      ensures var r := RoomsFor(c1, c2, c3);
              && (claims.Some? <==> r.Size() <= nPadding)
              && (claims.Some? ==>
                    claims.value == Claims(ListAt(padding, r.first), ListAt(padding + PTR_SIZE * r.first, r.second),
                                           ListAt(padding + PTR_SIZE * (r.first + r.second), r.third),
                                           padding + r.Size(), nPadding - r.Size()))
    {
      ClaimedInARow(padding, nPadding, c1, c2, c3);
      var ok, list1, p1, n1 := AddList(padding, nPadding, c1, PTR_SIZE);
      if !ok { return None; }
      var list2, p2, n2;
      ok, list2, p2, n2 := AddList(p1, n1, c2, PTR_SIZE);
      if !ok { return None; }
      var list3, p3, n3;
      ok, list3, p3, n3 := AddList(p2, n2, c3, PTR_SIZE);
      if !ok { return None; }
      return Some(Claims(list1, list2, list3, p3, n3));
    }

    /** The next slot of a list filled, if there is a list. */
    method Fill(field: nat, n: nat, ptr: nat, ghost list: Option<nat>) returns (ok: bool)
      requires InMemory() && HostAt(memory[..], field, PTR_SIZE) == Addr(base, list) && ListIn(list, start, |wire|)
      modifies this`slots, memory
      ensures ok <==> list.Some?
      ensures InMemory() && slots == if ok then old(slots)[list.value + PTR_SIZE * n := ptr] else old(slots)
    {
      Look();
      var address := HostAt(memory[..], field, PTR_SIZE);
      if address == 0 { return false; }
      FillOn(slots, start, |wire|, list, n, ptr);
      PutSlot(address - base + PTR_SIZE * n, ptr);
      ok := true;
    }

    /** An attribute with a field of its own. */
    method SetField(at: nat, a: Attr, ghost before: Resolvers, ghost h: Header) returns (ghost h': Header)
      requires InMemory() && resolvers == before[at := h]
      requires a.kind == RESOLVER_DOMAIN || a.kind == RESOLVER_OPTIONS || a.kind == RESOLVER_CONFIGURATION_ID || a.kind == RESOLVER_INTERFACE_NAME
      modifies this`resolvers, memory
      ensures InMemory() && resolvers == before[at := h']
      ensures Step(Work(h, slots, 0, 0, 0), a) == Some(Work(h', slots, 0, 0, 0))
    {
      var ptr := a.Payload();
      if a.kind == RESOLVER_DOMAIN {
        h' := h.(domain := Some(ptr));
        DomainSet(h, ptr);
        SetPointer(at, DOMAIN, ptr, h');
      } else if a.kind == RESOLVER_OPTIONS {
        h' := h.(options := Some(ptr));
        OptionsSet(h, ptr);
        SetPointer(at, OPTIONS, ptr, h');
      } else if a.kind == RESOLVER_CONFIGURATION_ID {
        h' := h.(cid := Some(ptr));
        CidSet(h, ptr);
        SetPointer(at, CID, ptr, h');
      } else {
        h' := h.(ifName := Some(ptr));
        IfNameSet(h, ptr);
        SetPointer(at, IF_NAME, ptr, h');
      }
      SetTwice(before, at, h, h');
    }

    /** The list pointers of a resolver are where they were written. */
    lemma ReadLists(at: nat, h: Header)
      requires InMemory() && at in resolvers && resolvers[at] == h && HeaderIn(h, start, |wire|)
      ensures HostAt(memory[..], at + NAMESERVER, PTR_SIZE) == Addr(base, h.nameserver)
      ensures HostAt(memory[..], at + SEARCH, PTR_SIZE) == Addr(base, h.search)
      ensures HostAt(memory[..], at + SORTADDR, PTR_SIZE) == Addr(base, h.sortaddr)
      ensures Word32(memory[..], at + N_NAMESERVER) == h.numbers.nNameserver && Word32(memory[..], at + N_SEARCH) == h.numbers.nSearch
      ensures Word32(memory[..], at + N_SORTADDR) == h.numbers.nSortaddr
    {
      Look();
      StoredLists(memory[..], wire, base, start, header, resolvers, slots, at);
    }

    /** The switch on a resolver attribute's type; h and h' are the resolver's fields before and after. */
    method StoreAttribute(at: nat, a: Attr, nNameserver: nat, nSearch: nat, nSortaddr: nat, ghost before: Resolvers, ghost h: Header)
      returns (ok: bool, nNameserver': nat, nSearch': nat, nSortaddr': nat, ghost h': Header)
      requires InMemory() && resolvers == before[at := h] && HeaderIn(h, start, |wire|)
      modifies this`resolvers, this`slots, memory
      ensures InMemory() && resolvers == before[at := h']
      ensures var next := Step(Work(h, old(slots), nNameserver, nSearch, nSortaddr), a);
              && (ok <==> next.Some?)
              && (ok ==> next.value == Work(h', slots, nNameserver', nSearch', nSortaddr'))
      ensures !ok ==> h' == h && slots == old(slots) && nNameserver' == nNameserver && nSearch' == nSearch && nSortaddr' == nSortaddr
    {
      ok, nNameserver', nSearch', nSortaddr', h' := true, nNameserver, nSearch, nSortaddr, h;
      ReadLists(at, h);
      if a.kind == RESOLVER_ADDRESS {
        ok := Fill(at + NAMESERVER, nNameserver, a.Payload(), h.nameserver);
        if ok { nNameserver' := nNameserver + 1; }
      } else if a.kind == RESOLVER_SEARCH {
        ok := Fill(at + SEARCH, nSearch, a.Payload(), h.search);
        if ok { nSearch' := nSearch + 1; }
      } else if a.kind == RESOLVER_SORTADDR {
        ok := Fill(at + SORTADDR, nSortaddr, a.Payload(), h.sortaddr);
        if ok { nSortaddr' := nSortaddr + 1; }
      } else if a.kind == RESOLVER_DOMAIN || a.kind == RESOLVER_OPTIONS || a.kind == RESOLVER_CONFIGURATION_ID || a.kind == RESOLVER_INTERFACE_NAME {
        h' := SetField(at, a, before, h);
      }
    }

    /** The head of an attribute, which is not rewritten; resolvers are rewritten before lo only. */
    method ReadHead(pos: nat, ghost lo: nat) returns (a: Attr)
      requires InMemory() && ResolversBefore(resolvers, lo) && CONFIG_SIZE <= lo <= pos && pos + ATTRIBUTE_SIZE <= start
      ensures memory.Length == |wire| && a == Attr(Get32(wire, pos), pos, Get32(wire, pos + 4))
    {
      Look();
      StoredSame(memory[..], wire, base, start, header, resolvers, slots, lo, start);
      a := Attr(Get32(memory[..], pos), pos, Get32(memory[..], pos + 4));
    }

    /** One turn of the attribute loop, after the attributes `done`. */
    method AttributeTurn(at: nat, pos: nat, n1: nat, n2: nat, n3: nat,
                         ghost before: Resolvers, ghost h: Header, ghost w0: Work, ghost done: seq<Attr>)
      returns (ok: bool, a: Attr, n1': nat, n2': nat, n3': nat, ghost h': Header)
      requires InMemory() && resolvers == before[at := h] && ResolversBefore(resolvers, at + RESOLVER_SIZE)
      requires CONFIG_SIZE <= at && at + RESOLVER_SIZE <= pos && pos + ATTRIBUTE_SIZE <= start
      requires HeaderIn(w0.header, start, |wire|) && SlotsOn(w0.slots, start) && Steps(w0, done) == (true, Work(h, slots, n1, n2, n3))
      modifies this`resolvers, this`slots, memory
      ensures memory.Length == |wire| && a == Attr(Get32(wire, pos), pos, Get32(wire, pos + 4))
      ensures InMemory() && resolvers == before[at := h'] && ResolversBefore(resolvers, at + RESOLVER_SIZE)
      ensures Steps(w0, done + [a]) == (ok, Work(h', slots, n1', n2', n3'))
    {
      StepsOn(w0, done, start, |wire|);
      a := ReadHead(pos, at + RESOLVER_SIZE);
      StepsNext(w0, done, a);
      SetTwice(before, at, h, h);
      ghost var r := resolvers;
      ok, n1', n2', n3', h' := StoreAttribute(at, a, n1, n2, n3, before, h);
      SetTwice(before, at, h, h');
      SameFields(r, at, h', at + RESOLVER_SIZE);
    }

    /** The attribute loop, up to the end or to an attribute for which there is no list. */
    method ReadAttributes(at: nat, hi: nat, ghost before: Resolvers, ghost w0: Work)
      returns (ok: bool, nNameserver: nat, nSearch: nat, nSortaddr: nat, ghost h: Header)
      requires InMemory() && resolvers == before[at := w0.header] && w0 == Work(w0.header, slots, 0, 0, 0)
      requires ResolversBefore(resolvers, at + RESOLVER_SIZE) && CONFIG_SIZE <= at && at + RESOLVER_SIZE <= hi <= start <= |wire|
      requires HeaderIn(w0.header, start, |wire|) && SlotsOn(w0.slots, start) && WellFormed(wire, at + RESOLVER_SIZE, hi)
      modifies this`resolvers, this`slots, memory
      ensures InMemory() && resolvers == before[at := h] && ResolversBefore(resolvers, at + RESOLVER_SIZE)
      ensures (ok, Work(h, slots, nNameserver, nSearch, nSortaddr)) == Steps(w0, Attrs(wire, at + RESOLVER_SIZE, hi))
    {
      var pos := at + RESOLVER_SIZE;
      ok, nNameserver, nSearch, nSortaddr, h := true, 0, 0, 0, w0.header;
      ghost var done, all := [], Attrs(wire, at + RESOLVER_SIZE, hi);
      while hi - pos >= ATTRIBUTE_SIZE
        invariant at + RESOLVER_SIZE <= pos <= hi && WellFormed(wire, pos, hi) && all == done + Attrs(wire, pos, hi)
        invariant InMemory() && resolvers == before[at := h] && ResolversBefore(resolvers, at + RESOLVER_SIZE)
        invariant Steps(w0, done) == (true, Work(h, slots, nNameserver, nSearch, nSortaddr))
        decreases hi - pos
      {
        AttrsNext(wire, pos, hi, done);
        var a;
        ok, a, nNameserver, nSearch, nSortaddr, h := AttributeTurn(at, pos, nNameserver, nSearch, nSortaddr, before, h, w0, done);
        if !ok {
          StepsStop(w0, done + [a], Attrs(wire, pos + a.length, hi));
          return;
        }
        done := done + [a];
        pos := pos + a.length;
      }
      assert all == done;
      ok := true;
    }

    /** The numbers of a resolver that is not expanded yet. */
    lemma ReadNumbers(at: nat)
      requires InMemory() && ResolversBefore(resolvers, at) && CONFIG_SIZE <= at && at + RESOLVER_SIZE <= start
      ensures NumbersAt(memory[..], at) == NumbersAt(wire, at) && SlotsOn(slots, start) && Addressable(base, |wire|)
    {
      Look();
      StoredSame(memory[..], wire, base, start, header, resolvers, slots, at, at + RESOLVER_SIZE);
      SameNumbers(memory[..], wire, at);
    }

    lemma ReadNAttribute(at: nat)
      requires InMemory() && at in resolvers && at + RESOLVER_SIZE <= start
      ensures Get32(memory[..], at + RESOLVER_N_ATTRIBUTE) == Get32(wire, at + RESOLVER_N_ATTRIBUTE)
    {
      Look();
      StoredNAttribute(memory[..], wire, base, start, header, resolvers, slots, at);
    }

    /** The attribute loop and the final check of the counts. */
    method ExpandAttributes(at: nat, n: nat, ghost before: Resolvers, ghost w0: Work) returns (ok: bool, ghost w: Work)
      requires InMemory() && resolvers == before[at := w0.header] && w0 == Work(w0.header, slots, 0, 0, 0)
      requires ResolversBefore(resolvers, at + RESOLVER_SIZE) && CONFIG_SIZE <= at && at + RESOLVER_SIZE <= at + n <= start <= |wire|
      requires HeaderIn(w0.header, start, |wire|) && SlotsOn(w0.slots, start) && WellFormed(wire, at + RESOLVER_SIZE, at + n)
      modifies this`resolvers, this`slots, memory
      ensures InMemory() && resolvers == before[at := w.header] && slots == w.slots && ResolversBefore(resolvers, at + RESOLVER_SIZE)
      ensures var s := Steps(w0, Attrs(wire, at + RESOLVER_SIZE, at + n)); w == s.1 && ok == (s.0 && Complete(w))
    {
      var nNameserver, nSearch, nSortaddr;
      ghost var h;
      ok, nNameserver, nSearch, nSortaddr, h := ReadAttributes(at, at + n, before, w0);
      w := Work(h, slots, nNameserver, nSearch, nSortaddr);
      if !ok { return; }
      StepsOn(w0, Attrs(wire, at + RESOLVER_SIZE, at + n), start, |wire|);
      ReadLists(at, h);
      ok := nNameserver == Word32(memory[..], at + N_NAMESERVER) && nSearch == Word32(memory[..], at + N_SEARCH)
            && nSortaddr == Word32(memory[..], at + N_SORTADDR);
    }

    /** The fields and the attributes of a resolver whose lists are claimed. */
    method ExpandClaimed(at: nat, n: nat, num: Numbers, c: Claims, ghost before: Resolvers, ghost h: Header) returns (ok: bool, ghost w: Work)
      requires InMemory() && resolvers == before && ResolversBefore(resolvers, at) && CONFIG_SIZE <= at && at + RESOLVER_SIZE <= at + n <= start
      requires at + n <= |wire| && Readable(wire, at, n) && HeaderIn(h, start, |wire|) && SlotsOn(slots, start)
      requires h == Header(num, None, c.first, c.second, c.third, None, None, None)
      modifies this`resolvers, this`slots, memory
      ensures InMemory() && ResolversBefore(resolvers, at + RESOLVER_SIZE) && resolvers == before[at := w.header] && slots == w.slots
      ensures var w0 := Work(h, old(slots), 0, 0, 0);
              if !Checked(wire, at, n) then !ok && w == w0
              else w == Steps(w0, ResolverAttrs(wire, at, n)).1 && ok == (Steps(w0, ResolverAttrs(wire, at, n)).0 && Complete(w))
    {
      w := Work(h, slots, 0, 0, 0);
      RewriteResolver(at, num, c, h);
      ReadNAttribute(at);
      if n - RESOLVER_SIZE != Get32(memory[..], at + RESOLVER_N_ATTRIBUTE) { return false, w; }
      ok, w := ExpandAttributes(at, n, before, w);
    }

    /** `_dns_configuration_expand_resolver`, as the function Resolve says. */
    method ExpandInPlace(at: nat, n: nat, padding: nat, nPadding: nat) returns (ok: bool, padding': nat, nPadding': nat)
      requires InMemory() && CONFIG_SIZE <= at && at + n <= start && ResolversBefore(resolvers, at)
      requires at + n <= |wire| && Readable(wire, at, n) && OnGrid(start, padding) && padding + nPadding == |wire|
      modifies this`resolvers, this`slots, memory
      ensures InMemory() && ResolversBefore(resolvers, at + n)
      ensures Resolved(ok, padding', nPadding', resolvers, slots)
              == Resolve(wire, at, n, padding, nPadding, old(resolvers), old(slots))
    {
      if n < RESOLVER_SIZE { return false, padding, nPadding; }
      ReadNumbers(at);
      var num := NumbersAt(memory[..], at);
      var claims := ClaimLists(padding, nPadding, num.nNameserver, num.nSearch, num.nSortaddr);
      if claims == None { return false, padding, nPadding; }
      var c := claims.value;
      ClaimsIn(start, padding, nPadding, num.nNameserver, num.nSearch, num.nSortaddr);
      padding', nPadding' := c.padding, c.nPadding;
      ghost var w;
      ok, w := ExpandClaimed(at, n, num, c, resolvers, Initial(wire, at, c));
    }

    /**
     Expands the resolver of n bytes at `at`, taking its lists from the padding. It succeeds exactly when
     the resolver is consistent and the padding has room, and then every slot it wrote is one of its own
     lists; while no list is given too many entries, none lies beyond them.
     */
    method ExpandResolver(at: nat, n: nat, padding: nat, nPadding: nat) returns (ok: bool, padding': nat, nPadding': nat)
      requires InMemory() && CONFIG_SIZE <= at && at + n <= start && ResolversBefore(resolvers, at)
      requires at + n <= |wire| <= BUF_MAX && Readable(wire, at, n) && OnGrid(start, padding) && padding + nPadding == |wire|
      modifies this`resolvers, this`slots, memory
      ensures InMemory() && ResolversBefore(resolvers, at + n) && OnGrid(start, padding') && padding' + nPadding' == |wire|
      ensures Resolved(ok, padding', nPadding', resolvers, slots)
              == Resolve(wire, at, n, padding, nPadding, old(resolvers), old(slots))
      ensures ok <==> Consistent(wire, at, n) && Need(NumbersAt(wire, at)) <= nPadding
      ensures ok ==> padding' == padding + Need(NumbersAt(wire, at)) && nPadding' == nPadding - Need(NumbersAt(wire, at))
      ensures ok ==> at in resolvers && resolvers == old(resolvers)[at := resolvers[at]]
                     && Expanded(BodyAt(wire, at, n), resolvers[at], slots, padding)
                     && NewInLists(old(slots), slots, resolvers[at])
      ensures ok || ResolverInRoom(wire, at, n) ==>
                KeptOutside(old(slots), slots, padding, padding') && NewWithin(old(slots), slots, padding, padding')
    {
      Look();
      ResolveOn(wire, at, n, padding, nPadding, resolvers, slots, start);
      ok, padding', nPadding' := ExpandInPlace(at, n, padding, nPadding);
      ResolveSucceeds(wire, at, n, padding, nPadding, old(resolvers), old(slots));
      if ok { ResolveExpands(wire, at, n, padding, nPadding, old(resolvers), old(slots)); }
      else if ResolverInRoom(wire, at, n) { ResolveConfined(wire, at, n, padding, nPadding, old(resolvers), old(slots)); }
    }

    // ----- the whole configuration

    /** Enters an expanded resolver in the list of its kind. */
    method AddToList(kind: Word, ptr: nat, n: Tally) returns (ok: bool, n': Tally)
      requires InMemory() && IsResolver(kind)
      modifies this`slots, memory
      ensures InMemory()
      ensures var next := Enter(header, old(slots), n, kind, ptr);
              (ok <==> next.Some?) && (if ok then next == Some((slots, n')) else slots == old(slots) && n' == n)
    {
      ok, n' := true, n;
      ReadConfigLists();
      if kind == CONFIG_RESOLVER {
        ok := Fill(RESOLVER, n.resolver, ptr, header.resolver);
        if ok { n' := n.(resolver := n.resolver + 1); }
      } else if kind == CONFIG_SCOPED_RESOLVER {
        ok := Fill(SCOPED_RESOLVER, n.scoped, ptr, header.scoped);
        if ok { n' := n.(scoped := n.scoped + 1); }
      } else if kind == CONFIG_SERVICE_SPECIFIC_RESOLVER {
        ok := Fill(SERVICE_SPECIFIC_RESOLVER, n.serviceSpecific, ptr, header.serviceSpecific);
        if ok { n' := n.(serviceSpecific := n.serviceSpecific + 1); }
      }
    }

    lemma ReadConfigLists()
      requires InMemory()
      ensures ConfigIn(header, start, |wire|)
      ensures HostAt(memory[..], RESOLVER, PTR_SIZE) == Addr(base, header.resolver)
      ensures HostAt(memory[..], SCOPED_RESOLVER, PTR_SIZE) == Addr(base, header.scoped)
      ensures HostAt(memory[..], SERVICE_SPECIFIC_RESOLVER, PTR_SIZE) == Addr(base, header.serviceSpecific)
      ensures Word32(memory[..], N_RESOLVER) == header.counts.resolver && Word32(memory[..], N_SCOPED_RESOLVER) == header.counts.scoped
      ensures Word32(memory[..], N_SERVICE_SPECIFIC_RESOLVER) == header.counts.serviceSpecific
    {
      Look();
      StoredConfigLists(memory[..], wire, base, start, header, resolvers, slots);
    }

    /** A resolver is expanded, and entered in the list of its kind. */
    method ConfigTurn(a: Attr, padding: nat, nPadding: nat, n: Tally) returns (ok: bool, padding': nat, nPadding': nat, n': Tally)
      requires InMemory() && CONFIG_SIZE <= a.at && a.at + a.length <= start && ResolversBefore(resolvers, a.Payload())
      requires |wire| <= BUF_MAX && AttrReadable(wire, a) && IsResolver(a.kind) && OnGrid(start, padding) && padding + nPadding == |wire|
      modifies this`resolvers, this`slots, memory
      ensures InMemory() && ResolversBefore(resolvers, a.at + a.length) && OnGrid(start, padding') && padding' + nPadding' == |wire|
      ensures Loop(ok, padding', nPadding', n', resolvers, slots)
              == ResolverTurn(wire, header, Loop(true, padding, nPadding, n, old(resolvers), old(slots)), a)
    {
      n' := n;
      ok, padding', nPadding' := ExpandResolver(a.Payload(), a.length - ATTRIBUTE_SIZE, padding, nPadding);
      if !ok { return; }
      ok, n' := AddToList(a.kind, a.Payload(), n);
    }

    /** One turn of the configuration's attribute loop, at position pos after the attributes `done`. */
    method EntryTurn(pos: nat, padding: nat, nPadding: nat, n: Tally, ghost l0: Loop, ghost done: seq<Attr>)
      returns (ok: bool, a: Attr, padding': nat, nPadding': nat, n': Tally)
      requires InMemory() && CONFIG_SIZE <= pos && pos + ATTRIBUTE_SIZE <= start <= |wire| <= BUF_MAX && ResolversBefore(resolvers, pos)
      requires var a := Attr(Get32(wire, pos), pos, Get32(wire, pos + 4));
               AttrReadable(wire, a) && ATTRIBUTE_SIZE <= a.length && pos + a.length <= start
      requires OnGrid(start, padding) && padding + nPadding == |wire|
      requires Turns(wire, header, l0, done) == Loop(true, padding, nPadding, n, resolvers, slots)
      modifies this`resolvers, this`slots, memory
      ensures a == Attr(Get32(wire, pos), pos, Get32(wire, pos + 4))
      ensures InMemory() && ResolversBefore(resolvers, pos + a.length) && OnGrid(start, padding') && padding' + nPadding' == |wire|
      ensures Turns(wire, header, l0, done + [a]) == Loop(ok, padding', nPadding', n', resolvers, slots)
    {
      a := ReadHead(pos, pos);
      TurnsNext(wire, header, l0, done, a);
      ok, padding', nPadding', n' := true, padding, nPadding, n;
      if IsResolver(a.kind) { ok, padding', nPadding', n' := ConfigTurn(a, padding, nPadding, n); }
    }

    /** How far the loop has come at position pos, after the attributes `done`. */
    ghost predicate Reached(pos: nat, at: nat, left: nat, n: Tally, l0: Loop, done: seq<Attr>, all: seq<Attr>)
      requires start <= |wire|
      reads this, memory
    {
      && CONFIG_SIZE <= pos <= start && WellFormed(wire, pos, start) && all == done + Attrs(wire, pos, start)
      && InMemory() && ResolversBefore(resolvers, pos) && OnGrid(start, at) && at + left == |wire|
      && Turns(wire, header, l0, done) == Loop(true, at, left, n, resolvers, slots)
    }

    /** One turn of the loop. */
    method EntryStep(pos: nat, padding: nat, nPadding: nat, n: Tally, ghost l0: Loop, ghost done: seq<Attr>, ghost all: seq<Attr>)
      returns (ok: bool, pos': nat, padding': nat, nPadding': nat, n': Tally, ghost done': seq<Attr>)
      requires start <= |wire| <= BUF_MAX && AllReadable(wire, all) && pos + ATTRIBUTE_SIZE <= start
      requires Reached(pos, padding, nPadding, n, l0, done, all)
      modifies this`resolvers, this`slots, memory
      ensures InMemory()
      ensures ok ==> pos < pos' && Reached(pos', padding', nPadding', n', l0, done', all)
      ensures !ok ==> Turns(wire, header, l0, all) == Loop(false, padding', nPadding', n', resolvers, slots)
    {
      AttrsNext(wire, pos, start, done);
      ReadableNext(wire, pos, start, done, all);
      var a;
      ok, a, padding', nPadding', n' := EntryTurn(pos, padding, nPadding, n, l0, done);
      if !ok { TurnsStop(wire, header, l0, done + [a], Attrs(wire, pos + a.length, start)); }
      pos', done' := pos + a.length, done + [a];
    }

    /** The attribute loop, up to the end or to a resolver that cannot be expanded or entered. */
    method ReadEntries(hi: nat, padding: nat, nPadding: nat, ghost l0: Loop, ghost all: seq<Attr>)
      returns (ok: bool, n: Tally, ghost padding': nat, ghost nPadding': nat)
      requires hi == start <= |wire| <= BUF_MAX && AllReadable(wire, all)
      requires Reached(CONFIG_SIZE, padding, nPadding, Tally(0, 0, 0), l0, [], all)
      modifies this`resolvers, this`slots, memory
      ensures InMemory()
      ensures Turns(wire, header, l0, all) == Loop(ok, padding', nPadding', n, resolvers, slots)
    {
      var pos, at, left := CONFIG_SIZE, padding, nPadding;
      ok, n := true, Tally(0, 0, 0);
      ghost var done := [];
      while hi - pos >= ATTRIBUTE_SIZE
        invariant Reached(pos, at, left, n, l0, done, all)
        decreases hi - pos
      {
        ok, pos, at, left, n, done := EntryStep(pos, at, left, n, l0, done, all);
        if !ok {
          padding', nPadding' := at, left;
          return;
        }
      }
      assert all == done;
      ok, padding', nPadding' := true, at, left;
    }

    /** The fields of the configuration in host order, its lists where they were claimed. */
    method RewriteConfig(counts: Counts, c: Claims, ghost h: ConfigHeader)
      requires Untouched() && start <= |wire| && h == ConfigHeader(counts, c.first, c.second, c.third) && ConfigIn(h, start, |wire|)
      modifies this`header, memory
      ensures InMemory() && header == h
    {
      PutConfig(counts, c, h);
      ConfigStored(memory[..], wire, base, start, h);
      header := h;
      Seen();
    }

    method PutConfig(counts: Counts, c: Claims, ghost h: ConfigHeader)
      requires memory[..] == wire && CONFIG_SIZE <= |wire| && h == ConfigHeader(counts, c.first, c.second, c.third)
      modifies memory
      ensures Written(memory[..], wire, base, 0, ConfigFields(h)) && OnlyAt(wire, memory[..], 0, CONFIG_SIZE)
    {
      PutNumber(0, N_RESOLVER, counts.resolver, 4, wire, []);
      ghost var cells := [] + NumberCells(counts.resolver, 4);
      assert cells == NumberCells(counts.resolver, 4);
      PutPointer(0, RESOLVER, c.first, wire, cells);
      cells := cells + PtrCells(c.first);
      PutNumber(0, N_SCOPED_RESOLVER, counts.scoped, 4, wire, cells);
      cells := cells + NumberCells(counts.scoped, 4);
      PutPointer(0, SCOPED_RESOLVER, c.second, wire, cells);
      cells := cells + PtrCells(c.second);
      AppendKept(wire, memory[..], wire, base, 0, cells, 8, CONFIG_SIZE);
      cells := cells + Kept(8);
      PutNumber(0, N_SERVICE_SPECIFIC_RESOLVER, counts.serviceSpecific, 4, wire, cells);
      cells := cells + NumberCells(counts.serviceSpecific, 4);
      PutPointer(0, SERVICE_SPECIFIC_RESOLVER, c.third, wire, cells);
      cells := cells + PtrCells(c.third);
      AppendKept(wire, memory[..], wire, base, 0, cells, 12, CONFIG_SIZE);
    }

    /** `_dns_configuration_buffer_expand`, as the function Expansion says. */
    method ExpandBytes() returns (ok: bool)
      requires WellFormedBuffer(wire) && Untouched()
      modifies this, memory
      ensures Memory(ok, header, resolvers, slots) == Expansion(wire)
      ensures ok ==> InMemory()
    {
      var counts, padding, nPadding := CountsAt(memory[..]), PaddingStart(memory[..]), NPadding(memory[..]);
      var claims := ClaimLists(padding, nPadding, counts.resolver, counts.scoped, counts.serviceSpecific);
      if claims == None { return false; }
      var c := claims.value;
      ClaimsIn(start, padding, nPadding, counts.resolver, counts.scoped, counts.serviceSpecific);
      RewriteConfig(counts, c, ConfigHeader(counts, c.first, c.second, c.third));
      ghost var padding', nPadding';
      var n;
      ok, n, padding', nPadding' := ReadEntries(padding, c.padding, c.nPadding, Start(c), ConfigAttrs(wire));
      if !ok { return; }
      ReadConfigLists();
      ok := n.resolver == Word32(memory[..], N_RESOLVER) && n.scoped == Word32(memory[..], N_SCOPED_RESOLVER)
            && n.serviceSpecific == Word32(memory[..], N_SERVICE_SPECIFIC_RESOLVER);
    }

    /**
     `_dns_configuration_buffer_expand`: it succeeds exactly when all counts are right and the padding
     has room. Then every slot written is one of a claimed list and lies in the padding, the memory is the
     bytes that came with just the fields and slots rewritten, and a client reads in it what the bytes said
     unless the expansion disturbs a value. If it fails, no slot lies outside the padding as long as no list
     is given more entries than were claimed for it.
     */
    method Expand() returns (ok: bool)
      requires WellFormedBuffer(wire) && Untouched()
      modifies this, memory
      ensures Memory(ok, header, resolvers, slots) == Expansion(wire)
      ensures ok <==> Expandable(wire)
      ensures ok ==> header.counts == CountsAt(wire)
                     && ConfigExpanded(ConfigEntries(wire), header, resolvers, slots, PaddingStart(wire))
                     && Claimed(ConfigEntries(wire), header, resolvers, slots)
      ensures ok ==> memory[..] == Image(wire, base, PaddingStart(wire), Over(wire))
      ensures ok && Undisturbed(wire) ==>
                forall beyond :: Decode(wire) == Some(ClientConfig(memory[..] + beyond, base))
      ensures ok || AllInRoom(wire, CountsAt(wire), ConfigAttrs(wire)) ==> SlotsWithin(slots, PaddingStart(wire), |wire|)
    {
      ghost var p := start;
      ok := ExpandBytes();
      ExpansionSucceeds(wire);
      if ok {
        Look();
        ExpandableInRoom(wire);
        if Undisturbed(wire) {
          forall beyond ensures Decode(wire) == Some(ClientConfig(memory[..] + beyond, base)) { ReadBack(wire, base, beyond); }
        }
      }
      if AllInRoom(wire, CountsAt(wire), ConfigAttrs(wire)) { ExpansionConfined(wire); }
    }
  }

  lemma KeptParts(mem: seq<Byte>, s: seq<Byte>, base: nat, at: nat)
    requires Written(mem, s, base, at, Kept(RESOLVER_SIZE))
    ensures Written(mem, s, base, at, Kept(N_SORTADDR)) && Written(mem, s, base, at + FLAGS, Kept(RESOLVER_SIZE - FLAGS))
  {
  }

  lemma SetTwice(before: Resolvers, at: nat, h: Header, h': Header)
    ensures before[at := h][at := h'] == before[at := h']
  {
  }

  predicate Asked(n: nat) {
    true
  }

  // ----- the loops and the functions that specify them

  lemma AttrsNext(s: seq<Byte>, pos: nat, hi: nat, done: seq<Attr>)
    requires pos + ATTRIBUTE_SIZE <= hi <= |s| && WellFormed(s, pos, hi)
    ensures var a := Attr(Get32(s, pos), pos, Get32(s, pos + 4));
            pos + a.length <= hi && WellFormed(s, pos + a.length, hi) && ATTRIBUTE_SIZE <= a.length
            && done + Attrs(s, pos, hi) == done + [a] + Attrs(s, pos + a.length, hi)
  {
    var a := Attr(Get32(s, pos), pos, Get32(s, pos + 4));
    assert done + ([a] + Attrs(s, pos + a.length, hi)) == done + [a] + Attrs(s, pos + a.length, hi);
  }

  lemma ReadableNext(s: seq<Byte>, pos: nat, hi: nat, done: seq<Attr>, all: seq<Attr>)
    requires pos + ATTRIBUTE_SIZE <= hi <= |s| && WellFormed(s, pos, hi) && all == done + Attrs(s, pos, hi) && AllReadable(s, all)
    ensures AttrReadable(s, Attr(Get32(s, pos), pos, Get32(s, pos + 4)))
  {
    assert AttrReadable(s, all[|done|]);
  }

  lemma StepsNext(w: Work, done: seq<Attr>, a: Attr)
    requires Steps(w, done).0
    ensures Steps(w, done + [a]) ==
            match Step(Steps(w, done).1, a) case None => (false, Steps(w, done).1) case Some(v) => (true, v)
  {
    assert (done + [a])[..|done|] == done;
  }

  lemma {:induction false} StepsStop(w: Work, done: seq<Attr>, rest: seq<Attr>)
    requires !Steps(w, done).0
    ensures Steps(w, done + rest) == Steps(w, done)
  {
    if rest == [] {
      assert done + rest == done;
    } else {
      var n := |rest| - 1;
      assert (done + rest)[..|done| + n] == done + rest[..n];
      StepsStop(w, done, rest[..n]);
    }
  }

  lemma TurnsNext(s: seq<Byte>, h: ConfigHeader, l: Loop, done: seq<Attr>, a: Attr)
    requires Turns(s, h, l, done).ok
    ensures Turns(s, h, l, done + [a]) == Turn(s, h, Turns(s, h, l, done), a)
  {
    assert (done + [a])[..|done|] == done;
  }

  lemma {:induction false} TurnsStop(s: seq<Byte>, h: ConfigHeader, l: Loop, done: seq<Attr>, rest: seq<Attr>)
    requires !Turns(s, h, l, done).ok
    ensures Turns(s, h, l, done + rest) == Turns(s, h, l, done)
  {
    if rest == [] {
      assert done + rest == done;
    } else {
      var n := |rest| - 1;
      assert (done + rest)[..|done| + n] == done + rest[..n];
      TurnsStop(s, h, l, done, rest[..n]);
    }
  }

  /**
   `_dns_configuration_buffer_create`: the buffer, which is allocated at address `base`, is the data with its
   padding, zeroed. Sizes are 64-bit: what is left of the largest size wraps around when the data alone exceed it.
   */
  method BufferCreate(data: seq<Byte>, base: nat) returns (buf: Option<Buffer>)
    requires CONFIG_SIZE <= |data| && Addressable(base, BUF_MAX)
    ensures buf.Some? <==> CONFIG_SIZE + NAttribute(data) == |data| && |data| + NPadding(data) <= BUF_MAX
    ensures buf.Some? ==> fresh(buf.value) && fresh(buf.value.memory) && buf.value.base == base
                          && buf.value.wire == data + seq(NPadding(data), _ => 0) && Sized(buf.value.wire)
                          && buf.value.Untouched()
  {
    var nAttribute, nPadding := NAttribute(data), NPadding(data);
    if CONFIG_SIZE + nAttribute != |data| { return None; }
    if nPadding > (BUF_MAX - |data|) % SIZE_MAX { return None; }
    if |data| + nPadding > BUF_MAX { return None; }
    var b := new Buffer(data + seq(nPadding, _ => 0), base);
    return Some(b);
  }

}
