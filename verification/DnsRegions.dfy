/** Where the expansion writes: the fields of the resolvers do not overlap, and all slots lie on the grid of the padding. */
module DnsRegions {
  import opened Options
  import opened DnsLayout
  import opened DnsDecode
  import opened DnsSlots
  import opened DnsResolver
  import opened DnsLists
  import opened DnsExpansion
  import opened DnsMemory
  import opened DnsFields

  ghost predicate SlotsOn(slots: Slots, p: nat) {
    forall q :: q in slots ==> OnGrid(p, q)
  }

  /** A list that begins on the grid, no further than hi. */
  predicate ListIn(list: Option<nat>, p: nat, hi: nat) {
    list.Some? ==> OnGrid(p, list.value) && list.value <= hi
  }

  predicate HeaderIn(h: Header, p: nat, hi: nat) {
    ListIn(h.nameserver, p, hi) && ListIn(h.search, p, hi) && ListIn(h.sortaddr, p, hi)
  }

  predicate ConfigIn(h: ConfigHeader, p: nat, hi: nat) {
    ListIn(h.resolver, p, hi) && ListIn(h.scoped, p, hi) && ListIn(h.serviceSpecific, p, hi)
  }

  /** The resolvers expanded so far lie before hi, and apart. */
  ghost predicate ResolversBefore(resolvers: Resolvers, hi: nat) {
    && (forall at :: at in resolvers ==> CONFIG_SIZE <= at && at + RESOLVER_SIZE <= hi)
    && forall a, b :: a in resolvers && b in resolvers && a < b ==> a + RESOLVER_SIZE <= b
  }

  lemma LayApart(h: ConfigHeader, resolvers: Resolvers, slots: Slots, hi: nat, p: nat)
    requires ResolversBefore(resolvers, hi) && CONFIG_SIZE <= p && hi <= p
    ensures FieldsApart(Lay(h, resolvers, slots), p)
  {
    var o := Lay(h, resolvers, slots);
    forall at | at in o.resolvers ensures at in resolvers && |o.resolvers[at]| == RESOLVER_SIZE { }
  }

  // ----- one resolver

  /** Filling a slot of a list on the grid. */
  lemma FillOn(slots: Slots, p: nat, hi: nat, list: Option<nat>, n: nat, ptr: nat)
    requires SlotsOn(slots, p) && list.Some? && ListIn(list, p, hi)
    ensures OnGrid(p, list.value + PTR_SIZE * n) && SlotsOn(slots[list.value + PTR_SIZE * n := ptr], p)
  {
  }

  lemma StepOn(w: Work, a: Attr, p: nat, hi: nat)
    requires Step(w, a).Some? && HeaderIn(w.header, p, hi) && SlotsOn(w.slots, p)
    ensures HeaderIn(Step(w, a).value.header, p, hi) && SlotsOn(Step(w, a).value.slots, p)
  {
    if a.kind == RESOLVER_ADDRESS { FillOn(w.slots, p, hi, w.header.nameserver, w.nNameserver, a.Payload()); }
    else if a.kind == RESOLVER_SEARCH { FillOn(w.slots, p, hi, w.header.search, w.nSearch, a.Payload()); }
    else if a.kind == RESOLVER_SORTADDR { FillOn(w.slots, p, hi, w.header.sortaddr, w.nSortaddr, a.Payload()); }
  }

  lemma {:induction false} StepsOn(w: Work, attrs: seq<Attr>, p: nat, hi: nat)
    requires HeaderIn(w.header, p, hi) && SlotsOn(w.slots, p)
    ensures HeaderIn(Steps(w, attrs).1.header, p, hi) && SlotsOn(Steps(w, attrs).1.slots, p)
  {
    if attrs != [] {
      var n := |attrs| - 1;
      StepsOn(w, attrs[..n], p, hi);
      var (ok, u) := Steps(w, attrs[..n]);
      if ok && Step(u, attrs[n]).Some? { StepOn(u, attrs[n], p, hi); }
    }
  }

  lemma ClaimsIn(p: nat, padding: nat, nPadding: nat, c1: Word, c2: Word, c3: Word)
    requires OnGrid(p, padding) && ClaimThree(padding, nPadding, c1, c2, c3).Some?
    ensures var c, hi := ClaimThree(padding, nPadding, c1, c2, c3).value, padding + nPadding;
            && ListIn(c.first, p, hi) && ListIn(c.second, p, hi) && ListIn(c.third, p, hi)
            && OnGrid(p, c.padding) && c.padding + c.nPadding == hi && padding <= c.padding
  {
    ClaimedInARow(padding, nPadding, c1, c2, c3);
    var r := RoomsFor(c1, c2, c3);
  }

  /** The expansion of a resolver adds no fields but its own, and no slot off the grid. */
  lemma ResolveOn(s: seq<Byte>, at: nat, n: nat, padding: nat, nPadding: nat, resolvers: Resolvers, slots: Slots, p: nat)
    requires at + n <= |s| && Readable(s, at, n) && OnGrid(p, padding) && SlotsOn(slots, p)
    ensures var r := Resolve(s, at, n, padding, nPadding, resolvers, slots);
            && OnGrid(p, r.padding) && r.padding + r.nPadding == padding + nPadding && SlotsOn(r.slots, p)
            && (r.resolvers == resolvers
                || (n >= RESOLVER_SIZE && at in r.resolvers && r.resolvers == resolvers[at := r.resolvers[at]]))
  {
    if n >= RESOLVER_SIZE {
      var num := NumbersAt(s, at);
      var claims := ClaimThree(padding, nPadding, num.nNameserver, num.nSearch, num.nSortaddr);
      if claims.Some? {
        ClaimsIn(p, padding, nPadding, num.nNameserver, num.nSearch, num.nSortaddr);
        if Checked(s, at, n) {
          StepsOn(Work(Initial(s, at, claims.value), slots, 0, 0, 0), ResolverAttrs(s, at, n), p, padding + nPadding);
        }
      }
    }
  }

  /** Fields rewritten again are where they were. */
  lemma SameFields(resolvers: Resolvers, at: nat, h: Header, hi: nat)
    requires ResolversBefore(resolvers, hi) && at in resolvers
    ensures ResolversBefore(resolvers[at := h], hi)
  {
  }

  // ----- the whole loop

  /** What has been written lies before position pos, or on the grid of the padding. */
  ghost predicate LoopOn(l: Loop, p: nat, total: nat, pos: nat) {
    OnGrid(p, l.padding) && l.padding + l.nPadding == p + total && SlotsOn(l.slots, p) && ResolversBefore(l.resolvers, pos)
  }

  lemma EnterOn(h: ConfigHeader, slots: Slots, n: Tally, kind: Word, ptr: nat, p: nat, hi: nat)
    requires IsResolver(kind) && ConfigIn(h, p, hi) && SlotsOn(slots, p) && Enter(h, slots, n, kind, ptr).Some?
    ensures SlotsOn(Enter(h, slots, n, kind, ptr).value.0, p)
  {
  }

  lemma ResolverTurnOn(s: seq<Byte>, h: ConfigHeader, l: Loop, a: Attr, p: nat, total: nat, pos: nat)
    requires LoopOn(l, p, total, pos) && ConfigIn(h, p, p + total) && AttrReadable(s, a) && IsResolver(a.kind)
    requires CONFIG_SIZE <= pos <= a.at && a.length >= ATTRIBUTE_SIZE
    ensures LoopOn(ResolverTurn(s, h, l, a), p, total, a.at + a.length)
  {
    var at, n := a.Payload(), a.length - ATTRIBUTE_SIZE;
    ResolveOn(s, at, n, l.padding, l.nPadding, l.resolvers, l.slots, p);
    var r := Resolve(s, at, n, l.padding, l.nPadding, l.resolvers, l.slots);
    if Enter(h, r.slots, l.n, a.kind, at).Some? { EnterOn(h, r.slots, l.n, a.kind, at, p, p + total); }
  }

  lemma TurnOn(s: seq<Byte>, h: ConfigHeader, l: Loop, a: Attr, p: nat, total: nat, pos: nat)
    requires LoopOn(l, p, total, pos) && ConfigIn(h, p, p + total)
    requires CONFIG_SIZE <= pos <= a.at && a.length >= ATTRIBUTE_SIZE
    ensures LoopOn(Turn(s, h, l, a), p, total, a.at + a.length)
  {
    if IsResolver(a.kind) && AttrReadable(s, a) { ResolverTurnOn(s, h, l, a, p, total, pos); }
  }

  function EndOf(attrs: seq<Attr>, lo: nat): nat {
    if attrs == [] then lo else attrs[|attrs| - 1].at + attrs[|attrs| - 1].length
  }

  lemma {:induction false} TurnsOn(s: seq<Byte>, h: ConfigHeader, l: Loop, attrs: seq<Attr>, p: nat, total: nat, lo: nat, hi: nat)
    requires Laid(attrs, lo, hi) && CONFIG_SIZE <= lo && LoopOn(l, p, total, lo) && ConfigIn(h, p, p + total)
    ensures LoopOn(Turns(s, h, l, attrs), p, total, EndOf(attrs, lo))
  {
    if attrs != [] {
      var n := |attrs| - 1;
      TurnsOn(s, h, l, attrs[..n], p, total, lo, hi);
      assert EndOf(attrs[..n], lo) <= attrs[n].at;
      if Turns(s, h, l, attrs[..n]).ok { TurnOn(s, h, Turns(s, h, l, attrs[..n]), attrs[n], p, total, EndOf(attrs[..n], lo)); }
    }
  }

  /** After the expansion: fields that do not overlap, before the padding; slots on its grid. */
  lemma ExpansionOn(s: seq<Byte>)
    requires WellFormedBuffer(s)
    ensures var m, p := Expansion(s), PaddingStart(s);
            ResolversBefore(m.resolvers, p) && SlotsOn(m.slots, p) && ConfigIn(m.header, p, |s|)
  {
    var p, total, counts := PaddingStart(s), NPadding(s), CountsAt(s);
    BufferAttrs(s);
    var claims := ClaimThree(p, total, counts.resolver, counts.scoped, counts.serviceSpecific);
    if claims.Some? {
      ClaimsIn(p, p, total, counts.resolver, counts.scoped, counts.serviceSpecific);
      TurnsOn(s, HeaderWith(counts, claims.value), Start(claims.value), ConfigAttrs(s), p, total, CONFIG_SIZE, p);
    }
  }

  // ----- and nowhere else

  /** A resolver's fields at r are those of an attribute that has room for them. */
  ghost predicate FieldsOf(attrs: seq<Attr>, r: nat) {
    exists j :: 0 <= j < |attrs| && attrs[j].Payload() == r && r + RESOLVER_SIZE <= attrs[j].at + attrs[j].length
  }

  lemma FieldsOfMore(attrs: seq<Attr>, r: nat)
    requires attrs != [] && FieldsOf(attrs[..|attrs| - 1], r)
    ensures FieldsOf(attrs, r)
  {
    var j :| 0 <= j < |attrs| - 1 && attrs[..|attrs| - 1][j].Payload() == r
             && r + RESOLVER_SIZE <= attrs[..|attrs| - 1][j].at + attrs[..|attrs| - 1][j].length;
    assert attrs[j] == attrs[..|attrs| - 1][j];
  }

  lemma TurnFields(s: seq<Byte>, h: ConfigHeader, l: Loop, a: Attr, p: nat, r: nat)
    requires OnGrid(p, l.padding) && SlotsOn(l.slots, p) && r in Turn(s, h, l, a).resolvers && r !in l.resolvers
    ensures a.Payload() == r && r + RESOLVER_SIZE <= a.at + a.length
  {
    var at, n := a.Payload(), a.length - ATTRIBUTE_SIZE;
    ResolveOn(s, at, n, l.padding, l.nPadding, l.resolvers, l.slots, p);
  }

  lemma {:induction false} TurnsFields(s: seq<Byte>, h: ConfigHeader, l: Loop, attrs: seq<Attr>, p: nat, total: nat, lo: nat, hi: nat)
    requires Laid(attrs, lo, hi) && CONFIG_SIZE <= lo && LoopOn(l, p, total, lo) && ConfigIn(h, p, p + total) && l.resolvers == map[]
    ensures forall r :: r in Turns(s, h, l, attrs).resolvers ==> FieldsOf(attrs, r)
  {
    if attrs != [] {
      var init, a := attrs[..|attrs| - 1], attrs[|attrs| - 1];
      TurnsFields(s, h, l, init, p, total, lo, hi);
      TurnsOn(s, h, l, init, p, total, lo, hi);
      var u := Turns(s, h, l, init);
      forall r | r in Turns(s, h, l, attrs).resolvers ensures FieldsOf(attrs, r) {
        if r in u.resolvers { FieldsOfMore(attrs, r); }
        else { TurnFields(s, h, u, a, p, r); }
      }
    }
  }

  lemma ExpansionFields(s: seq<Byte>)
    requires WellFormedBuffer(s)
    ensures forall r :: r in Expansion(s).resolvers ==> FieldsOf(ConfigAttrs(s), r)
  {
    var p, total, counts := PaddingStart(s), NPadding(s), CountsAt(s);
    BufferAttrs(s);
    var claims := ClaimThree(p, total, counts.resolver, counts.scoped, counts.serviceSpecific);
    if claims.Some? {
      ClaimsIn(p, p, total, counts.resolver, counts.scoped, counts.serviceSpecific);
      TurnsFields(s, HeaderWith(counts, claims.value), Start(claims.value), ConfigAttrs(s), p, total, CONFIG_SIZE, p);
    }
  }

  /** Bytes after a resolver's own fields, up to the end of its attribute, are not those of another one's fields. */
  lemma BesideFields(attrs: seq<Attr>, lo: nat, hi: nat, j: nat, i: nat, r: nat)
    requires Laid(attrs, lo, hi) && j < |attrs| && attrs[j].Payload() + RESOLVER_SIZE <= i <= attrs[j].at + attrs[j].length
    requires FieldsOf(attrs, r)
    ensures !(r <= i < r + RESOLVER_SIZE)
  {
    var m :| 0 <= m < |attrs| && attrs[m].Payload() == r && r + RESOLVER_SIZE <= attrs[m].at + attrs[m].length;
    if m < j { assert attrs[m].at + attrs[m].length <= attrs[j].at; }
    if m > j { assert attrs[j].at + attrs[j].length <= attrs[m].at; }
  }
}
