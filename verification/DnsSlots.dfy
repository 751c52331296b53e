/** Pointer lists in the padding: claiming them, filling their slots, reading them back. */
module DnsSlots {
  import opened Options
  import opened DnsLayout
  import opened DnsDecode

  type Slots = map<nat, nat>

  /** The slots from `base` on hold these pointers. */
  ghost predicate Filled(slots: Slots, base: nat, ptrs: seq<nat>) {
    forall i :: 0 <= i < |ptrs| ==> base + PTR_SIZE * i in slots && slots[base + PTR_SIZE * i] == ptrs[i]
  }

  /** A list of no entries is NULL. */
  function ListAt(base: nat, count: nat): Option<nat> {
    if count == 0 then None else Some(base)
  }

  /** Only slots in [lo, hi) were written. */
  ghost predicate KeptOutside(before: Slots, after: Slots, lo: int, hi: int) {
    && (forall p :: p in before && !(lo <= p < hi) ==> p in after && after[p] == before[p])
    && (forall p :: p in after && !(lo <= p < hi) ==> p in before)
  }

  // ----- claiming lists from the padding

  /** How many slots are claimed for a list of `count` entries: three bits of the count are lost in the size. */
  function Room(count: Word): nat {
    count % 0x2000_0000
  }

  lemma RoomIs(count: Word)
    ensures count * PTR_SIZE % 0x1_0000_0000 == PTR_SIZE * Room(count)
    ensures count <= BUF_MAX ==> Room(count) == count
  {
    assert count * PTR_SIZE == count / 0x2000_0000 * 0x1_0000_0000 + PTR_SIZE * Room(count);
  }

  datatype Claim = Claim(list: Option<nat>, padding: nat, nPadding: nat)

  /** A list of `count` pointers is claimed, if that much padding is left. */
  function AddList(padding: nat, nPadding: nat, count: Word): Option<Claim> {
    var need := count * PTR_SIZE % 0x1_0000_0000;
    if need > nPadding then None
    else Some(Claim(if need == 0 then None else Some(padding), padding + need, nPadding - need))
  }

  /** Three lists, and the padding left after them. */
  datatype Claims = Claims(first: Option<nat>, second: Option<nat>, third: Option<nat>, padding: nat, nPadding: nat)

  function ClaimThree(padding: nat, nPadding: nat, c1: Word, c2: Word, c3: Word): Option<Claims> {
    match AddList(padding, nPadding, c1)
    case None => None
    case Some(a) =>
      match AddList(a.padding, a.nPadding, c2)
      case None => None
      case Some(b) =>
        match AddList(b.padding, b.nPadding, c3)
        case None => None
        case Some(c) => Some(Claims(a.list, b.list, c.list, c.padding, c.nPadding))
  }

  /** How many slots are claimed for each of three lists. */
  datatype Rooms = Rooms(first: nat, second: nat, third: nat) {
    function Size(): nat {
      PTR_SIZE * (first + second + third)
    }
  }

  function RoomsFor(c1: Word, c2: Word, c3: Word): Rooms {
    Rooms(Room(c1), Room(c2), Room(c3))
  }

  /** The lists are claimed one right after the other, exactly when all of them are left. */
  lemma ClaimedInARow(padding: nat, nPadding: nat, c1: Word, c2: Word, c3: Word)
    ensures var r, claims := RoomsFor(c1, c2, c3), ClaimThree(padding, nPadding, c1, c2, c3);
            && (claims.Some? <==> r.Size() <= nPadding)
            && (claims.Some? ==>
                  claims.value == Claims(ListAt(padding, r.first), ListAt(padding + PTR_SIZE * r.first, r.second),
                                         ListAt(padding + PTR_SIZE * (r.first + r.second), r.third),
                                         padding + r.Size(), nPadding - r.Size()))
  {
    RoomIs(c1);
    RoomIs(c2);
    RoomIs(c3);
  }

  // ----- expanding one resolver

  /** The resolver's fields once rewritten in place; `cid` and `ifName` are left as they came until set. */
  datatype Header = Header(
    numbers: Numbers,
    domain: Option<nat>,
    nameserver: Option<nat>,
    search: Option<nat>,
    sortaddr: Option<nat>,
    options: Option<nat>,
    cid: Option<nat>,
    ifName: Option<nat>)

  /** The attribute loop's state: the resolver, the slots, and how many of each list are filled. */
  datatype Work = Work(header: Header, slots: Slots, nNameserver: nat, nSearch: nat, nSortaddr: nat)

  /** One attribute: a pointer is stored, or the list for it is missing. */
  function Step(w: Work, a: Attr): Option<Work> {
    var h, ptr := w.header, a.Payload();
    if a.kind == RESOLVER_DOMAIN then Some(w.(header := h.(domain := Some(ptr))))
    else if a.kind == RESOLVER_ADDRESS then
      if h.nameserver == None then None
      else Some(w.(slots := w.slots[h.nameserver.value + PTR_SIZE * w.nNameserver := ptr], nNameserver := w.nNameserver + 1))
    else if a.kind == RESOLVER_SEARCH then
      if h.search == None then None
      else Some(w.(slots := w.slots[h.search.value + PTR_SIZE * w.nSearch := ptr], nSearch := w.nSearch + 1))
    else if a.kind == RESOLVER_SORTADDR then
      if h.sortaddr == None then None
      else Some(w.(slots := w.slots[h.sortaddr.value + PTR_SIZE * w.nSortaddr := ptr], nSortaddr := w.nSortaddr + 1))
    else if a.kind == RESOLVER_OPTIONS then Some(w.(header := h.(options := Some(ptr))))
    else if a.kind == RESOLVER_CONFIGURATION_ID then Some(w.(header := h.(cid := Some(ptr))))
    else if a.kind == RESOLVER_INTERFACE_NAME then Some(w.(header := h.(ifName := Some(ptr))))
    else Some(w)
  }

  /** The string pointers that the attributes so far leave in the resolver. */
  ghost predicate Pointers(h: Header, done: seq<Attr>) {
    && h.domain == LastOf(done, RESOLVER_DOMAIN)
    && h.options == LastOf(done, RESOLVER_OPTIONS)
    && h.cid == LastOf(done, RESOLVER_CONFIGURATION_ID)
    && h.ifName == LastOf(done, RESOLVER_INTERFACE_NAME)
  }

  function RoomsOf(n: Numbers): Rooms {
    RoomsFor(n.nNameserver, n.nSearch, n.nSortaddr)
  }

  /** The list pointers of a resolver whose lists lie one after the other from `base` on. */
  ghost predicate ListPointers(h: Header, base: nat) {
    var r := RoomsOf(h.numbers);
    && h.nameserver == ListAt(base, r.first)
    && h.search == ListAt(base + PTR_SIZE * r.first, r.second)
    && h.sortaddr == ListAt(base + PTR_SIZE * (r.first + r.second), r.third)
  }

  /** Three lists one after the other hold these pointers. */
  ghost predicate ThreeFilled(slots: Slots, base: nat, c1: nat, c2: nat, p1: seq<nat>, p2: seq<nat>, p3: seq<nat>) {
    && Filled(slots, base, p1)
    && Filled(slots, base + PTR_SIZE * c1, p2)
    && Filled(slots, base + PTR_SIZE * (c1 + c2), p3)
  }

  /** The three lists of a resolver, as far as the attributes so far fill them. */
  ghost predicate ListsFilled(r: Rooms, slots: Slots, base: nat, done: seq<Attr>) {
    ThreeFilled(slots, base, r.first, r.second,
                PtrsOf(done, RESOLVER_ADDRESS), PtrsOf(done, RESOLVER_SEARCH), PtrsOf(done, RESOLVER_SORTADDR))
  }

  /** No list has been given more entries than were claimed for it. */
  predicate InRoom(r: Rooms, done: seq<Attr>) {
    && |PtrsOf(done, RESOLVER_ADDRESS)| <= r.first
    && |PtrsOf(done, RESOLVER_SEARCH)| <= r.second
    && |PtrsOf(done, RESOLVER_SORTADDR)| <= r.third
  }

  ghost predicate Counted(w: Work, done: seq<Attr>) {
    && w.nNameserver == |PtrsOf(done, RESOLVER_ADDRESS)|
    && w.nSearch == |PtrsOf(done, RESOLVER_SEARCH)|
    && w.nSortaddr == |PtrsOf(done, RESOLVER_SORTADDR)|
  }

  lemma FillFirst(slots: Slots, base: nat, c1: nat, c2: nat, c3: nat, p1: seq<nat>, p2: seq<nat>, p3: seq<nat>, ptr: nat)
    requires ThreeFilled(slots, base, c1, c2, p1, p2, p3) && |p1| <= c1 && |p2| <= c2 && |p3| <= c3 && |p1| < c1
    ensures var after := slots[base + PTR_SIZE * |p1| := ptr];
            ThreeFilled(after, base, c1, c2, p1 + [ptr], p2, p3)
            && KeptOutside(slots, after, base, base + PTR_SIZE * (c1 + c2 + c3))
  {
    var l := base;
    var after := slots[l + PTR_SIZE * |p1| := ptr];
  }

  lemma FillSecond(slots: Slots, base: nat, c1: nat, c2: nat, c3: nat, p1: seq<nat>, p2: seq<nat>, p3: seq<nat>, ptr: nat)
    requires ThreeFilled(slots, base, c1, c2, p1, p2, p3) && |p1| <= c1 && |p2| <= c2 && |p3| <= c3 && |p2| < c2
    ensures var after := slots[base + PTR_SIZE * c1 + PTR_SIZE * |p2| := ptr];
            ThreeFilled(after, base, c1, c2, p1, p2 + [ptr], p3)
            && KeptOutside(slots, after, base, base + PTR_SIZE * (c1 + c2 + c3))
  {
    var l := base + PTR_SIZE * c1;
    var after := slots[l + PTR_SIZE * |p2| := ptr];
  }

  lemma FillThird(slots: Slots, base: nat, c1: nat, c2: nat, c3: nat, p1: seq<nat>, p2: seq<nat>, p3: seq<nat>, ptr: nat)
    requires ThreeFilled(slots, base, c1, c2, p1, p2, p3) && |p1| <= c1 && |p2| <= c2 && |p3| <= c3 && |p3| < c3
    ensures var after := slots[base + PTR_SIZE * (c1 + c2) + PTR_SIZE * |p3| := ptr];
            ThreeFilled(after, base, c1, c2, p1, p2, p3 + [ptr])
            && KeptOutside(slots, after, base, base + PTR_SIZE * (c1 + c2 + c3))
  {
    var l := base + PTR_SIZE * (c1 + c2);
    var after := slots[l + PTR_SIZE * |p3| := ptr];
  }

  /** A step that stays in its list, with the lists filled so far. */
  ghost predicate StepReady(w: Work, a: Attr, base: nat, p1: seq<nat>, p2: seq<nat>, p3: seq<nat>) {
    var r := RoomsOf(w.header.numbers);
    && Step(w, a).Some? && ListPointers(w.header, base)
    && w.nNameserver == |p1| && w.nSearch == |p2| && w.nSortaddr == |p3|
    && ThreeFilled(w.slots, base, r.first, r.second, p1, p2, p3)
    && |p1| <= r.first && |p2| <= r.second && |p3| <= r.third
    && (a.kind == RESOLVER_ADDRESS ==> |p1| < r.first)
    && (a.kind == RESOLVER_SEARCH ==> |p2| < r.second)
    && (a.kind == RESOLVER_SORTADDR ==> |p3| < r.third)
  }

  ghost predicate StepDone(w: Work, a: Attr, base: nat, p1: seq<nat>, p2: seq<nat>, p3: seq<nat>)
    requires Step(w, a).Some?
  {
    var r, after := RoomsOf(w.header.numbers), Step(w, a).value.slots;
    ThreeFilled(after, base, r.first, r.second, p1, p2, p3) && KeptOutside(w.slots, after, base, base + r.Size())
  }

  lemma StepAddress(w: Work, a: Attr, base: nat, p1: seq<nat>, p2: seq<nat>, p3: seq<nat>)
    requires a.kind == RESOLVER_ADDRESS && StepReady(w, a, base, p1, p2, p3)
    ensures StepDone(w, a, base, p1 + [a.Payload()], p2, p3)
  {
    var r := RoomsOf(w.header.numbers);
    assert Step(w, a).value.slots == w.slots[base + PTR_SIZE * |p1| := a.Payload()];
    FillFirst(w.slots, base, r.first, r.second, r.third, p1, p2, p3, a.Payload());
  }

  lemma StepSearch(w: Work, a: Attr, base: nat, p1: seq<nat>, p2: seq<nat>, p3: seq<nat>)
    requires a.kind == RESOLVER_SEARCH && StepReady(w, a, base, p1, p2, p3)
    ensures StepDone(w, a, base, p1, p2 + [a.Payload()], p3)
  {
    var r := RoomsOf(w.header.numbers);
    assert Step(w, a).value.slots == w.slots[base + PTR_SIZE * r.first + PTR_SIZE * |p2| := a.Payload()];
    FillSecond(w.slots, base, r.first, r.second, r.third, p1, p2, p3, a.Payload());
  }

  lemma StepSortaddr(w: Work, a: Attr, base: nat, p1: seq<nat>, p2: seq<nat>, p3: seq<nat>)
    requires a.kind == RESOLVER_SORTADDR && StepReady(w, a, base, p1, p2, p3)
    ensures StepDone(w, a, base, p1, p2, p3 + [a.Payload()])
  {
    var r := RoomsOf(w.header.numbers);
    assert Step(w, a).value.slots == w.slots[base + PTR_SIZE * (r.first + r.second) + PTR_SIZE * |p3| := a.Payload()];
    FillThird(w.slots, base, r.first, r.second, r.third, p1, p2, p3, a.Payload());
  }

  /** A slot written by a step that stays in its list is the next one of that list; no other is written. */
  lemma StepLists(w: Work, a: Attr, done: seq<Attr>, base: nat)
    requires Step(w, a).Some? && Counted(w, done) && ListPointers(w.header, base)
    requires ListsFilled(RoomsOf(w.header.numbers), w.slots, base, done) && InRoom(RoomsOf(w.header.numbers), done + [a])
    ensures ListsFilled(RoomsOf(w.header.numbers), Step(w, a).value.slots, base, done + [a])
    ensures KeptOutside(w.slots, Step(w, a).value.slots, base, base + RoomsOf(w.header.numbers).Size())
  {
    PtrsOfNext(done, a, RESOLVER_ADDRESS);
    PtrsOfNext(done, a, RESOLVER_SEARCH);
    PtrsOfNext(done, a, RESOLVER_SORTADDR);
    var p1, p2, p3 := PtrsOf(done, RESOLVER_ADDRESS), PtrsOf(done, RESOLVER_SEARCH), PtrsOf(done, RESOLVER_SORTADDR);
    if a.kind == RESOLVER_ADDRESS { StepAddress(w, a, base, p1, p2, p3); }
    else if a.kind == RESOLVER_SEARCH { StepSearch(w, a, base, p1, p2, p3); }
    else if a.kind == RESOLVER_SORTADDR { StepSortaddr(w, a, base, p1, p2, p3); }
  }

  /** The list pointers stay as they were claimed. */
  lemma StepKeepsPointers(w: Work, a: Attr, base: nat)
    requires Step(w, a).Some? && ListPointers(w.header, base)
    ensures ListPointers(Step(w, a).value.header, base)
  {
  }

  lemma InRoomBefore(r: Rooms, done: seq<Attr>, a: Attr)
    requires InRoom(r, done + [a])
    ensures InRoom(r, done)
  {
    PtrsOfNext(done, a, RESOLVER_ADDRESS);
    PtrsOfNext(done, a, RESOLVER_SEARCH);
    PtrsOfNext(done, a, RESOLVER_SORTADDR);
  }

  // ----- a slot and its own list

  /** p is one of the `room` slots of the list. */
  predicate InList(list: Option<nat>, room: nat, p: nat) {
    list.Some? && list.value <= p && p + PTR_SIZE <= list.value + PTR_SIZE * room && (p - list.value) % PTR_SIZE == 0
  }

  /** p is a slot of one of the resolver's lists. */
  predicate InLists(h: Header, p: nat) {
    var r := RoomsOf(h.numbers);
    InList(h.nameserver, r.first, p) || InList(h.search, r.second, p) || InList(h.sortaddr, r.third, p)
  }

  /** Slots that were not there before are those of the resolver's lists. */
  ghost predicate NewInLists(before: Slots, after: Slots, h: Header) {
    forall p :: p in after && p !in before ==> InLists(h, p)
  }

  /** The list that an attribute's pointer goes to. */
  function ListFor(h: Header, kind: Word): Option<nat> {
    if kind == RESOLVER_ADDRESS then h.nameserver
    else if kind == RESOLVER_SEARCH then h.search
    else if kind == RESOLVER_SORTADDR then h.sortaddr
    else None
  }

  function RoomFor(r: Rooms, kind: Word): nat {
    if kind == RESOLVER_ADDRESS then r.first
    else if kind == RESOLVER_SEARCH then r.second
    else if kind == RESOLVER_SORTADDR then r.third
    else 0
  }

  predicate IsListKind(kind: Word) {
    kind == RESOLVER_ADDRESS || kind == RESOLVER_SEARCH || kind == RESOLVER_SORTADDR
  }

  /** The slot that an attribute's pointer goes to, after those of the attributes `done`. */
  function Target(h: Header, done: seq<Attr>, a: Attr): Option<nat> {
    match ListFor(h, a.kind)
    case None => None
    case Some(list) => Some(list + PTR_SIZE * |PtrsOf(done, a.kind)|)
  }

  /** Every list that the attributes need is there. */
  ghost predicate Storable(h: Header, attrs: seq<Attr>) {
    forall i :: 0 <= i < |attrs| && IsListKind(attrs[i].kind) ==> ListFor(h, attrs[i].kind).Some?
  }

  /** The i-th attribute's slot is one of its own list. */
  predicate OwnSlot(h: Header, attrs: seq<Attr>, i: nat)
    requires i < |attrs|
  {
    var p := Target(h, attrs[..i], attrs[i]);
    p.Some? ==> InList(ListFor(h, attrs[i].kind), RoomFor(RoomsOf(h.numbers), attrs[i].kind), p.value)
  }

  lemma {:induction false} PtrsOfPrefix(attrs: seq<Attr>, i: nat, kind: Word)
    requires i < |attrs| && attrs[i].kind == kind
    ensures |PtrsOf(attrs[..i], kind)| < |PtrsOf(attrs, kind)|
  {
    var n := |attrs| - 1;
    if i < n {
      assert attrs[..n][..i] == attrs[..i];
      PtrsOfPrefix(attrs[..n], i, kind);
    }
  }

  /** Over a list's last slot: the room is used up when one more attribute of its kind comes. */
  lemma {:induction false} OverfullAt(attrs: seq<Attr>, kind: Word, room: nat) returns (i: nat)
    requires |PtrsOf(attrs, kind)| > room
    ensures i < |attrs| && attrs[i].kind == kind && |PtrsOf(attrs[..i], kind)| == room
  {
    var n := |attrs| - 1;
    if |PtrsOf(attrs[..n], kind)| > room {
      i := OverfullAt(attrs[..n], kind, room);
      assert attrs[..n][..i] == attrs[..i];
    } else {
      i := n;
    }
  }

  /** Every pointer is stored in a slot of its own list exactly as long as no list is given more than was claimed for it. */
  lemma OwnSlotsIffInRoom(h: Header, attrs: seq<Attr>)
    requires Storable(h, attrs)
    ensures (forall i :: 0 <= i < |attrs| ==> OwnSlot(h, attrs, i)) <==> InRoom(RoomsOf(h.numbers), attrs)
  {
    var r := RoomsOf(h.numbers);
    if InRoom(r, attrs) {
      forall i | 0 <= i < |attrs| ensures OwnSlot(h, attrs, i) {
        PtrsOfPrefix(attrs, i, attrs[i].kind);
      }
    } else {
      var kind := if |PtrsOf(attrs, RESOLVER_ADDRESS)| > r.first then RESOLVER_ADDRESS
                  else if |PtrsOf(attrs, RESOLVER_SEARCH)| > r.second then RESOLVER_SEARCH
                  else RESOLVER_SORTADDR;
      var i := OverfullAt(attrs, kind, RoomFor(r, kind));
      assert !OwnSlot(h, attrs, i);
    }
  }

  /** A step that stays in its list writes one of the resolver's own slots. */
  lemma StepInLists(w: Work, a: Attr, done: seq<Attr>)
    requires Step(w, a).Some? && Counted(w, done) && InRoom(RoomsOf(w.header.numbers), done + [a])
    ensures NewInLists(w.slots, Step(w, a).value.slots, w.header)
  {
    PtrsOfNext(done, a, a.kind);
  }

  // ----- an expanded resolver

  /** The fields of a resolver once its attributes are through, with its lists from `base` on. */
  function HeaderFor(b: Body, base: nat): Header {
    var n := b.numbers;
    Header(n,
           LastOf(b.attrs, RESOLVER_DOMAIN),
           ListAt(base, n.nNameserver),
           ListAt(base + PTR_SIZE * n.nNameserver, n.nSearch),
           ListAt(base + PTR_SIZE * (n.nNameserver + n.nSearch), n.nSortaddr),
           LastOf(b.attrs, RESOLVER_OPTIONS),
           LastOf(b.attrs, RESOLVER_CONFIGURATION_ID),
           LastOf(b.attrs, RESOLVER_INTERFACE_NAME))
  }

  /** The pointers of a resolver's lists, one list after the other. */
  function ListPtrs(b: Body): seq<nat> {
    PtrsOf(b.attrs, RESOLVER_ADDRESS) + (PtrsOf(b.attrs, RESOLVER_SEARCH) + PtrsOf(b.attrs, RESOLVER_SORTADDR))
  }

  /** A resolver of these bytes is fully expanded, its lists lying from `base` on. */
  ghost predicate Expanded(b: Body, h: Header, slots: Slots, base: nat) {
    h == HeaderFor(b, base) && CountsMatch(b.numbers, b.attrs) && Filled(slots, base, ListPtrs(b))
  }

  lemma FilledJoin(slots: Slots, base: nat, p: seq<nat>, q: seq<nat>)
    requires Filled(slots, base, p) && Filled(slots, base + PTR_SIZE * |p|, q)
    ensures Filled(slots, base, p + q)
  {
    forall i | 0 <= i < |p + q| ensures base + PTR_SIZE * i in slots && slots[base + PTR_SIZE * i] == (p + q)[i] {
      if i >= |p| { assert base + PTR_SIZE * i == base + PTR_SIZE * |p| + PTR_SIZE * (i - |p|); }
    }
  }

  lemma FilledSplit(slots: Slots, base: nat, p: seq<nat>, q: seq<nat>)
    requires Filled(slots, base, p + q)
    ensures Filled(slots, base, p) && Filled(slots, base + PTR_SIZE * |p|, q)
  {
    forall i | 0 <= i < |p| ensures base + PTR_SIZE * i in slots && slots[base + PTR_SIZE * i] == p[i] {
      assert (p + q)[i] == p[i];
    }
    forall i | 0 <= i < |q|
      ensures base + PTR_SIZE * |p| + PTR_SIZE * i in slots && slots[base + PTR_SIZE * |p| + PTR_SIZE * i] == q[i]
    {
      assert (p + q)[|p| + i] == q[i];
      assert base + PTR_SIZE * (|p| + i) == base + PTR_SIZE * |p| + PTR_SIZE * i;
    }
  }

  /** Counts that match have as much room as they say. */
  lemma MatchingRooms(n: Numbers, attrs: seq<Attr>)
    requires CountsMatch(n, attrs) && |attrs| <= BUF_MAX
    ensures RoomsOf(n) == Rooms(n.nNameserver, n.nSearch, n.nSortaddr) && RoomsOf(n).Size() == Need(n)
  {
    RoomIs(n.nNameserver);
    RoomIs(n.nSearch);
    RoomIs(n.nSortaddr);
  }

  /** The attribute loop leaves the resolver expanded when the counts agree. */
  lemma LoopExpands(b: Body, h: Header, slots: Slots, base: nat)
    requires h.numbers == b.numbers && CountsMatch(b.numbers, b.attrs) && Pointers(h, b.attrs)
    requires ListPointers(h, base) && ListsFilled(RoomsOf(b.numbers), slots, base, b.attrs) && |b.attrs| <= BUF_MAX
    ensures Expanded(b, h, slots, base)
  {
    MatchingRooms(b.numbers, b.attrs);
    ThreeJoin(slots, base, PtrsOf(b.attrs, RESOLVER_ADDRESS), PtrsOf(b.attrs, RESOLVER_SEARCH), PtrsOf(b.attrs, RESOLVER_SORTADDR));
  }

  lemma ThreeJoin(slots: Slots, base: nat, p1: seq<nat>, p2: seq<nat>, p3: seq<nat>)
    requires ThreeFilled(slots, base, |p1|, |p2|, p1, p2, p3)
    ensures Filled(slots, base, p1 + (p2 + p3))
  {
    FilledJoin(slots, base + PTR_SIZE * |p1|, p2, p3);
    FilledJoin(slots, base, p1, p2 + p3);
  }
}
