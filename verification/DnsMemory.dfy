/**
 The bytes of a buffer while it is expanded in place: the bytes that came, but for the rewritten fields
 of the configuration and of each resolver, and the pointer slots. Numbers and pointers are in host order,
 the least significant byte first; a pointer is the address of the buffer plus an offset.
 */
module DnsMemory {
  import opened Options
  import opened DnsLayout
  import opened DnsSlots

  // ----- host byte order

  const ADDRESSES := 0x1_0000_0000_0000_0000

  /** Byte k of a number, the least significant one first. */
  function HostByte(v: int, k: nat): Byte
    decreases k
  {
    if k == 0 then v % 0x100 else HostByte(v / 0x100, k - 1)
  }

  function Host(v: int, n: nat): (b: seq<Byte>)
    ensures |b| == n
  {
    seq(n, k requires 0 <= k < n => HostByte(v, k))
  }

  function Little(b: seq<Byte>): (v: nat) {
    if b == [] then 0 else b[0] as int + 0x100 * Little(b[1..])
  }

  /** How many numbers fit n bytes. */
  function Range(n: nat): (r: nat)
    ensures r > 0
  {
    if n == 0 then 1 else 0x100 * Range(n - 1)
  }

  lemma Ranges()
    ensures Range(2) == 0x1_0000 && Range(4) == 0x1_0000_0000 && Range(8) == ADDRESSES
  {
    assert Range(3) == 0x100_0000;
    assert Range(5) == 0x100_0000_0000 && Range(6) == 0x1_0000_0000_0000 && Range(7) == 0x100_0000_0000_0000;
  }

  /** Reading a number in host order undoes writing it. */
  lemma {:induction false} HostRead(v: nat, n: nat)
    requires v < Range(n)
    ensures Little(Host(v, n)) == v
    decreases n
  {
    if n > 0 {
      assert Host(v, n)[1..] == Host(v / 0x100, n - 1);
      HostRead(v / 0x100, n - 1);
    }
  }

  lemma {:induction false} LittleBound(b: seq<Byte>)
    ensures Little(b) < Range(|b|)
  {
    if b != [] { LittleBound(b[1..]); }
  }

  // ----- what each byte becomes

  /** A byte stays, becomes one of a number, or one of a pointer to an offset in the buffer. */
  datatype Cell = Same | Plain(b: Byte) | Part(at: nat, k: Octet)

  /** The place of a byte in a pointer. */
  type Octet = k: nat | k < PTR_SIZE

  /** The cells that are rewritten: the configuration's fields, those of each expanded resolver, and the pointers in slots. */
  datatype Overlay = Overlay(config: seq<Cell>, resolvers: map<nat, seq<Cell>>, slots: Slots)

  /** Slots lie at multiples of the pointer size from the start of the padding on. */
  predicate OnGrid(p: nat, q: nat) {
    p <= q && (q - p) % PTR_SIZE == 0
  }

  function SlotCell(slots: Slots, p: nat, i: nat): Cell
    requires p <= i
  {
    var q := p + (i - p) / PTR_SIZE * PTR_SIZE;
    if q in slots then Part(slots[q], i - q) else Same
  }

  /** The expanded resolver in whose fields byte i lies. */
  ghost function Owner(resolvers: map<nat, seq<Cell>>, i: nat): (r: Option<nat>)
    ensures r.Some? ==> r.value in resolvers && r.value <= i < r.value + |resolvers[r.value]|
    ensures r.None? ==> forall at :: at in resolvers ==> !(at <= i < at + |resolvers[at]|)
  {
    if at: nat :| at in resolvers && at <= i < at + |resolvers[at]| then Some(at) else None
  }

  /** What byte i becomes, the padding starting at p. */
  ghost function CellAt(o: Overlay, p: nat, i: nat): Cell {
    if i < |o.config| then o.config[i]
    else if p <= i then SlotCell(o.slots, p, i)
    else match Owner(o.resolvers, i) case None => Same case Some(at) => o.resolvers[at][i - at]
  }

  function CellByte(came: Byte, base: nat, c: Cell): Byte {
    match c
    case Same => came
    case Plain(b) => b
    case Part(at, k) => HostByte(base + at, k)
  }

  /** The buffer's bytes, for a buffer at address `base` with padding from p on. */
  ghost function Image(s: seq<Byte>, base: nat, p: nat, o: Overlay): (mem: seq<Byte>)
    ensures |mem| == |s|
  {
    seq(|s|, i requires 0 <= i < |s| => CellByte(s[i], base, CellAt(o, p, i)))
  }

  // ----- the parts lie apart

  /** The fields of the resolvers do not overlap, and lie between those of the configuration and the padding. */
  ghost predicate FieldsApart(o: Overlay, p: nat) {
    && |o.config| <= p
    && (forall at :: at in o.resolvers ==> |o.config| <= at && at + |o.resolvers[at]| <= p)
    && forall a, b :: a in o.resolvers && b in o.resolvers && a < b ==> a + |o.resolvers[a]| <= b
  }

  lemma ResolverCellAt(o: Overlay, p: nat, at: nat, i: nat)
    requires FieldsApart(o, p) && at in o.resolvers && at <= i < at + |o.resolvers[at]|
    ensures CellAt(o, p, i) == o.resolvers[at][i - at]
  {
    var owner := Owner(o.resolvers, i);
    assert owner == Some(at);
  }

  lemma GridCell(p: nat, q: nat, i: nat)
    requires OnGrid(p, q) && p <= i
    ensures p + (i - p) / PTR_SIZE * PTR_SIZE == q <==> q <= i < q + PTR_SIZE
  {
    var n := (q - p) / PTR_SIZE;
    assert q == p + n * PTR_SIZE;
  }

  lemma SlotCellAt(o: Overlay, p: nat, q: nat, i: nat)
    requires |o.config| <= p && OnGrid(p, q) && q in o.slots && q <= i < q + PTR_SIZE
    ensures CellAt(o, p, i) == Part(o.slots[q], i - q)
  {
    GridCell(p, q, i);
  }

  // ----- writing

  /** The bytes with some replaced; what would lie beyond the end is lost. */
  function Patch(mem: seq<Byte>, at: nat, bs: seq<Byte>): (r: seq<Byte>)
    ensures |r| == |mem|
  {
    seq(|mem|, i requires 0 <= i < |mem| => if at <= i < at + |bs| then bs[i - at] else mem[i])
  }

  /** Writing a pointer to a slot, be it in the buffer or not. */
  lemma SlotWritten(s: seq<Byte>, base: nat, p: nat, o: Overlay, q: nat, ptr: nat)
    requires |o.config| <= p && OnGrid(p, q)
    ensures Image(s, base, p, o.(slots := o.slots[q := ptr])) == Patch(Image(s, base, p, o), q, Host(base + ptr, PTR_SIZE))
  {
    var o' := o.(slots := o.slots[q := ptr]);
    forall i | 0 <= i < |s| ensures Image(s, base, p, o')[i] == Patch(Image(s, base, p, o), q, Host(base + ptr, PTR_SIZE))[i] {
      if p <= i { GridCell(p, q, i); }
    }
  }

  /** The bytes at `at` are what the cells say. */
  ghost predicate Written(mem: seq<Byte>, s: seq<Byte>, base: nat, at: nat, cells: seq<Cell>) {
    && at + |cells| <= |mem| == |s|
    && forall i :: at <= i < at + |cells| ==> mem[i] == CellByte(s[i], base, cells[i - at])
  }

  /** Nothing but the n bytes at `at` was written. */
  ghost predicate OnlyAt(mem: seq<Byte>, mem': seq<Byte>, at: nat, n: nat) {
    |mem| == |mem'| && forall i :: 0 <= i < |mem| && !(at <= i < at + n) ==> mem'[i] == mem[i]
  }

  /** A resolver whose fields were rewritten, all of them or some. */
  lemma ResolverWritten(s: seq<Byte>, base: nat, p: nat, o: Overlay, at: nat, cells: seq<Cell>, mem: seq<Byte>)
    requires p <= |s| && FieldsApart(o, p) && FieldsApart(o.(resolvers := o.resolvers[at := cells]), p)
    requires at in o.resolvers ==> |o.resolvers[at]| == |cells|
    requires Written(mem, s, base, at, cells) && OnlyAt(Image(s, base, p, o), mem, at, |cells|)
    ensures mem == Image(s, base, p, o.(resolvers := o.resolvers[at := cells]))
  {
    var o' := o.(resolvers := o.resolvers[at := cells]);
    forall i | 0 <= i < |s| ensures mem[i] == Image(s, base, p, o')[i] {
      if at <= i < at + |cells| { ResolverCellAt(o', p, at, i); }
      else if |o.config| <= i < p { OwnerBeside(o, p, at, cells, i); }
    }
  }

  lemma OwnerBeside(o: Overlay, p: nat, at: nat, cells: seq<Cell>, i: nat)
    requires FieldsApart(o, p) && FieldsApart(o.(resolvers := o.resolvers[at := cells]), p) && !(at <= i < at + |cells|)
    requires at in o.resolvers ==> |o.resolvers[at]| == |cells|
    ensures Owner(o.resolvers[at := cells], i) == Owner(o.resolvers, i)
  {
    var r, r' := Owner(o.resolvers, i), Owner(o.resolvers[at := cells], i);
    if r.Some? { assert r.value in o.resolvers[at := cells]; }
    if r'.Some? { assert r'.value in o.resolvers; }
  }

  /** The bytes of an expanded resolver. */
  lemma ResolverIsWritten(s: seq<Byte>, base: nat, p: nat, o: Overlay, at: nat)
    requires p <= |s| && FieldsApart(o, p) && at in o.resolvers
    ensures Written(Image(s, base, p, o), s, base, at, o.resolvers[at])
  {
    forall i | at <= i < at + |o.resolvers[at]| ensures Image(s, base, p, o)[i] == CellByte(s[i], base, o.resolvers[at][i - at]) {
      ResolverCellAt(o, p, at, i);
    }
  }

  lemma SlotIsWritten(s: seq<Byte>, base: nat, p: nat, o: Overlay, q: nat)
    requires |o.config| <= p && OnGrid(p, q) && q in o.slots && q + PTR_SIZE <= |s|
    ensures Written(Image(s, base, p, o), s, base, q, PtrCells(Some(o.slots[q])))
  {
    forall i | q <= i < q + PTR_SIZE ensures CellAt(o, p, i) == PtrCells(Some(o.slots[q]))[i - q] {
      SlotCellAt(o, p, q, i);
    }
  }

  // ----- numbers and pointers

  function NumberCells(v: int, n: nat): (c: seq<Cell>)
    ensures |c| == n
  {
    seq(n, k requires 0 <= k < n => Plain(HostByte(v, k)))
  }

  function PtrCells(p: Option<nat>): (c: seq<Cell>)
    ensures |c| == PTR_SIZE
  {
    match p
    case None => NumberCells(0, PTR_SIZE)
    case Some(at) => seq(PTR_SIZE, k requires 0 <= k < PTR_SIZE => Part(at, k))
  }

  function Addr(base: nat, p: Option<nat>): nat {
    match p case None => 0 case Some(at) => base + at
  }

  lemma NumberRead(mem: seq<Byte>, s: seq<Byte>, base: nat, at: nat, v: nat, n: nat)
    requires Written(mem, s, base, at, NumberCells(v, n)) && v < Range(n)
    ensures Little(mem[at..at + n]) == v
  {
    assert mem[at..at + n] == Host(v, n);
    HostRead(v, n);
  }

  lemma PointerRead(mem: seq<Byte>, s: seq<Byte>, base: nat, at: nat, p: Option<nat>)
    requires Written(mem, s, base, at, PtrCells(p)) && Addr(base, p) < ADDRESSES
    ensures Little(mem[at..at + PTR_SIZE]) == Addr(base, p)
  {
    Ranges();
    if p == None {
      NumberRead(mem, s, base, at, 0, PTR_SIZE);
    } else {
      assert mem[at..at + PTR_SIZE] == Host(Addr(base, p), PTR_SIZE);
      HostRead(Addr(base, p), PTR_SIZE);
    }
  }

  lemma PointerWritten(mem: seq<Byte>, s: seq<Byte>, base: nat, at: nat, p: Option<nat>)
    requires at + PTR_SIZE <= |mem| == |s|
    ensures var mem' := Patch(mem, at, Host(Addr(base, p), PTR_SIZE));
            Written(mem', s, base, at, PtrCells(p)) && OnlyAt(mem, mem', at, PTR_SIZE)
  {
  }

  /** Part of what is written. */
  lemma PartWritten(mem: seq<Byte>, s: seq<Byte>, base: nat, at: nat, cells: seq<Cell>, off: nat, part: seq<Cell>)
    requires Written(mem, s, base, at, cells) && off + |part| <= |cells| && cells[off..off + |part|] == part
    ensures Written(mem, s, base, at + off, part)
  {
    forall i | at + off <= i < at + off + |part| ensures mem[i] == CellByte(s[i], base, part[i - (at + off)]) {
      assert part[i - (at + off)] == cells[off..off + |part|][i - (at + off)] == cells[i - at];
    }
  }

  /** Two parts next to each other. */
  lemma PartsWritten(mem: seq<Byte>, s: seq<Byte>, base: nat, at: nat, a: seq<Cell>, b: seq<Cell>)
    requires Written(mem, s, base, at, a) && Written(mem, s, base, at + |a|, b)
    ensures Written(mem, s, base, at, a + b)
  {
  }

  lemma StaysWritten(mem: seq<Byte>, mem': seq<Byte>, s: seq<Byte>, base: nat, at: nat, cells: seq<Cell>, q: nat, n: nat)
    requires Written(mem, s, base, at, cells) && OnlyAt(mem, mem', q, n) && (q + n <= at || at + |cells| <= q)
    ensures Written(mem', s, base, at, cells)
  {
  }
}
