/** Which values a client reads as they came, although the buffer was rewritten. */
module DnsSteady {
  import opened DnsLayout
  import opened DnsDecode
  import opened DnsMemory

  /** Byte i is as it came, wherever the buffer is. */
  ghost predicate Steady(s: seq<Byte>, p: nat, o: Overlay, i: nat) {
    i < |s| && match CellAt(o, p, i) case Same => true case Plain(b) => b == s[i] case Part(_, _) => false
  }

  /** An address that a buffer of n bytes can have. */
  predicate Addressable(base: nat, n: nat) {
    0 < base && base + n < ADDRESSES
  }

  lemma SteadyByte(s: seq<Byte>, base: nat, p: nat, o: Overlay, i: nat)
    requires Steady(s, p, o, i)
    ensures Image(s, base, p, o)[i] == s[i]
  {
  }

  /** Adding one at its place makes a byte the next one. */
  lemma {:induction false} NextByte(v: nat, k: nat)
    ensures HostByte(v + Range(k), k) == (HostByte(v, k) + 1) % 0x100
    decreases k
  {
    if k > 0 {
      assert (v + Range(k)) / 0x100 == v / 0x100 + Range(k - 1);
      NextByte(v / 0x100, k - 1);
    }
  }

  lemma {:induction false} RangeGrows(k: nat, n: nat)
    requires k <= n
    ensures Range(k) <= Range(n)
  {
    if k < n { RangeGrows(k, n - 1); }
  }

  lemma ThreePlaces(at: nat, k: Octet, n: nat) returns (base1: nat, base2: nat, base3: nat)
    requires n <= BUF_MAX
    ensures Addressable(base1, n) && Addressable(base2, n) && Addressable(base3, n)
    ensures HostByte(base2 + at, k) == (HostByte(base1 + at, k) + 1) % 0x100
    ensures HostByte(base3 + at, k) == (HostByte(base2 + at, k) + 1) % 0x100
  {
    var r := Range(k);
    Ranges();
    RangeGrows(k, 7);
    assert Range(8) == 0x100 * Range(7);
    NextByte(r + at, k);
    NextByte(2 * r + at, k);
    assert r + at + r == 2 * r + at && 2 * r + at + r == 3 * r + at;
    base1, base2, base3 := r, 2 * r, 3 * r;
  }

  /** The bytes of a pointer depend on where the buffer is: for some place they differ from two given ones. */
  lemma PartVaries(at: nat, k: Octet, n: nat, x: Byte, y: Byte) returns (base: nat)
    requires n <= BUF_MAX
    ensures Addressable(base, n) && HostByte(base + at, k) != x && HostByte(base + at, k) != y
  {
    var base1, base2, base3 := ThreePlaces(at, k, n);
    var b: int := HostByte(base1 + at, k);
    base := if b != x && b != y then base1
            else if (b + 1) % 0x100 != x && (b + 1) % 0x100 != y then base2
            else base3;
  }

  /** A byte that is not steady is another one for some place of the buffer. */
  lemma UnsteadyByte(s: seq<Byte>, p: nat, o: Overlay, i: nat) returns (base: nat)
    requires i < |s| <= BUF_MAX && !Steady(s, p, o, i)
    ensures Addressable(base, |s|) && Image(s, base, p, o)[i] != s[i]
  {
    match CellAt(o, p, i)
    case Plain(_) => base := 1;
    case Part(at, k) => base := PartVaries(at, k, |s|, s[i], s[i]);
  }

  // ----- strings

  /** Where the string at q ends: at its NUL, or at the end of the buffer. */
  function TextEnd(s: seq<Byte>, q: nat): nat {
    q + |CString(s, q)|
  }

  /** The bytes from lo up to hi are as they came. */
  ghost predicate Agree(s: seq<Byte>, u: seq<Byte>, lo: nat, hi: nat) {
    hi <= |s| <= |u| && forall i :: lo <= i < hi ==> u[i] == s[i]
  }

  lemma {:induction false} SameText(s: seq<Byte>, u: seq<Byte>, q: nat)
    requires TextEnd(s, q) < |s| && Agree(s, u, q, TextEnd(s, q) + 1)
    ensures CString(u, q) == CString(s, q)
    decreases |s| - q
  {
    if q < |s| && s[q] != 0 { SameText(s, u, q + 1); }
  }

  /** A string that is read as it came ends in the buffer, at bytes as they came. */
  lemma {:induction false} TextKept(s: seq<Byte>, u: seq<Byte>, q: nat)
    requires q <= |s| < |u| && u[|s|] != 0 && CString(u, q) == CString(s, q)
    ensures TextEnd(s, q) < |s| && Agree(s, u, q, TextEnd(s, q) + 1)
    decreases |s| - q
  {
    if q < |s| && s[q] != 0 {
      assert CString(s, q)[1..] == CString(s, q + 1) && CString(u, q)[1..] == CString(u, q + 1);
      TextKept(s, u, q + 1);
    }
  }

  // ----- addresses

  // ----- values that are read as they came

  /** The buffer at `base` with what lies beyond it. */
  ghost function Space(s: seq<Byte>, base: nat, p: nat, o: Overlay, beyond: seq<Byte>): (u: seq<Byte>)
    ensures |u| == |s| + |beyond|
  {
    Image(s, base, p, o) + beyond
  }

  /** The string ends in the buffer, and all of it is steady. */
  ghost predicate TextWhole(s: seq<Byte>, p: nat, o: Overlay, q: nat) {
    TextEnd(s, q) < |s| && forall i :: q <= i <= TextEnd(s, q) ==> Steady(s, p, o, i)
  }

  /** The socket address, whose first byte is its length, ends in the buffer, and all of it is steady. */
  ghost predicate SockaddrWhole(s: seq<Byte>, p: nat, o: Overlay, q: nat) {
    && q < |s| && q + s[q] as int <= |s| && Steady(s, p, o, q)
    && forall i :: q <= i < q + s[q] as int ==> Steady(s, p, o, i)
  }

  ghost predicate SortaddrWhole(s: seq<Byte>, p: nat, o: Overlay, q: nat) {
    q + 8 <= |s| && forall i :: q <= i < q + 8 ==> Steady(s, p, o, i)
  }

  lemma SteadyAgree(s: seq<Byte>, base: nat, p: nat, o: Overlay, beyond: seq<Byte>, lo: nat, hi: nat)
    requires hi <= |s| && forall i :: lo <= i < hi ==> Steady(s, p, o, i)
    ensures Agree(s, Space(s, base, p, o, beyond), lo, hi)
  {
    forall i | lo <= i < hi ensures Space(s, base, p, o, beyond)[i] == s[i] { SteadyByte(s, base, p, o, i); }
  }

  lemma TextStays(s: seq<Byte>, base: nat, p: nat, o: Overlay, beyond: seq<Byte>, q: nat)
    requires TextWhole(s, p, o, q)
    ensures CString(Space(s, base, p, o, beyond), q) == CString(s, q)
  {
    SteadyAgree(s, base, p, o, beyond, q, TextEnd(s, q) + 1);
    SameText(s, Space(s, base, p, o, beyond), q);
  }

  lemma SockaddrStays(s: seq<Byte>, base: nat, p: nat, o: Overlay, beyond: seq<Byte>, q: nat)
    requires SockaddrWhole(s, p, o, q)
    ensures Sockaddr(Space(s, base, p, o, beyond), q) == Sockaddr(s, q)
  {
    SteadyAgree(s, base, p, o, beyond, q, q + 1);
    SteadyAgree(s, base, p, o, beyond, q, q + s[q] as int);
  }

  lemma SortaddrStays(s: seq<Byte>, base: nat, p: nat, o: Overlay, beyond: seq<Byte>, q: nat)
    requires SortaddrWhole(s, p, o, q)
    ensures Sortaddr(Space(s, base, p, o, beyond), q) == Sortaddr(s, q)
  {
    SteadyAgree(s, base, p, o, beyond, q, q + 8);
  }

  // ----- and only those

  function Beyond(): seq<Byte> {
    seq(0x100, _ => 1)
  }

  lemma AnyPlace(s: seq<Byte>)
    requires |s| <= BUF_MAX
    ensures Addressable(1, |s|)
  {
  }

  lemma UnsteadyDisagrees(s: seq<Byte>, p: nat, o: Overlay, lo: nat, hi: nat, i: nat) returns (base: nat)
    requires lo <= i < hi <= |s| <= BUF_MAX && !Steady(s, p, o, i)
    ensures Addressable(base, |s|) && !Agree(s, Space(s, base, p, o, Beyond()), lo, hi)
  {
    base := UnsteadyByte(s, p, o, i);
    assert Space(s, base, p, o, Beyond())[i] == Image(s, base, p, o)[i];
  }

  /** A range that agrees wherever the buffer is, is steady. */
  lemma AgreeIsSteady(s: seq<Byte>, p: nat, o: Overlay, lo: nat, hi: nat)
    requires hi <= |s| <= BUF_MAX
    requires forall base: nat :: Addressable(base, |s|) ==> Agree(s, Space(s, base, p, o, Beyond()), lo, hi)
    ensures forall i :: lo <= i < hi ==> Steady(s, p, o, i)
  {
    forall i | lo <= i < hi ensures Steady(s, p, o, i) {
      if !Steady(s, p, o, i) { var base := UnsteadyDisagrees(s, p, o, lo, hi, i); }
    }
  }

  lemma TextKeptIsWhole(s: seq<Byte>, p: nat, o: Overlay, q: nat)
    requires q <= |s| <= BUF_MAX
    requires forall base: nat :: Addressable(base, |s|) ==> CString(Space(s, base, p, o, Beyond()), q) == CString(s, q)
    ensures TextWhole(s, p, o, q)
  {
    forall base: nat | Addressable(base, |s|)
      ensures TextEnd(s, q) < |s| && Agree(s, Space(s, base, p, o, Beyond()), q, TextEnd(s, q) + 1)
    {
      TextKept(s, Space(s, base, p, o, Beyond()), q);
    }
    AnyPlace(s);
    AgreeIsSteady(s, p, o, q, TextEnd(s, q) + 1);
  }

  lemma SortaddrKeptIsWhole(s: seq<Byte>, p: nat, o: Overlay, q: nat)
    requires q <= |s| <= BUF_MAX
    requires forall base: nat :: Addressable(base, |s|) ==> Sortaddr(Space(s, base, p, o, Beyond()), q) == Sortaddr(s, q)
    ensures SortaddrWhole(s, p, o, q)
  {
    forall base: nat | Addressable(base, |s|) ensures q + 8 <= |s| && Agree(s, Space(s, base, p, o, Beyond()), q, q + 8) {
    }
    AnyPlace(s);
    AgreeIsSteady(s, p, o, q, q + 8);
  }

  lemma OtherLength(s: seq<Byte>, p: nat, o: Overlay, q: nat) returns (base: nat)
    requires q < |s| <= BUF_MAX && CellAt(o, p, q).Part?
    ensures Addressable(base, |s|) && Sockaddr(Space(s, base, p, o, Beyond()), q) != Sockaddr(s, q)
  {
    var c := CellAt(o, p, q);
    base := PartVaries(c.at, c.k, |s|, s[q], 0);
    var u := Space(s, base, p, o, Beyond());
    assert u[q] == HostByte(base + c.at, c.k);
    assert |Sockaddr(u, q)| == u[q];
  }

  /** The length byte must be steady: as part of a pointer it would have another value, not zero, for some place. */
  lemma LengthIsSteady(s: seq<Byte>, p: nat, o: Overlay, q: nat)
    requires q < |s| <= BUF_MAX && !CellAt(o, p, q).Plain?
    requires forall base: nat :: Addressable(base, |s|) ==> Sockaddr(Space(s, base, p, o, Beyond()), q) == Sockaddr(s, q)
    ensures Steady(s, p, o, q)
  {
    if !Steady(s, p, o, q) { var base := OtherLength(s, p, o, q); }
  }

  lemma SockaddrKeptIsWhole(s: seq<Byte>, p: nat, o: Overlay, q: nat)
    requires q <= |s| <= BUF_MAX && (q < |s| ==> !CellAt(o, p, q).Plain?)
    requires forall base: nat :: Addressable(base, |s|) ==> Sockaddr(Space(s, base, p, o, Beyond()), q) == Sockaddr(s, q)
    ensures SockaddrWhole(s, p, o, q)
  {
    if q < |s| { LengthIsSteady(s, p, o, q); }
    forall base: nat | Addressable(base, |s|)
      ensures q < |s| && q + s[q] as int <= |s| && Agree(s, Space(s, base, p, o, Beyond()), q, q + s[q] as int)
    {
      if q < |s| { SteadyByte(s, base, p, o, q); }
    }
    AnyPlace(s);
    AgreeIsSteady(s, p, o, q, q + s[q] as int);
  }
}
