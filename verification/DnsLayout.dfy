/** The bytes of a DNS configuration: network-order numbers, structure offsets, attribute records. */
module DnsLayout {
  import opened Options

  type Byte = b: int | 0 <= b < 256

  type Word = w: int | 0 <= w < 0x1_0000_0000

  const BUF_MAX := 0x10_0000

  /** `sizeof` of a list slot: a pointer held in a 64-bit union. */
  const PTR_SIZE := 8

  /** `sizeof(dns_attribute_t)`: type and length. */
  const ATTRIBUTE_SIZE := 8

  // ----- dns_config_t, then the byte counts of the attributes and the padding

  const N_RESOLVER := 0
  const RESOLVER := 4
  const N_SCOPED_RESOLVER := 12
  const SCOPED_RESOLVER := 16
  const GENERATION := 24
  const N_SERVICE_SPECIFIC_RESOLVER := 32
  const SERVICE_SPECIFIC_RESOLVER := 36
  const VERSION := 44
  const CONFIG_N_ATTRIBUTE := 48
  const CONFIG_N_PADDING := 52
  const CONFIG_SIZE := 56

  // ----- dns_resolver_t, then the byte count of its attributes

  const DOMAIN := 0
  const N_NAMESERVER := 8
  const NAMESERVER := 12
  const PORT := 20
  const N_SEARCH := 24
  const SEARCH := 28
  const N_SORTADDR := 36
  const SORTADDR := 40
  const OPTIONS := 48
  const TIMEOUT := 56
  const SEARCH_ORDER := 60
  const IF_INDEX := 64
  const FLAGS := 68
  const REACH_FLAGS := 72
  const SERVICE_IDENTIFIER := 76
  const CID := 80
  const IF_NAME := 88
  const RESOLVER_N_ATTRIBUTE := 96
  const RESOLVER_SIZE := 100

  // ----- attribute types

  const CONFIG_RESOLVER := 1
  const CONFIG_SCOPED_RESOLVER := 2
  const CONFIG_SERVICE_SPECIFIC_RESOLVER := 3

  const RESOLVER_DOMAIN := 10
  const RESOLVER_ADDRESS := 11
  const RESOLVER_SEARCH := 12
  const RESOLVER_SORTADDR := 13
  const RESOLVER_OPTIONS := 14
  const RESOLVER_CONFIGURATION_ID := 15
  const RESOLVER_INTERFACE_NAME := 16

  // ----- network byte order

  function Get16(s: seq<Byte>, at: nat): int
    requires at + 2 <= |s|
  {
    s[at] as int * 0x100 + s[at + 1]
  }

  function Get32(s: seq<Byte>, at: nat): Word
    requires at + 4 <= |s|
  {
    ((s[at] as int * 0x100 + s[at + 1]) * 0x100 + s[at + 2]) * 0x100 + s[at + 3]
  }

  /** Byte i of a number of four bytes, the most significant first. */
  function Digit(v: Word, i: nat): Byte
    requires i < 4
  {
    if i == 0 then v / 0x100_0000
    else if i == 1 then v / 0x1_0000 % 0x100
    else if i == 2 then v / 0x100 % 0x100
    else v % 0x100
  }

  function Put16(v: int): (s: seq<Byte>)
    requires 0 <= v < 0x1_0000
    ensures |s| == 2
  {
    seq(2, i requires 0 <= i < 2 => Digit(v, i + 2))
  }

  function Put32(v: Word): (s: seq<Byte>)
    ensures |s| == 4
  {
    seq(4, i requires 0 <= i < 4 => Digit(v, i))
  }

  /** The bytes b lie in s from position `at` on. */
  predicate Holds(s: seq<Byte>, at: nat, b: seq<Byte>) {
    at + |b| <= |s| && s[at..at + |b|] == b
  }

  lemma HoldsParts(s: seq<Byte>, at: nat, a: seq<Byte>, b: seq<Byte>)
    requires Holds(s, at, a + b)
    ensures Holds(s, at, a) && Holds(s, at + |a|, b)
  {
    assert s[at..at + |a|] == (a + b)[..|a|];
    assert s[at + |a|..at + |a| + |b|] == (a + b)[|a|..];
  }

  lemma HoldsSlice(s: seq<Byte>, at: nat, b: seq<Byte>, i: nat, j: nat)
    requires Holds(s, at, b) && i <= j <= |b|
    ensures s[at + i..at + j] == b[i..j]
  {
    forall k | i <= k < j ensures s[at + k] == b[k] {
    }
  }

  /** Reading a number undoes writing it. */
  lemma Holds32(s: seq<Byte>, at: nat, v: Word)
    requires Holds(s, at, Put32(v))
    ensures Get32(s, at) == v
  {
    var b := Put32(v);
  }

  lemma Holds16(s: seq<Byte>, at: nat, v: int)
    requires 0 <= v < 0x1_0000 && Holds(s, at, Put16(v))
    ensures Get16(s, at) == v
  {
    var b := Put16(v);
  }

  // ----- attribute records

  /** An attribute by its place: its type, where it starts, and its length with the 8-byte head. */
  datatype Attr = Attr(kind: Word, at: nat, length: Word) {
    function Payload(): nat {
      at + ATTRIBUTE_SIZE
    }
  }

  /** The lengths lead from lo to within 8 bytes of hi, each at least 8. */
  predicate WellFormed(s: seq<Byte>, lo: nat, hi: nat)
    requires lo <= hi <= |s|
    decreases hi - lo
  {
    hi - lo < ATTRIBUTE_SIZE
    || (ATTRIBUTE_SIZE <= Get32(s, lo + 4) <= hi - lo && WellFormed(s, lo + Get32(s, lo + 4), hi))
  }

  function Attrs(s: seq<Byte>, lo: nat, hi: nat): seq<Attr>
    requires lo <= hi <= |s| && WellFormed(s, lo, hi)
    decreases hi - lo
  {
    if hi - lo < ATTRIBUTE_SIZE then []
    else [Attr(Get32(s, lo), lo, Get32(s, lo + 4))] + Attrs(s, lo + Get32(s, lo + 4), hi)
  }

  /** Attributes lie in order, between lo and hi, without overlap. */
  ghost predicate Laid(attrs: seq<Attr>, lo: nat, hi: nat) {
    && (forall i :: 0 <= i < |attrs| ==> lo <= attrs[i].at && ATTRIBUTE_SIZE <= attrs[i].length && attrs[i].at + attrs[i].length <= hi)
    && forall i, j :: 0 <= i < j < |attrs| ==> attrs[i].at + attrs[i].length <= attrs[j].at
  }

  lemma {:induction false} AttrsLaid(s: seq<Byte>, lo: nat, hi: nat)
    requires lo <= hi <= |s| && WellFormed(s, lo, hi)
    ensures Laid(Attrs(s, lo, hi), lo, hi)
    decreases hi - lo
  {
    if hi - lo >= ATTRIBUTE_SIZE {
      var a := Attr(Get32(s, lo), lo, Get32(s, lo + 4));
      AttrsLaid(s, lo + a.length, hi);
      LaidCons(a, Attrs(s, lo + a.length, hi), lo + a.length, hi);
    }
  }

  lemma LaidCons(a: Attr, rest: seq<Attr>, next: nat, hi: nat)
    requires Laid(rest, next, hi) && ATTRIBUTE_SIZE <= a.length && a.at + a.length == next <= hi
    ensures Laid([a] + rest, a.at, hi)
  {
  }

  /** The payload addresses of the attributes of one type, in order. */
  function PtrsOf(attrs: seq<Attr>, kind: Word): (r: seq<nat>)
    ensures |r| <= |attrs|
  {
    if attrs == [] then []
    else
      var n := |attrs| - 1;
      var r := PtrsOf(attrs[..n], kind);
      if attrs[n].kind == kind then r + [attrs[n].Payload()] else r
  }

  /** The payload address of the last attribute of a type, if there is one. */
  function LastOf(attrs: seq<Attr>, kind: Word): Option<nat> {
    if attrs == [] then None
    else
      var n := |attrs| - 1;
      if attrs[n].kind == kind then Some(attrs[n].Payload()) else LastOf(attrs[..n], kind)
  }

  lemma {:induction false} PtrsOfConcat(a: seq<Attr>, b: seq<Attr>, kind: Word)
    ensures PtrsOf(a + b, kind) == PtrsOf(a, kind) + PtrsOf(b, kind)
  {
    if b == [] {
      assert a + b == a;
    } else {
      var n := |b| - 1;
      assert (a + b)[..|a| + n] == a + b[..n];
      PtrsOfConcat(a, b[..n], kind);
    }
  }

  lemma PtrsOfNext(a: seq<Attr>, x: Attr, kind: Word)
    ensures PtrsOf(a + [x], kind) == if x.kind == kind then PtrsOf(a, kind) + [x.Payload()] else PtrsOf(a, kind)
    ensures LastOf(a + [x], kind) == if x.kind == kind then Some(x.Payload()) else LastOf(a, kind)
  {
    assert (a + [x])[..|a|] == a;
  }
}
