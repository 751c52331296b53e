/**
 The text for reachability flags, written into a buffer of bounded size: names while they fit, and in
 hexadecimal whatever has no name or found no room.
 */
module ReachabilityFlags {
  /** A word of 32 flags: the numbers of the bits that are set. */
  type Flags = s: set<nat> | forall bit :: bit in s ==> bit < 32

  const TRANSIENT_CONNECTION := 0
  const REACHABLE := 1
  const CONNECTION_REQUIRED := 2
  const CONNECTION_ON_TRAFFIC := 3
  const INTERVENTION_REQUIRED := 4
  const CONNECTION_ON_DEMAND := 5
  const IS_LOCAL_ADDRESS := 16
  const IS_DIRECT := 17
  const IS_WWAN := 18

  /** A bit with a name. */
  datatype Name = Name(bit: nat, text: string)

  /** The names in the order they are tried. */
  const NAMES: seq<Name> :=
    [Name(REACHABLE, "Reachable,"),
     Name(TRANSIENT_CONNECTION, "Transient Connection,"),
     Name(CONNECTION_REQUIRED, "Connection Required,"),
     Name(CONNECTION_ON_TRAFFIC, "Automatic Connection On Traffic,"),
     Name(CONNECTION_ON_DEMAND, "Automatic Connection On Demand,"),
     Name(INTERVENTION_REQUIRED, "Intervention Required,"),
     Name(IS_LOCAL_ADDRESS, "Local Address,"),
     Name(IS_DIRECT, "Directly Reachable Address,"),
     Name(IS_WWAN, "WWAN,")]

  const NOT_REACHABLE := "Not Reachable,"

  function HexDigit(d: nat): char
    requires d < 16
  {
    "0123456789abcdef"[d]
  }

  function Weight(v: Flags, bit: nat, weight: nat): nat {
    if bit in v then weight else 0
  }

  /** The value of four bits; that of the most significant ones is number 0. */
  function Nibble(v: Flags, i: nat): (r: nat)
    requires i < 8
    ensures r < 16
  {
    var low := 4 * (7 - i);
    Weight(v, low, 1) + Weight(v, low + 1, 2) + Weight(v, low + 2, 4) + Weight(v, low + 3, 8)
  }

  /** The flags in hexadecimal. */
  function Hex(v: Flags): (s: string)
    ensures |s| == 10
  {
    "0x" + seq(8, i requires 0 <= i < 8 => HexDigit(Nibble(v, i)))
  }

  /** The value of a hexadecimal digit. */
  function DigitValue(c: char): int {
    if '0' <= c <= '9' then c as int - '0' as int else if 'a' <= c <= 'f' then c as int - 'a' as int + 10 else -1
  }

  /** Read as a number, the text has just the bits of the flags, four to a digit, the most significant ones first. */
  lemma HexReadsBack(v: Flags, bit: nat)
    requires bit < 32
    ensures Hex(v)[0] == '0' && Hex(v)[1] == 'x'
    ensures var d := DigitValue(Hex(v)[9 - bit / 4]);
            0 <= d < 16 && (bit in v <==> d / [1, 2, 4, 8][bit % 4] % 2 == 1)
  {
    var i := 7 - bit / 4;
    assert Hex(v)[i + 2] == HexDigit(Nibble(v, i));
    var d := Nibble(v, i);
    DigitsRead(d);
    var low := 4 * (7 - i);
    NibbleBits(if low in v then 1 else 0, if low + 1 in v then 1 else 0, if low + 2 in v then 1 else 0, if low + 3 in v then 1 else 0);
    assert bit == low + bit % 4;
  }

  lemma DigitsRead(d: nat)
    requires d < 16
    ensures DigitValue(HexDigit(d)) == d
  {
  }

  lemma NibbleBits(a: nat, b: nat, c: nat, d: nat)
    requires a < 2 && b < 2 && c < 2 && d < 2
    ensures var n := a + 2 * b + 4 * c + 8 * d; n / 1 % 2 == a && n / 2 % 2 == b && n / 4 % 2 == c && n / 8 % 2 == d
  {
  }

  /** Flags with the same digits are the same. */
  lemma HexInjective(v: Flags, w: Flags)
    requires Hex(v) == Hex(w)
    ensures v == w
  {
    forall bit: nat ensures bit in v <==> bit in w {
      if bit < 32 {
        HexReadsBack(v, bit);
        HexReadsBack(w, bit);
      }
    }
  }

  /** The text so far, with its flags not yet named, and the names in it. */
  datatype Text = Text(str: string, remaining: Flags, named: seq<Name>)

  /** One flag: named if it is there and its name fits. */
  function Try(t: Text, name: Name, size: nat): Text {
    if name.bit in t.remaining && |t.str| < size && size - |t.str| > |name.text| + 1 then
      Text(t.str + name.text, t.remaining - {name.bit}, t.named + [name])
    else t
  }

  /** The bits that are named, and their names in a row. */
  function Bits(named: seq<Name>): set<nat> {
    set i | 0 <= i < |named| :: named[i].bit
  }

  function Joined(named: seq<Name>): string {
    if named == [] then "" else Joined(named[..|named| - 1]) + named[|named| - 1].text
  }

  /** The flags are those named and those remaining, nothing is out of bounds, and no bit is named twice. */
  ghost predicate Accounts(t: Text, head: string, flags: Flags, size: nat, names: seq<Name>) {
    && Bits(t.named) <= flags && t.remaining == flags - Bits(t.named)
    && t.str == head + Joined(t.named) && |t.str| < size
    && (forall i :: 0 <= i < |t.named| ==> t.named[i] in names)
    && forall i, j :: 0 <= i < j < |t.named| ==> t.named[i].bit != t.named[j].bit
  }

  /** The flags named one after the other. */
  function TryAll(t: Text, names: seq<Name>, size: nat): Text {
    if names == [] then t else Try(TryAll(t, names[..|names| - 1], size), names[|names| - 1], size)
  }

  lemma TryAccounts(t: Text, head: string, flags: Flags, size: nat, names: seq<Name>, name: Name)
    requires Accounts(t, head, flags, size, names)
    ensures Accounts(Try(t, name, size), head, flags, size, names + [name])
  {
    if name.bit in t.remaining {
      var all := t.named + [name];
      assert all[..|t.named|] == t.named;
      assert Bits(all) == Bits(t.named) + {name.bit} by {
        assert forall i :: 0 <= i < |t.named| ==> all[i] == t.named[i];
        assert all[|t.named|] == name;
        forall bit | bit in Bits(t.named) ensures bit in Bits(all) {
          var i :| 0 <= i < |t.named| && t.named[i].bit == bit;
          assert all[i].bit == bit;
        }
      }
      forall i | 0 <= i < |t.named| ensures t.named[i].bit != name.bit {
        assert t.named[i].bit in Bits(t.named);
      }
      assert head + (Joined(t.named) + name.text) == head + Joined(t.named) + name.text;
    }
  }

  lemma {:induction false} TryAllAccounts(head: string, flags: Flags, size: nat, names: seq<Name>)
    requires |head| < size
    ensures Accounts(TryAll(Text(head, flags, []), names, size), head, flags, size, names)
  {
    if names == [] {
      assert head + "" == head;
    } else {
      var n := |names| - 1;
      TryAllAccounts(head, flags, size, names[..n]);
      TryAccounts(TryAll(Text(head, flags, []), names[..n], size), head, flags, size, names[..n], names[n]);
      assert names[..n] + [names[n]] == names;
    }
  }

  // ----- the whole text

  /** The size that is asked for at least: that of "0x01234567 (Not Reachable)" with its end. */
  const MIN_SIZE := 27

  function NamesFor(iphone: bool): seq<Name> {
    if iphone then NAMES else NAMES[..8]
  }

  function Head(flags: Flags, debug: bool): string {
    if debug then Hex(flags) + " (" else ""
  }

  /** What is left for names; one character is kept for the closing parenthesis. */
  function Room(debug: bool, size: nat): nat
    requires size > 0
  {
    if debug then size - 1 else size
  }

  /** The text before any name. */
  function Opening(flags: Flags, debug: bool, size: nat): Text
    requires size > 0
  {
    var head, room := Head(flags, debug), Room(debug, size);
    Text(if flags == {} && |head| < room && room - |head| > |NOT_REACHABLE| + 1 then head + NOT_REACHABLE else head, flags, [])
  }

  /** The names that find room, or none at all when the rest then would not. */
  function Listed(flags: Flags, debug: bool, iphone: bool, size: nat): Text
    requires size > 0
  {
    var room := Room(debug, size);
    var t := TryAll(Opening(flags, debug, size), NamesFor(iphone), room);
    if t.remaining != {} && (|t.str| >= room || room - |t.str| <= 12) then Text(Head(flags, debug), flags, []) else t
  }

  function Listing(flags: Flags, debug: bool, iphone: bool, size: nat): string
    requires size > 0
  {
    var t := Listed(flags, debug, iphone, size);
    t.str + if t.remaining != {} then Hex(t.remaining) + "," else ""
  }

  /** The last character gives way: to nothing, or to the closing parenthesis. */
  function Closed(s: string, debug: bool): string {
    if s == "" then "" else s[..|s| - 1] + if debug then ")" else ""
  }

  function FlagsText(flags: Flags, debug: bool, iphone: bool, size: nat): string
    requires size > 0
  {
    Closed(Listing(flags, debug, iphone, size), debug)
  }

  lemma {:induction false} NoneToName(t: Text, names: seq<Name>, size: nat)
    requires t.remaining == {}
    ensures TryAll(t, names, size) == t
  {
    if names != [] { NoneToName(t, names[..|names| - 1], size); }
  }

  /**
   For flags that are not zero, and a buffer of the size asked for: the text is that of names, each given
   once, and of a number in hexadecimal, and it fits; the names are for bits that are set, and the number
   is the flags with exactly these bits cleared.
   */
  lemma NothingIsLost(flags: Flags, debug: bool, iphone: bool, size: nat)
    requires flags != {} && size >= MIN_SIZE
    ensures var t := Listed(flags, debug, iphone, size);
            && (forall i :: 0 <= i < |t.named| ==> t.named[i] in NamesFor(iphone) && t.named[i].bit in flags)
            && (forall i, j :: 0 <= i < j < |t.named| ==> t.named[i].bit != t.named[j].bit)
            && t.remaining == flags - Bits(t.named) && Bits(t.named) <= flags
            && FlagsText(flags, debug, iphone, size)
               == Closed(Head(flags, debug) + Joined(t.named) + (if t.remaining != {} then Hex(t.remaining) + "," else ""), debug)
            && |FlagsText(flags, debug, iphone, size)| < size
  {
    var head, room := Head(flags, debug), Room(debug, size);
    TryAllAccounts(head, flags, room, NamesFor(iphone));
    var t := Listed(flags, debug, iphone, size);
    assert head + "" == head;
    assert t.str == head + Joined(t.named);
    assert Bits([]) == {};
    forall i | 0 <= i < |t.named| ensures t.named[i].bit in flags { assert t.named[i].bit in Bits(t.named); }
  }

  lemma NoFlagsListing(flags: Flags, debug: bool, iphone: bool, size: nat)
    requires size >= MIN_SIZE && flags == {}
    ensures Listing(flags, debug, iphone, size)
         == Head(flags, debug) + if !debug || size >= MIN_SIZE + 2 then NOT_REACHABLE else ""
  {
    var t := Opening(flags, debug, size);
    NoneToName(t, NamesFor(iphone), Room(debug, size));
    assert t.str + "" == t.str && Head(flags, debug) + "" == Head(flags, debug);
  }

  lemma ClosedTexts(hex: string)
    requires |hex| == 10
    ensures Closed(NOT_REACHABLE, false) == "Not Reachable"
    ensures Closed(hex + " (" + NOT_REACHABLE, true) == hex + " (Not Reachable)"
    ensures Closed(hex + " (", true) == hex + " )" != hex + " (Not Reachable)"
  {
    CloseLast("Not Reachable", ',', false);
    assert NOT_REACHABLE == "Not Reachable" + [','];
    assert hex + " (" + NOT_REACHABLE == hex + " (Not Reachable" + [','];
    CloseLast(hex + " (Not Reachable", ',', true);
    assert hex + " (Not Reachable" + ")" == hex + " (Not Reachable)";
    assert hex + " (" == hex + " " + ['('];
    CloseLast(hex + " ", '(', true);
    assert hex + " " + ")" == hex + " )";
    assert |hex + " )"| == 12 && |hex + " (Not Reachable)"| == 26;
  }

  /**
   For no flags the text is the documented one exactly when the buffer is larger, by two in debug
   mode, than the size asked for: in a smaller one the opening parenthesis is lost.
   */
  lemma NoFlags(flags: Flags, debug: bool, iphone: bool, size: nat)
    requires size >= MIN_SIZE && flags == {}
    ensures FlagsText(flags, debug, iphone, size) == (if debug then Hex(flags) + " (Not Reachable)" else "Not Reachable")
            <==> !debug || size >= MIN_SIZE + 2
    ensures debug && size < MIN_SIZE + 2 ==> FlagsText(flags, debug, iphone, size) == Hex(flags) + " )"
  {
    NoFlagsListing(flags, debug, iphone, size);
    ClosedTexts(Hex(flags));
    assert "" + NOT_REACHABLE == NOT_REACHABLE && Hex(flags) + " (" + "" == Hex(flags) + " (";
  }

  lemma CloseLast(s: string, c: char, debug: bool)
    ensures Closed(s + [c], debug) == s + if debug then ")" else ""
  {
    assert (s + [c])[..|s|] == s;
  }

  // ----- the buffer

  /** The string of n characters at the start of a buffer. */
  ghost predicate Holds(buffer: array<char>, s: string)
    reads buffer
  {
    |s| < buffer.Length && buffer[..|s|] == s && buffer[|s|] == '\0'
  }

  /** Characters appended at the end of the string, with a new end. */
  method Append(buffer: array<char>, ghost s: string, n: nat, text: string)
    requires n == |s| && Holds(buffer, s) && n + |text| < buffer.Length
    modifies buffer
    ensures Holds(buffer, s + text)
  {
    for i := 0 to |text|
      invariant buffer[..n + i] == s + text[..i]
    {
      buffer[n + i] := text[i];
      assert text[..i + 1] == text[..i] + [text[i]];
      assert buffer[..n + i + 1] == buffer[..n + i] + [text[i]];
    }
    assert text[..|text|] == text;
    buffer[n + |text|] := '\0';
    assert buffer[..n + |text|] == s + text;
  }

  /** One of the conditional appends. */
  method TryAppend(buffer: array<char>, ghost t: Text, n: nat, remaining: Flags, size: nat, name: Name) returns (n': nat, remaining': Flags)
    requires size <= buffer.Length
    requires n == |t.str| && remaining == t.remaining && Holds(buffer, t.str)
    modifies buffer
    ensures var t' := Try(t, name, size);
            n' == |t'.str| && remaining' == t'.remaining && Holds(buffer, t'.str)
  {
    n', remaining' := n, remaining;
    if name.bit in remaining && n < size && size - n > |name.text| + 1 {
      Append(buffer, t.str, n, name.text);
      n', remaining' := n + |name.text|, remaining - {name.bit};
    }
  }

  /** The conditional appends of all names. */
  method AppendNames(buffer: array<char>, ghost t: Text, n: nat, remaining: Flags, size: nat, names: seq<Name>)
    returns (n': nat, remaining': Flags)
    requires size <= buffer.Length
    requires n == |t.str| && remaining == t.remaining && Holds(buffer, t.str)
    modifies buffer
    ensures var t' := TryAll(t, names, size);
            n' == |t'.str| && remaining' == t'.remaining && Holds(buffer, t'.str)
  {
    n', remaining' := n, remaining;
    for i := 0 to |names|
      invariant var t' := TryAll(t, names[..i], size);
                n' == |t'.str| && remaining' == t'.remaining && Holds(buffer, t'.str)
    {
      assert names[..i + 1][..i] == names[..i];
      n', remaining' := TryAppend(buffer, TryAll(t, names[..i], size), n', remaining', size, names[i]);
    }
    assert names[..|names|] == names;
  }

  /** What comes before any name. */
  method Open(buffer: array<char>, flags: Flags, debug: bool) returns (op: nat, n: nat)
    requires buffer.Length >= MIN_SIZE
    modifies buffer
    ensures op == |Head(flags, debug)| && n == |Opening(flags, debug, buffer.Length).str|
    ensures Holds(buffer, Opening(flags, debug, buffer.Length).str)
  {
    buffer[0] := '\0';
    var len := buffer.Length;
    n := 0;
    if debug {
      Append(buffer, "", 0, Hex(flags) + " (");
      assert "" + (Hex(flags) + " (") == Hex(flags) + " (";
      n := |Hex(flags) + " ("|;
      len := len - 1;
    }
    op := n;
    if flags == {} && n < len && len - n > |NOT_REACHABLE| + 1 {
      Append(buffer, Head(flags, debug), n, NOT_REACHABLE);
      n := n + |NOT_REACHABLE|;
    }
  }

  /** What is left over is given in hexadecimal, if need be instead of the names. */
  method AddRest(buffer: array<char>, ghost t: Text, op: nat, n: nat, rest: Flags, flags: Flags, debug: bool, len: nat) returns (n': nat)
    requires buffer.Length >= MIN_SIZE && len == Room(debug, buffer.Length) && op == |Head(flags, debug)| && (flags == {} ==> rest == {})
    requires n == |t.str| && rest == t.remaining && Holds(buffer, t.str) && Head(flags, debug) <= t.str
    modifies buffer
    ensures var u := if t.remaining != {} && (|t.str| >= len || len - |t.str| <= 12) then Text(Head(flags, debug), flags, []) else t;
            var s := u.str + if u.remaining != {} then Hex(u.remaining) + "," else "";
            n' == |s| && Holds(buffer, s)
  {
    n' := n;
    if rest != {} {
      if n >= len || len - n <= 12 {
        Truncate(buffer, t.str, op, Head(flags, debug));
        Append(buffer, Head(flags, debug), op, Hex(flags) + ",");
        n' := op + |Hex(flags) + ","|;
      } else {
        Append(buffer, t.str, n, Hex(rest) + ",");
        n' := n + |Hex(rest) + ","|;
      }
    } else {
      assert t.str + "" == t.str;
    }
  }

  /** `__SCNetworkReachability_flags_string` */
  method FlagsString(flags: Flags, debug: bool, iphone: bool, buffer: array<char>)
    requires buffer.Length >= MIN_SIZE
    modifies buffer
    ensures Holds(buffer, FlagsText(flags, debug, iphone, buffer.Length))
  {
    var op, n := Open(buffer, flags, debug);
    var len, rest := if debug then buffer.Length - 1 else buffer.Length, flags;
    ghost var opening := Opening(flags, debug, buffer.Length);
    n, rest := AppendNames(buffer, opening, n, rest, len, NamesFor(iphone));
    HeadStays(opening, NamesFor(iphone), len);
    if flags == {} { NoneToName(opening, NamesFor(iphone), len); }
    n := AddRest(buffer, TryAll(opening, NamesFor(iphone), len), op, n, rest, flags, debug, len);
    Close(buffer, Listing(flags, debug, iphone, buffer.Length), n, debug);
  }

  lemma {:induction false} HeadStays(t: Text, names: seq<Name>, size: nat)
    ensures t.str <= TryAll(t, names, size).str
  {
    if names != [] { HeadStays(t, names[..|names| - 1], size); }
  }

  /** The string cut back to its first part. */
  method Truncate(buffer: array<char>, ghost s: string, op: nat, ghost head: string)
    requires Holds(buffer, s) && head <= s && op == |head|
    modifies buffer
    ensures Holds(buffer, head)
  {
    buffer[op] := '\0';
    assert buffer[..op] == s[..op];
  }

  method Close(buffer: array<char>, ghost s: string, n: nat, debug: bool)
    requires Holds(buffer, s) && n == |s|
    modifies buffer
    ensures Holds(buffer, Closed(s, debug))
  {
    if n == 0 {
    } else if !debug {
      buffer[n - 1] := '\0';
      assert buffer[..n - 1] == s[..n - 1];
    } else {
      buffer[n - 1] := ')';
      assert buffer[..n] == s[..n - 1] + ")";
    }
  }
}
