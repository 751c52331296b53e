/** The text for reachability flags says which flags are set: no two words of flags have the same text. */
module ReachabilityReading {
  import opened ReachabilityFlags

  /** One word of the text: its only comma is the last character. */
  ghost predicate IsWord(w: string) {
    w != "" && w[|w| - 1] == ',' && forall k :: 0 <= k < |w| - 1 ==> w[k] != ','
  }

  ghost predicate AllWords(words: seq<string>) {
    forall i :: 0 <= i < |words| ==> IsWord(words[i])
  }

  function Row(words: seq<string>): string {
    if words == [] then "" else Row(words[..|words| - 1]) + words[|words| - 1]
  }

  /** A word after a comma, or alone, is no shorter than another word that the same string ends in. */
  lemma WordIsAsLong(s: string, p: string, la: string, q: string, lb: string)
    requires s == p + la == q + lb && IsWord(la) && IsWord(lb) && (p == "" || p[|p| - 1] == ',')
    ensures |la| >= |lb|
  {
    assert p == "" || s[|p| - 1] == ',';
  }

  lemma {:induction false} RowEnds(words: seq<string>)
    requires AllWords(words)
    ensures words == [] <==> Row(words) == ""
    ensures words != [] ==> Row(words)[|Row(words)| - 1] == ','
  {
    if words != [] { assert IsWord(words[|words| - 1]); }
  }

  /** A row can be divided into its words in one way only. */
  lemma {:induction false} RowInjective(a: seq<string>, b: seq<string>)
    requires AllWords(a) && AllWords(b) && Row(a) == Row(b)
    ensures a == b
  {
    RowEnds(a);
    RowEnds(b);
    if a != [] && b != [] {
      var ia, ib, la, lb := a[..|a| - 1], b[..|b| - 1], a[|a| - 1], b[|b| - 1];
      RowEnds(ia);
      RowEnds(ib);
      assert IsWord(la) && IsWord(lb);
      WordIsAsLong(Row(a), Row(ia), la, Row(ib), lb);
      WordIsAsLong(Row(a), Row(ib), lb, Row(ia), la);
      SameEnds(Row(ia), la, Row(ib), lb);
      RowInjective(ia, ib);
      assert a == ia + [la] && b == ib + [lb];
    }
  }

  lemma SameEnds(p: string, x: string, q: string, y: string)
    requires p + x == q + y && |x| == |y|
    ensures p == q && x == y
  {
    assert p == (p + x)[..|p|] && q == (q + y)[..|q|];
    assert x == (p + x)[|p|..] && y == (q + y)[|q|..];
  }

  // ----- the words

  lemma NamesAreWords(i: nat)
    requires i < |NAMES|
    ensures IsWord(NAMES[i].text)
  {
    LongNames();
  }

  lemma LongNames()
    ensures IsWord(NAMES[1].text) && IsWord(NAMES[2].text) && IsWord(NAMES[5].text) && IsWord(NAMES[7].text)
  {
  }

  /** The names can be told apart by their lengths, from numbers, too. */
  lemma LengthsDiffer()
    ensures |NOT_REACHABLE| != 11
    ensures forall i :: 0 <= i < |NAMES| ==> |NAMES[i].text| != 11
    ensures forall i, j :: 0 <= i < j < |NAMES| ==> |NAMES[i].text| != |NAMES[j].text|
  {
  }

  // ----- from the words to the flags

  /** A word says that a bit is set: its name does, or a number with this bit. */
  ghost predicate Says(word: string, bit: nat) {
    || (exists i :: 0 <= i < |NAMES| && NAMES[i].text == word && NAMES[i].bit == bit)
    || (exists v: Flags :: Hex(v) + "," == word && bit in v)
  }

  lemma NameSays(name: Name, bit: nat)
    requires name in NAMES
    ensures Says(name.text, bit) <==> bit == name.bit
  {
    LengthsDiffer();
    var k :| 0 <= k < |NAMES| && NAMES[k] == name;
  }

  lemma NumberSays(v: Flags, bit: nat)
    ensures Says(Hex(v) + ",", bit) <==> bit in v
  {
    LengthsDiffer();
    forall w: Flags | Hex(w) + "," == Hex(v) + "," ensures w == v {
      SameEnds(Hex(w), ",", Hex(v), ",");
      HexInjective(w, v);
    }
  }

  lemma NotReachableSaysNothing(bit: nat)
    ensures !Says(NOT_REACHABLE, bit)
  {
    LengthsDiffer();
    assert NAMES[6].text[0] == 'L' && NOT_REACHABLE[0] == 'N';
    assert forall i :: 0 <= i < |NAMES| && i != 6 ==> |NAMES[i].text| != 14;
  }

  // ----- the text

  function TextsOf(named: seq<Name>): seq<string> {
    seq(|named|, i requires 0 <= i < |named| => named[i].text)
  }

  /** The words of a text: the names, then the number. */
  function WordsOf(t: Text): seq<string> {
    TextsOf(t.named) + if t.remaining != {} then [Hex(t.remaining) + ","] else []
  }

  /** The words for flags; for none there is one that says nothing. */
  function Words(flags: Flags, iphone: bool, size: nat): seq<string>
    requires size > 0
  {
    if flags == {} then [NOT_REACHABLE] else WordsOf(Listed(flags, false, iphone, size))
  }

  lemma RowNext(words: seq<string>, word: string)
    ensures Row(words + [word]) == Row(words) + word
  {
    assert (words + [word])[..|words|] == words;
  }

  lemma {:induction false} RowOfNames(named: seq<Name>)
    ensures Row(TextsOf(named)) == Joined(named)
  {
    if named != [] {
      var n := |named| - 1;
      RowOfNames(named[..n]);
      assert TextsOf(named)[..n] == TextsOf(named[..n]);
    }
  }

  lemma RowOfWords(t: Text)
    ensures Row(WordsOf(t)) == Joined(t.named) + if t.remaining != {} then Hex(t.remaining) + "," else ""
  {
    var names := TextsOf(t.named);
    RowOfNames(t.named);
    if t.remaining != {} { RowNext(names, Hex(t.remaining) + ","); }
    else { assert names + [] == names && Row(names) + "" == Row(names); }
  }

  lemma WordsSay(t: Text, bit: nat)
    requires forall i :: 0 <= i < |t.named| ==> t.named[i] in NAMES
    ensures AllWords(WordsOf(t))
    ensures bit in Bits(t.named) + t.remaining <==> exists i :: 0 <= i < |WordsOf(t)| && Says(WordsOf(t)[i], bit)
  {
    var words, n := WordsOf(t), |t.named|;
    forall i | 0 <= i < |words| ensures IsWord(words[i]) {
      if i < n {
        var k :| 0 <= k < |NAMES| && NAMES[k] == t.named[i];
        NamesAreWords(k);
      } else {
      }
    }
    forall i | 0 <= i < |words| ensures Says(words[i], bit) <==> if i < n then bit == t.named[i].bit else bit in t.remaining {
      if i < n { NameSays(t.named[i], bit); } else { NumberSays(t.remaining, bit); }
    }
    if bit in Bits(t.named) {
      var i :| 0 <= i < n && t.named[i].bit == bit;
      assert Says(words[i], bit);
    } else if bit in t.remaining {
      assert Says(words[n], bit);
    }
  }

  /** A word of the text says a bit exactly when it is set. */
  lemma FlagsAreSaid(flags: Flags, iphone: bool, size: nat, bit: nat)
    requires size >= MIN_SIZE
    ensures AllWords(Words(flags, iphone, size))
    ensures bit in flags <==> exists i :: 0 <= i < |Words(flags, iphone, size)| && Says(Words(flags, iphone, size)[i], bit)
  {
    if flags == {} {
      NotReachableSaysNothing(bit);
    } else {
      NothingIsLost(flags, false, iphone, size);
      var t := Listed(flags, false, iphone, size);
      NamedInTable(t.named, iphone);
      WordsSay(t, bit);
    }
  }

  lemma NamedInTable(named: seq<Name>, iphone: bool)
    requires forall i :: 0 <= i < |named| ==> named[i] in NamesFor(iphone)
    ensures forall i :: 0 <= i < |named| ==> named[i] in NAMES
  {
  }

  lemma ListingIsRow(flags: Flags, iphone: bool, size: nat)
    requires size >= MIN_SIZE
    ensures Listing(flags, false, iphone, size) == Row(Words(flags, iphone, size)) && Words(flags, iphone, size) != []
  {
    if flags == {} {
      NoFlagsListing(flags, false, iphone, size);
      RowNext([], NOT_REACHABLE);
      assert [] + [NOT_REACHABLE] == [NOT_REACHABLE] && Row([]) + NOT_REACHABLE == NOT_REACHABLE;
      assert "" + NOT_REACHABLE == NOT_REACHABLE;
    } else {
      var t := Listed(flags, false, iphone, size);
      TryAllAccounts("", flags, size, NamesFor(iphone));
      RowOfWords(t);
      assert "" + Joined(t.named) == Joined(t.named);
      assert t.remaining == {} ==> t.named != [];
    }
  }

  lemma ClosedComma(s: string)
    requires s != "" && s[|s| - 1] == ','
    ensures Closed(s, false) + "," == s
  {
    assert s == s[..|s| - 1] + ",";
  }

  /** The text is the row of its words, without the last comma. */
  lemma TextIsRow(flags: Flags, iphone: bool, size: nat)
    requires size >= MIN_SIZE
    ensures FlagsText(flags, false, iphone, size) + "," == Row(Words(flags, iphone, size))
  {
    FlagsAreSaid(flags, iphone, size, 0);
    ListingIsRow(flags, iphone, size);
    RowEnds(Words(flags, iphone, size));
    ClosedComma(Listing(flags, false, iphone, size));
  }

  /** In debug mode the text begins with the number. */
  lemma DebugBegins(flags: Flags, iphone: bool, size: nat)
    requires size >= MIN_SIZE
    ensures Hex(flags) <= FlagsText(flags, true, iphone, size)
  {
    HeadStays(Opening(flags, true, size), NamesFor(iphone), Room(true, size));
  }

  /** Different flags have different texts, whatever the platforms and the sizes of the buffers. */
  lemma TextDeterminesFlags(f: Flags, g: Flags, debug: bool, iphone: bool, iphone': bool, size: nat, size': nat)
    requires size >= MIN_SIZE && size' >= MIN_SIZE
    requires FlagsText(f, debug, iphone, size) == FlagsText(g, debug, iphone', size')
    ensures f == g
  {
    if debug {
      DebugBegins(f, iphone, size);
      DebugBegins(g, iphone', size');
      HexInjective(f, g);
    } else {
      TextIsRow(f, iphone, size);
      TextIsRow(g, iphone', size');
      FlagsAreSaid(f, iphone, size, 0);
      FlagsAreSaid(g, iphone', size', 0);
      RowInjective(Words(f, iphone, size), Words(g, iphone', size'));
      forall bit: nat ensures bit in f <==> bit in g {
        FlagsAreSaid(f, iphone, size, bit);
        FlagsAreSaid(g, iphone', size', bit);
      }
    }
  }
}
