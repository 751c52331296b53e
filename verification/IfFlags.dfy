/**
 The 64-bit flag word of an interface state. The word has three independent parts: the public
 bits, the difference code and the last-item bit. The model keeps the parts apart; the lemmas
 show that each operation on the parts is the masking operation on the word.
 */
module IfFlags {

  const NOT_IN_IFLIST: bv64 := 0x0020
  const PUBLIC_MASK: bv64 := 0x00ff
  const DIFF_MASK: bv64 := 0x0f00
  const LAST_ITEM: bv64 := 0x1000

  datatype Diff = Unchanged | Added | Removed | Changed | RankUp | RankDown

  datatype Flags = Flags(public: bv8, diff: Diff, last: bool)

  function DiffCode(d: Diff): bv64 {
    match d
    case Unchanged => 0
    case Added => 1
    case Removed => 2
    case Changed => 3
    case RankUp => 4
    case RankDown => 5
  }

  /** `NWI_IFSTATE_FLAGS_FROM_DIFF`: the code moved to its place in the word. */
  function DiffBits(d: Diff): bv64 {
    (DiffCode(d) << 8) & DIFF_MASK
  }

  function LastBits(last: bool): bv64 {
    if last then LAST_ITEM else 0
  }

  /** The word that the parts stand for. */
  function Word(f: Flags): bv64 {
    f.public as bv64 | DiffBits(f.diff) | LastBits(f.last)
  }

  function Public(word: bv64): bv8 {
    (word & PUBLIC_MASK) as bv8
  }

  predicate NotInIfList(f: Flags) {
    f.public & 0x20 != 0
  }

  lemma PartRanges(f: Flags)
    ensures f.public as bv64 & !0xff == 0
    ensures DiffBits(f.diff) & !0xf00 == 0 && DiffBits(f.diff) >> 8 == DiffCode(f.diff)
    ensures LastBits(f.last) & !0x1000 == 0
  {
    match f.diff
    case Unchanged =>
    case Added =>
    case Removed =>
    case Changed =>
    case RankUp =>
    case RankDown =>
  }

  /** Reading: each mask extracts its part. */
  lemma MasksReadParts(f: Flags)
    ensures Word(f) & PUBLIC_MASK == f.public as bv64
    ensures (Word(f) & DIFF_MASK) >> 8 == DiffCode(f.diff)
    ensures Word(f) & LAST_ITEM != 0 <==> f.last
    ensures Word(f) & NOT_IN_IFLIST != 0 <==> NotInIfList(f)
  {
    PartRanges(f);
    var p, d, l := f.public as bv64, DiffBits(f.diff), LastBits(f.last);
    assert NotInIfList(f) <==> p & 0x20 != 0;
  }

  /** Writing: each masked assignment replaces its part and leaves the others. */
  lemma MaskWritesPublic(f: Flags, word: bv64)
    ensures Word(f.(public := Public(word))) == (Word(f) & !PUBLIC_MASK) | (word & PUBLIC_MASK)
  {
    PartRanges(f);
    assert Public(word) as bv64 == word & PUBLIC_MASK;
  }

  lemma MaskWritesDiff(f: Flags, d: Diff)
    ensures Word(f.(diff := d)) ==
            var cleared := Word(f) & !DIFF_MASK; if d == Unchanged then cleared else cleared | DiffBits(d)
  {
    PartRanges(f);
    ReplaceMiddle(f.public as bv64, DiffBits(f.diff), LastBits(f.last), DiffBits(d));
  }

  lemma MaskSetsLast(f: Flags)
    ensures Word(f.(last := true)) == Word(f) | LAST_ITEM
  {
    PartRanges(f);
  }

  lemma MaskClearsLast(f: Flags)
    ensures Word(f.(last := false)) == Word(f) & !LAST_ITEM
  {
    PartRanges(f);
  }

  lemma ReplaceMiddle(p: bv64, d: bv64, l: bv64, e: bv64)
    requires p & !0xff == 0 && d & !0xf00 == 0 && l & !0x1000 == 0
    ensures ((p | d | l) & !0xf00) | e == p | e | l
  {
  }

}
