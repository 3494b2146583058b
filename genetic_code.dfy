// Codon translation: the base mapper `lookup`, the genetic-code table, the
// three-letter residue names and `translate` (src/main.rs:13-98).

module GeneticCode {

  /** NCBI translation table 11 (Bacterial, Archaeal and Plant Plastid code),
      indexed by 16 * b0 + 4 * b1 + b2 with the lanes T = 0, C = 1, A = 2, G = 3,
      so TTT = 0, TTC = 1, ..., GGG = 63.  The 64 characters are the same as
      the source's one-line constant; they are written here one row per
      first base. */
  const GENETIC_CODE: string :=
    "FFLLSSSSYY**CC*W" +  // first base T
    "LLLLPPPPHHQQRRRR" +  // first base C
    "IIIMTTTTNNKKSSRR" +  // first base A
    "VVVVAAAADDEEGGGG"    // first base G

  /** Sentinel lane for a character that is not a base. */
  const ERR_BAD_NT: nat := 99

  /** The four accepted bases, in lane order: BASES[lane] is the base of that lane. */
  const BASES: string := "TCAG"

  /** Residue letter to three-letter mnemonic; ambiguity letters map to "???". */
  const ThreeLetterCode: map<char, string> := map[
    'A' := "Ala", 'B' := "???", 'C' := "Cys", 'D' := "Asp", 'E' := "Glu",
    'F' := "Phe", 'G' := "Gly", 'H' := "His", 'I' := "Ile", 'J' := "???",
    'K' := "Lys", 'L' := "Leu", 'M' := "Met", 'N' := "Asn", 'O' := "Pyr",
    'P' := "Pro", 'Q' := "Gln", 'R' := "Arg", 'S' := "Ser", 'T' := "Thr",
    'U' := "Sel", 'V' := "Val", 'W' := "Trp", 'X' := "???", 'Y' := "Tyr",
    'Z' := "???", '*' := "***"]

  datatype Translation = OneLetter | ThreeLetter

  /** A capital letter or the stop sign '*': the keys of ThreeLetterCode. */
  predicate IsResidueLetter(c: char)
  {
    'A' <= c <= 'Z' || c == '*'
  }

  /** Outcome of translation.  BadNucleotide stands for the diagnostic print of
      the lane vector followed by `process::exit(1)`. */
  datatype Result<T> = Ok(value: T) | BadNucleotide(lanes: seq<nat>)

  /** The lane of a base, or ERR_BAD_NT for any other character (case-sensitive). */
  function Lookup(x: char): (r: nat)
    ensures r < 4 <==> x in BASES
    ensures r < 4 ==> BASES[r] == x
    ensures r >= 4 ==> r == ERR_BAD_NT
  {
    match x
    case 'T' => 0
    case 'C' => 1
    case 'A' => 2
    case 'G' => 3
    case _ => ERR_BAD_NT
  }

  /** One of the four accepted bases. */
  predicate IsBase(x: char)
  {
    x in BASES
  }

  /** A codon: exactly three characters, each one of the four bases. */
  predicate IsCodon(t: string)
  {
    |t| == 3 && IsBase(t[0]) && IsBase(t[1]) && IsBase(t[2])
  }

  /** Lanes 0..3 written as one base-4 numeral have the digits they were built from. */
  lemma IndexDigits(a: nat, b: nat, c: nat)
    requires a < 4 && b < 4 && c < 4
    ensures (16 * a + 4 * b + c) / 16 == a
    ensures (16 * a + 4 * b + c) / 4 % 4 == b
    ensures (16 * a + 4 * b + c) % 4 == c
  {
  }

  /** The codon whose table index is i: the inverse of CodonIndex. */
  function CodonAt(i: nat): (t: string)
    requires i < 64
    ensures IsCodon(t)
  {
    [BASES[i / 16], BASES[i / 4 % 4], BASES[i % 4]]
  }

  /** The table index of a codon, 16 * b0 + 4 * b1 + b2. */
  function CodonIndex(t: string): (r: nat)
    requires IsCodon(t)
    ensures r < 64
    ensures CodonAt(r) == t
  {
    var a, b, c := Lookup(t[0]), Lookup(t[1]), Lookup(t[2]);
    IndexDigits(a, b, c);
    16 * a + 4 * b + c
  }

  /** Every index 0..63 is the index of exactly one codon, so the index map is
      a bijection between codons and table positions. */
  lemma CodonIndexBijection(i: nat, t: string)
    requires i < 64 && IsCodon(t)
    ensures CodonIndex(CodonAt(i)) == i
    ensures CodonAt(i) == t <==> CodonIndex(t) == i
  {
    var a, b, c := i / 16, i / 4 % 4, i % 4;
    IndexSplit(i);
    var u := CodonAt(i);
    assert Lookup(u[0]) == a && Lookup(u[1]) == b && Lookup(u[2]) == c;
  }

  /** A position below 64 is recovered from its three base-4 digits. */
  lemma IndexSplit(i: nat)
    requires i < 64
    ensures i == 16 * (i / 16) + 4 * (i / 4 % 4) + i % 4
  {
  }

  /** Facts about the table entries that the lemmas below rely on: every
      entry is a capital letter or the stop sign '*', which has a three-letter
      name. */
  lemma TableEntry(i: nat)
    requires i < 64
    ensures IsResidueLetter(GENETIC_CODE[i])
    ensures GENETIC_CODE[i] in ThreeLetterCode && |ThreeLetterCode[GENETIC_CODE[i]]| == 3
    ensures GENETIC_CODE[i] == '*' <==> i == 10 || i == 11 || i == 14
    ensures GENETIC_CODE[i] == 'M' <==> i == 35
  {
    var c := GENETIC_CODE[i];
    assert 'A' <= c <= 'Z' || c == '*';
    ThreeLetterCodeDomain(c);
    ThreeLetterNameLength(c);
  }

  /** The residue letter of a codon under table 11.  The letter always has a
      three-letter name, so the source's map lookup never panics. */
  function Residue(t: string): (r: char)
    requires IsCodon(t)
    ensures IsResidueLetter(r)
    ensures r in ThreeLetterCode && |ThreeLetterCode[r]| == 3
  {
    var i := CodonIndex(t);
    TableEntry(i);
    GENETIC_CODE[i]
  }

  /** A residue rendered in the requested code. */
  function Render(c: char, t: Translation): (r: string)
    requires c in ThreeLetterCode
    ensures |r| == if t == OneLetter then 1 else 3
  {
    match t
    case OneLetter => [c]
    case ThreeLetter => ThreeLetterCode[c]
  }

  /** Slot k of the lane vector: the lane of character k, or the sentinel
      when the triplet is shorter than that. */
  function Lane(t: string, k: nat): nat
  {
    if k < |t| then Lookup(t[k]) else ERR_BAD_NT
  }

  /** The 3-slot lane vector `translate` builds: the lanes of the characters
      present, and ERR_BAD_NT in every slot no character reached. */
  function LaneVector(t: string): (v: seq<nat>)
    requires |t| <= 3
    ensures |v| == 3
  {
    [Lane(t, 0), Lane(t, 1), Lane(t, 2)]
  }

  /** The lane vector holds the sentinel exactly when the input is not a codon. */
  lemma LaneVectorFlagsBadCodon(t: string)
    requires |t| <= 3
    ensures ERR_BAD_NT in LaneVector(t) <==> !IsCodon(t)
    ensures IsCodon(t) ==> CodonIndex(t) == 16 * LaneVector(t)[0] + 4 * LaneVector(t)[1] + LaneVector(t)[2]
  {
    var v := LaneVector(t);
    if IsCodon(t) {
      assert v[0] != ERR_BAD_NT && v[1] != ERR_BAD_NT && v[2] != ERR_BAD_NT;
    } else if |t| == 3 {
      if !IsBase(t[0]) {
        assert v[0] == ERR_BAD_NT;
      } else if !IsBase(t[1]) {
        assert v[1] == ERR_BAD_NT;
      } else {
        assert v[2] == ERR_BAD_NT;
      }
    } else {
      assert v[2] == ERR_BAD_NT;
    }
  }

  /** `translate`: fill a 3-slot lane vector from the triplet, give up if any
      slot holds the sentinel, otherwise read the residue from the table and
      render it.  More than three characters would index past the vector,
      hence the precondition. */
  method Translate(triplet: string, t: Translation) returns (r: Result<string>)
    requires |triplet| <= 3
    ensures r.BadNucleotide? <==> !IsCodon(triplet)
    ensures r.BadNucleotide? ==> r.lanes == LaneVector(triplet)
    ensures r.Ok? ==> IsCodon(triplet) && r.value == Render(Residue(triplet), t)
  {
    var codon := new nat[3](_ => ERR_BAD_NT);
    for i := 0 to |triplet|
      invariant forall k :: 0 <= k < i ==> codon[k] == Lookup(triplet[k])
      invariant forall k :: i <= k < 3 ==> codon[k] == ERR_BAD_NT
    {
      codon[i] := Lookup(triplet[i]);
    }
    assert codon[..] == LaneVector(triplet);
    LaneVectorFlagsBadCodon(triplet);
    if ERR_BAD_NT in codon[..] {
      return BadNucleotide(codon[..]);
    }
    var index := codon[0] * 16 + codon[1] * 4 + codon[2];
    assert index == CodonIndex(triplet);
    var c := GENETIC_CODE[index];
    assert c == Residue(triplet);
    match t
    case OneLetter => r := Ok([c]);
    case ThreeLetter => r := Ok(ThreeLetterCode[c]);
  }

  /** The three-letter map covers exactly the letters A..Z and '*'. */
  lemma ThreeLetterCodeDomain(c: char)
    ensures c in ThreeLetterCode <==> IsResidueLetter(c)
  {
  }

  /** Every three-letter name has three characters. */
  lemma ThreeLetterNameLength(c: char)
    requires c in ThreeLetterCode
    ensures |ThreeLetterCode[c]| == 3
  {
  }

  /** The stop signal and the letters without a single canonical amino acid. */
  lemma ThreeLetterCodeSpecialEntries()
    ensures ThreeLetterCode['*'] == "***"
    ensures ThreeLetterCode['B'] == ThreeLetterCode['J'] == ThreeLetterCode['X'] == ThreeLetterCode['Z'] == "???"
    ensures ThreeLetterCode['O'] == "Pyr" && ThreeLetterCode['U'] == "Sel"
  {
  }

  /** Exactly TAA, TAG and TGA are stop codons. */
  lemma StopCodons(t: string)
    requires IsCodon(t)
    ensures Residue(t) == '*' <==> t == "TAA" || t == "TAG" || t == "TGA"
  {
    var i := CodonIndex(t);
    TableEntry(i);
    CodonIndexBijection(10, t);
    CodonIndexBijection(11, t);
    CodonIndexBijection(14, t);
  }

  /** ATG is the only codon read as methionine: there is no start-codon
      override, so GTG stays valine wherever it occurs. */
  lemma MethionineOnlyFromAtg(t: string)
    requires IsCodon(t)
    ensures Residue(t) == 'M' <==> t == "ATG"
  {
    var i := CodonIndex(t);
    TableEntry(i);
    CodonIndexBijection(35, t);
  }

  /** Concrete codons from the table. */
  lemma KnownCodons()
    ensures IsCodon("ATG") && Residue("ATG") == 'M'
    ensures IsCodon("TTT") && Residue("TTT") == 'F'
    ensures IsCodon("GTG") && Residue("GTG") == 'V'
    ensures IsCodon("TGG") && Residue("TGG") == 'W'
  {
    assert CodonIndex("ATG") == 35;
    assert CodonIndex("TTT") == 0;
    assert CodonIndex("GTG") == 51;
    assert CodonIndex("TGG") == 15;
  }
}
