// The paginator `print_seq` and its digit counter `count_digits`
// (src/main.rs:100-144).  Instead of printing, `print_seq` returns what it
// would print: the width every line number is zero-padded to, and per line
// the number and the slice of the sequence it shows.

module Pagination {
  import opened GeneticCode
  import opened Peptide

  /** Characters per printed line. */
  const LINE_LEN: nat := 72

  /** What is being printed: bases, one-letter residues or three-letter residues. */
  datatype SeqType = DNA | Protein1 | Protein3

  /** One printed line: its number, then `text`. */
  datatype Line = Line(number: nat, text: string)

  /** Rust's `u16`. */
  newtype u16 = x: int | 0 <= x < 0x1_0000

  /** Rust's `as u16` on a length: only the low 16 bits are kept. */
  function AsU16(n: nat): (r: u16)
    ensures n < 0x1_0000 ==> r as nat == n
  {
    (n % 0x1_0000) as u16
  }

  /** Line numbers count characters, except for three-letter peptides, where
      they count residues of three characters each. */
  function Divisor(t: SeqType): (d: nat)
    ensures d == 1 || d == 3
    ensures d == 3 <==> t == Protein3
  {
    match t
    case DNA | Protein1 => 1
    case Protein3 => 3
  }

  function Pow10(k: nat): (r: nat)
    ensures r >= 1
  {
    if k == 0 then 1 else 10 * Pow10(k - 1)
  }

  /** The number of decimal digits of n, with 0 written as one digit. */
  function NumDigits(n: nat): (d: nat)
    ensures d >= 1
  {
    if n < 10 then 1 else 1 + NumDigits(n / 10)
  }

  /** NumDigits(n) is the length of n's decimal numeral: the unique d with
      10^(d-1) <= n < 10^d, and 1 for zero. */
  lemma {:induction false} NumDigitsIsDecimalLength(n: nat)
    ensures n == 0 ==> NumDigits(n) == 1
    ensures n > 0 ==> Pow10(NumDigits(n) - 1) <= n < Pow10(NumDigits(n))
  {
    if n >= 10 {
      NumDigitsIsDecimalLength(n / 10);
    }
  }

  /** A larger number never has fewer digits. */
  lemma {:induction false} NumDigitsMonotone(a: nat, b: nat)
    requires a <= b
    ensures NumDigits(a) <= NumDigits(b)
  {
    if a >= 10 {
      NumDigitsMonotone(a / 10, b / 10);
    }
  }

  /** Any u16 has between one and five digits. */
  lemma NumDigitsOfU16(n: u16)
    ensures 1 <= NumDigits(n as nat) <= 5
  {
    NumDigitsMonotone(n as nat, 65535);
    assert NumDigits(65535) == 5;
  }

  /** `count_digits`: divide by ten until zero, counting the divisions that
      leave at least one. */
  method CountDigits(n: u16) returns (digits: nat)
    ensures digits == NumDigits(n as nat)
    ensures 1 <= digits <= 5
  {
    var m := n;
    digits := 1;
    while m > 0
      invariant digits >= 1
      invariant (if m == 0 then digits else digits - 1 + NumDigits(m as nat)) == NumDigits(n as nat)
    {
      m := m / 10;
      if m >= 1 {
        digits := digits + 1;
      }
    }
    NumDigitsOfU16(n);
  }

  function Min(a: nat, b: nat): nat
  {
    if a <= b then a else b
  }

  /** Counting whole lines and one more for a remainder gives the same count. */
  lemma LineCountByRemainder(len: nat)
    ensures LineCount(len) == len / LINE_LEN + (if len % LINE_LEN != 0 then 1 else 0)
  {
  }

  /** The fewest lines of LINE_LEN characters that hold len characters. */
  function LineCount(len: nat): (n: nat)
    ensures LINE_LEN * n >= len
    ensures n > 0 ==> LINE_LEN * (n - 1) < len
  {
    (len + LINE_LEN - 1) / LINE_LEN
  }

  /** Line i of a listing: the i-th block of LINE_LEN characters (the last may
      be shorter), numbered by its first character, or by its first residue
      for three-letter peptides, counting from one. */
  function PageLine(s: string, t: SeqType, i: nat): (r: Line)
    requires LINE_LEN * i < |s|
    ensures r.number >= 1
    ensures 0 < |r.text| <= LINE_LEN
    ensures LINE_LEN * i + |r.text| <= |s|
    ensures |r.text| == LINE_LEN || LINE_LEN * i + |r.text| == |s|
    ensures r.text == s[LINE_LEN * i..LINE_LEN * i + |r.text|]
  {
    var start := LINE_LEN * i;
    Line(LineNumber(t, start), s[start..Min(start + LINE_LEN, |s|)])
  }

  /** The number printed for a line starting at character `start`.  Each
      case divides by a literal rather than by Divisor(t): the verifier
      handles division by a constant far more cheaply. */
  function LineNumber(t: SeqType, start: nat): (r: nat)
    ensures r == start / Divisor(t) + 1
  {
    match t
    case DNA | Protein1 => start + 1
    case Protein3 => start / 3 + 1
  }

  /** The width line numbers are zero-padded to: the digit count of the
      length, truncated to 16 bits first. */
  function NumberWidth(len: nat): (w: nat)
    ensures 1 <= w <= 5
    ensures len < 0x1_0000 ==> w == NumDigits(len)
  {
    NumDigitsOfU16(AsU16(len));
    NumDigits(AsU16(len) as nat)
  }

  /** The lines `print_seq` prints for s. */
  function Pages(s: string, t: SeqType): (lines: seq<Line>)
    ensures |lines| == LineCount(|s|)
  {
    var n := LineCount(|s|);
    seq(n, i requires 0 <= i < n => PageLine(s, t, i))
  }

  /** `print_seq`: count the lines (one more for a remainder), then cut each
      line out of s, clamping its end to the length of s.  The padding width
      does not depend on the line, so it is returned once. */
  method PrintSeq(s: string, t: SeqType) returns (width: nat, lines: seq<Line>)
    ensures width == NumberWidth(|s|)
    ensures lines == Pages(s, t)
  {
    var lineLen := LINE_LEN;
    var divisor := Divisor(t);
    var nlines := |s| / lineLen;
    if |s| % lineLen != 0 {
      nlines := nlines + 1;
    }
    LineCountByRemainder(|s|);
    width := CountDigits(AsU16(|s|));
    lines := [];
    for i := 0 to nlines
      invariant lines == Pages(s, t)[..i]
    {
      var start := i * lineLen;
      var end := i * lineLen + lineLen;
      if end > |s| {
        end := |s|;
      }
      assert start < |s| by {
        assert LINE_LEN * i < |s|;
      }
      assert end == Min(start + LINE_LEN, |s|);
      var myline := s[start..end];
      assert start / divisor + 1 == LineNumber(t, start);
      assert Line(start / divisor + 1, myline) == PageLine(s, t, i);
      PagesPrefix(s, t, i);
      lines := lines + [Line(start / divisor + 1, myline)];
    }
    assert Pages(s, t)[..nlines] == Pages(s, t);
  }

  /** The first i + 1 lines are the first i lines and line i. */
  lemma PagesPrefix(s: string, t: SeqType, i: nat)
    requires i < LineCount(|s|)
    ensures Pages(s, t)[..i + 1] == Pages(s, t)[..i] + [PageLine(s, t, i)]
  {
  }

  /** The texts of a listing, concatenated. */
  function Joined(lines: seq<Line>): string
  {
    if lines == [] then [] else Joined(lines[..|lines| - 1]) + lines[|lines| - 1].text
  }

  /** The first k lines hold exactly the first 72 * k characters (or all of s). */
  lemma {:induction false} JoinedPrefix(s: string, t: SeqType, k: nat)
    requires k <= LineCount(|s|)
    ensures Joined(Pages(s, t)[..k]) == s[..Min(LINE_LEN * k, |s|)]
  {
    if k > 0 {
      var p := Pages(s, t);
      var start := LINE_LEN * (k - 1);
      assert p[..k][..k - 1] == p[..k - 1];
      assert Joined(p[..k]) == Joined(p[..k - 1]) + p[k - 1].text;
      JoinedPrefix(s, t, k - 1);
      assert start < |s| && Min(start, |s|) == start;
      assert p[k - 1] == PageLine(s, t, k - 1);
      PrefixExtend(s, start, Min(LINE_LEN * k, |s|));
    }
  }

  /** A prefix followed by the next slice is the longer prefix. */
  lemma PrefixExtend(s: string, i: nat, j: nat)
    requires i <= j <= |s|
    ensures s[..i] + s[i..j] == s[..j]
  {
  }

  /** Concatenating the lines of a listing gives back the whole sequence. */
  lemma PagesRoundTrip(s: string, t: SeqType)
    ensures Joined(Pages(s, t)) == s
  {
    var p := Pages(s, t);
    JoinedPrefix(s, t, |p|);
    assert p[..|p|] == p;
  }

  /** Every line is full except the last, which holds between one and
      LINE_LEN characters. */
  lemma PagesLineLengths(s: string, t: SeqType)
    ensures var p := Pages(s, t);
      && (forall i :: 0 <= i < |p| - 1 ==> |p[i].text| == LINE_LEN)
      && (|p| > 0 ==> 0 < |p[|p| - 1].text| <= LINE_LEN)
  {
    var p := Pages(s, t);
    forall i | 0 <= i < |p| - 1
      ensures |p[i].text| == LINE_LEN
    {
      assert LINE_LEN * (i + 1) <= LINE_LEN * (|p| - 1);
    }
  }

  /** A line is numbered by the position of its first character, counting
      from one, or for three-letter peptides by the position of its first
      residue. */
  lemma PagesNumbering(s: string, t: SeqType)
    ensures var p := Pages(s, t);
      && (forall i :: 0 <= i < |p| && t != Protein3 ==> p[i].number == LINE_LEN * i + 1 && p[i].text[0] == s[p[i].number - 1])
      && (forall i :: 0 <= i < |p| && t == Protein3 ==> p[i].number == (LINE_LEN / 3) * i + 1)
  {
    var p := Pages(s, t);
    forall i | 0 <= i < |p|
      ensures t != Protein3 ==> p[i].number == LINE_LEN * i + 1 && p[i].text[0] == s[p[i].number - 1]
      ensures t == Protein3 ==> p[i].number == (LINE_LEN / 3) * i + 1
    {
      assert p[i] == PageLine(s, t, i);
      if t == Protein3 {
        assert LINE_LEN * i == 3 * (24 * i);
      }
    }
  }

  /** The padding width is between one and five digits; up to 65535
      characters, no line number needs more digits than that. */
  lemma NumbersFitWidth(s: string, t: SeqType)
    ensures 1 <= NumberWidth(|s|) <= 5
    ensures |s| < 0x1_0000 ==>
      forall i :: 0 <= i < |Pages(s, t)| ==> NumDigits(Pages(s, t)[i].number) <= NumberWidth(|s|)
  {
    var p := Pages(s, t);
    NumDigitsOfU16(AsU16(|s|));
    if |s| < 0x1_0000 {
      forall i | 0 <= i < |p|
        ensures NumDigits(p[i].number) <= NumberWidth(|s|)
      {
        assert p[i] == PageLine(s, t, i);
        assert p[i].number <= |s|;
        NumDigitsMonotone(p[i].number, |s|);
      }
    }
  }

  /** Line i of a three-letter listing is numbered 24 * i + 1 and holds
      characters 72 * i up to 72 * i + 72 or the end. */
  lemma Protein3Line(s: string, i: nat)
    requires 72 * i < |s|
    ensures i < |Pages(s, Protein3)|
    ensures Pages(s, Protein3)[i] == Line(24 * i + 1, s[72 * i..Min(72 * i + 72, |s|)])
  {
    assert Pages(s, Protein3)[i] == PageLine(s, Protein3, i);
    assert (72 * i) / 3 == 24 * i;
  }

  /** Line i of the three-letter listing of a peptide is numbered by its
      first residue, 24 * i + 1, and holds the names of residues 24 * i up to
      24 * i + 24 or the end of the peptide. */
  lemma ThreeLetterLine(one: string, i: nat)
    requires Nameable(one) && 24 * i < |one|
    ensures var p := Pages(ThreeLetters(one), Protein3);
      && i < |p|
      && p[i].number == 24 * i + 1
      && p[i].text == ThreeLetters(one[24 * i..Min(24 * i + 24, |one|)])
  {
    var three := ThreeLetters(one);
    var a, b := 24 * i, Min(24 * i + 24, |one|);
    Protein3Line(three, i);
    assert 72 * i == 3 * a && Min(72 * i + 72, |three|) == 3 * b;
    ThreeLettersSlice(one, a, b);
  }

  /** In the three-letter listing of a peptide, the line numbered n starts
      with the name of residue n and holds the names of up to LINE_LEN / 3
      residues from there. */
  lemma ThreeLetterLinesFollowResidues(one: string)
    requires Nameable(one)
    ensures var p := Pages(ThreeLetters(one), Protein3);
      forall i :: 0 <= i < |p| ==>
        1 <= p[i].number <= |one| &&
        p[i].text == ThreeLetters(one[p[i].number - 1..Min(p[i].number - 1 + LINE_LEN / 3, |one|)])
  {
    var p := Pages(ThreeLetters(one), Protein3);
    forall i | 0 <= i < |p|
      ensures 1 <= p[i].number <= |one|
      ensures p[i].text == ThreeLetters(one[p[i].number - 1..Min(p[i].number - 1 + LINE_LEN / 3, |one|)])
    {
      assert 72 * i < 3 * |one|;
      ThreeLetterLine(one, i);
    }
  }
}
