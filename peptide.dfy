// The peptide builder in `main`: cut the DNA into consecutive triplets,
// translate each one and append the residues to a one-letter and a
// three-letter peptide (src/main.rs:239-246).

module Peptide {
  import opened GeneticCode

  /** The k-th codon of the reading frame that starts at the first base. */
  function CodonOf(s: string, k: nat): (c: string)
    requires 3 * k + 3 <= |s|
    ensures |c| == 3
  {
    s[3 * k..3 * k + 3]
  }

  /** Every letter of p is a key of ThreeLetterCode. */
  predicate Nameable(p: string)
  {
    forall j :: 0 <= j < |p| ==> IsResidueLetter(p[j])
  }

  /** The three-letter rendering of a one-letter peptide: the names of its
      residues, concatenated. */
  function ThreeLetters(p: string): (r: string)
    requires Nameable(p)
    ensures |r| == 3 * |p|
  {
    if p == [] then []
    else
      var q, c := p[..|p| - 1], p[|p| - 1];
      assert Nameable(q);
      ThreeLetterCodeDomain(c);
      ThreeLetterNameLength(c);
      ThreeLetters(q) + ThreeLetterCode[c]
  }

  /** Residue k of p is named by characters 3k, 3k+1, 3k+2 of its rendering. */
  lemma {:induction false} ThreeLettersBlock(p: string, k: nat)
    requires Nameable(p) && k < |p|
    ensures p[k] in ThreeLetterCode && ThreeLetters(p)[3 * k..3 * k + 3] == ThreeLetterCode[p[k]]
  {
    ThreeLetterCodeDomain(p[k]);
    ThreeLetterCodeDomain(p[|p| - 1]);
    var q := p[..|p| - 1];
    assert Nameable(q);
    var rq := ThreeLetters(q);
    assert ThreeLetters(p) == rq + ThreeLetterCode[p[|p| - 1]];
    if k < |q| {
      ThreeLettersBlock(q, k);
      assert q[k] == p[k];
      assert ThreeLetters(p)[3 * k..3 * k + 3] == rq[3 * k..3 * k + 3];
    } else {
      assert |rq| == 3 * k;
    }
  }

  /** Three-letter names of a slice are the matching slice of the names. */
  lemma {:induction false} ThreeLettersSlice(p: string, a: nat, b: nat)
    requires Nameable(p) && a <= b <= |p|
    ensures Nameable(p[a..b]) && ThreeLetters(p)[3 * a..3 * b] == ThreeLetters(p[a..b])
  {
    if a < b {
      ThreeLettersSlice(p, a, b - 1);
      var r := ThreeLetters(p);
      var q := p[a..b];
      assert q[..|q| - 1] == p[a..b - 1] && q[|q| - 1] == p[b - 1];
      ThreeLetterCodeDomain(p[b - 1]);
      assert ThreeLetters(q) == ThreeLetters(p[a..b - 1]) + ThreeLetterCode[p[b - 1]];
      ThreeLettersBlock(p, b - 1);
      SliceSplit(r, 3 * a, 3 * (b - 1), 3 * b);
    }
  }

  /** A slice is the concatenation of its two halves. */
  lemma SliceSplit<T>(r: seq<T>, i: nat, j: nat, k: nat)
    requires i <= j <= k <= |r|
    ensures r[i..k] == r[i..j] + r[j..k]
  {
  }

  /** Each of the first n triplets of s is a codon. */
  predicate AllCodons(s: string, n: nat)
    requires 3 * n <= |s|
  {
    forall k :: 0 <= k < n ==> IsCodon(CodonOf(s, k))
  }

  /** The position of the first of the first n triplets that is not a codon,
      or n when there is none. */
  function FirstBad(s: string, n: nat): (k: nat)
    requires 3 * n <= |s|
    ensures k <= n
    ensures AllCodons(s, k)
    ensures k < n ==> !IsCodon(CodonOf(s, k))
  {
    if n == 0 then 0
    else if FirstBad(s, n - 1) < n - 1 || !IsCodon(CodonOf(s, n - 1)) then FirstBad(s, n - 1)
    else n
  }

  /** The residue letters of the first n codons, in order. */
  function Residues(s: string, n: nat): (r: string)
    requires 3 * n <= |s| && AllCodons(s, n)
    ensures |r| == n
  {
    if n == 0 then [] else Residues(s, n - 1) + [Residue(CodonOf(s, n - 1))]
  }

  /** The three-letter names of the first n codons, concatenated. */
  function Names(s: string, n: nat): (r: string)
    requires 3 * n <= |s| && AllCodons(s, n)
    ensures |r| == 3 * n
  {
    if n == 0 then [] else Names(s, n - 1) + ThreeLetterCode[Residue(CodonOf(s, n - 1))]
  }

  /** The one-letter and three-letter peptides, built side by side. */
  datatype Peptides = Peptides(one: string, three: string)

  /** What the builder produces from the first n codons: both peptides, or,
      when `translate` exits, the lane vector of the first triplet that is
      not a codon. */
  function PeptidesOf(s: string, n: nat): (r: Result<Peptides>)
    requires 3 * n <= |s|
    ensures r.Ok? <==> AllCodons(s, n)
  {
    var k := FirstBad(s, n);
    if k < n then BadNucleotide(LaneVector(CodonOf(s, k)))
    else Ok(Peptides(Residues(s, n), Names(s, n)))
  }

  /** The whole builder: `len / 3` codons; a trailing partial codon is ignored. */
  function PeptidesFor(s: string): (r: Result<Peptides>)
    ensures r.Ok? <==> AllCodons(s, |s| / 3)
    ensures r.Ok? ==> |r.value.one| == |s| / 3 && |r.value.three| == 3 * (|s| / 3)
  {
    PeptidesOf(s, |s| / 3)
  }

  /** Residue k of the one-letter peptide is the residue of codon k. */
  lemma {:induction false} ResiduesAt(s: string, n: nat, k: nat)
    requires 3 * n <= |s| && AllCodons(s, n) && k < n
    ensures Residues(s, n)[k] == Residue(CodonOf(s, k))
  {
    assert AllCodons(s, n - 1);
    var q, x := Residues(s, n - 1), Residue(CodonOf(s, n - 1));
    assert Residues(s, n) == q + [x];
    if k < n - 1 {
      ResiduesAt(s, n - 1, k);
      assert Residues(s, n)[k] == q[k];
    } else {
      assert |q| == k;
    }
  }

  /** Every residue letter has a three-letter name. */
  lemma {:induction false} ResiduesNameable(s: string, n: nat)
    requires 3 * n <= |s| && AllCodons(s, n)
    ensures Nameable(Residues(s, n))
  {
    if n > 0 {
      assert AllCodons(s, n - 1);
      ResiduesNameable(s, n - 1);
      var q, p := Residues(s, n - 1), Residues(s, n);
      assert p == q + [Residue(CodonOf(s, n - 1))];
    }
  }

  /** The three-letter peptide is the three-letter rendering of the
      one-letter peptide. */
  lemma {:induction false} NamesAreThreeLetters(s: string, n: nat)
    requires 3 * n <= |s| && AllCodons(s, n)
    ensures Nameable(Residues(s, n)) && Names(s, n) == ThreeLetters(Residues(s, n))
  {
    ResiduesNameable(s, n);
    if n > 0 {
      assert AllCodons(s, n - 1);
      NamesAreThreeLetters(s, n - 1);
      var q, p := Residues(s, n - 1), Residues(s, n);
      var x := Residue(CodonOf(s, n - 1));
      assert p[..n - 1] == q && p[n - 1] == x by {
        assert p == q + [x];
      }
      assert ThreeLetters(p) == ThreeLetters(q) + ThreeLetterCode[x];
    }
  }

  /** The first bad triplet decides the outcome: when triplets 0..k-1 are
      codons and triplet k is not, the builder reports triplet k's lanes. */
  lemma FirstBadCodonReported(s: string, n: nat, k: nat)
    requires 3 * n <= |s| && k < n
    requires AllCodons(s, k) && !IsCodon(CodonOf(s, k))
    ensures PeptidesOf(s, n) == BadNucleotide(LaneVector(CodonOf(s, k)))
  {
  }

  /** Two strings that agree on their first 3 * n bases agree on their first
      m <= n codons. */
  lemma PrefixCodon(s: string, u: string, n: nat, k: nat)
    requires 3 * n <= |s| && 3 * n <= |u| && k < n
    requires s[..3 * n] == u[..3 * n]
    ensures s[..3 * k] == u[..3 * k]
    ensures CodonOf(s, k) == CodonOf(u, k)
  {
    assert s[..3 * k] == s[..3 * n][..3 * k] && u[..3 * k] == u[..3 * n][..3 * k];
    assert CodonOf(s, k) == s[..3 * n][3 * k..3 * k + 3];
    assert CodonOf(u, k) == u[..3 * n][3 * k..3 * k + 3];
  }

  /** Only the first 3 * n bases decide where the first bad triplet is. */
  lemma {:induction false} FirstBadPrefix(s: string, u: string, n: nat)
    requires 3 * n <= |s| && 3 * n <= |u|
    requires s[..3 * n] == u[..3 * n]
    ensures FirstBad(s, n) == FirstBad(u, n)
  {
    if n > 0 {
      PrefixCodon(s, u, n, n - 1);
      FirstBadPrefix(s, u, n - 1);
    }
  }

  /** Only the first 3 * n bases decide the residues of the first n codons. */
  lemma {:induction false} ResiduesPrefix(s: string, u: string, n: nat)
    requires 3 * n <= |s| && 3 * n <= |u| && AllCodons(s, n) && AllCodons(u, n)
    requires s[..3 * n] == u[..3 * n]
    ensures Residues(s, n) == Residues(u, n)
  {
    if n > 0 {
      PrefixCodon(s, u, n, n - 1);
      assert AllCodons(s, n - 1) && AllCodons(u, n - 1);
      ResiduesPrefix(s, u, n - 1);
      var x := Residue(CodonOf(s, n - 1));
      assert x == Residue(CodonOf(u, n - 1));
      assert Residues(s, n) == Residues(s, n - 1) + [x];
      assert Residues(u, n) == Residues(u, n - 1) + [x];
    }
  }

  /** Only the first 3 * n bases decide the names of the first n codons. */
  lemma NamesPrefix(s: string, u: string, n: nat)
    requires 3 * n <= |s| && 3 * n <= |u| && AllCodons(s, n) && AllCodons(u, n)
    requires s[..3 * n] == u[..3 * n]
    ensures Names(s, n) == Names(u, n)
  {
    ResiduesPrefix(s, u, n);
    NamesAreThreeLetters(s, n);
    NamesAreThreeLetters(u, n);
  }

  /** Only the first 3 * n bases matter to the first n codons. */
  lemma PeptidesOfPrefix(s: string, u: string, n: nat)
    requires 3 * n <= |s| && 3 * n <= |u|
    requires s[..3 * n] == u[..3 * n]
    ensures PeptidesOf(s, n) == PeptidesOf(u, n)
  {
    FirstBadPrefix(s, u, n);
    var k := FirstBad(s, n);
    if k < n {
      PrefixCodon(s, u, n, k);
    } else {
      ResiduesPrefix(s, u, n);
      NamesPrefix(s, u, n);
    }
  }

  /** The last `len % 3` bases never reach the translator. */
  lemma TrailingBasesIgnored(s: string, tail: string)
    requires |s| % 3 == 0 && |tail| < 3
    ensures PeptidesFor(s + tail) == PeptidesFor(s)
  {
    var n := |s| / 3;
    assert |(s + tail)| / 3 == n;
    assert (s + tail)[..3 * n] == s[..3 * n];
    PeptidesOfPrefix(s + tail, s, n);
  }

  /** One more codon extends both peptides by its residue and its name. */
  lemma NextCodon(s: string, i: nat, one: string, three: string)
    requires 3 * i + 3 <= |s| && AllCodons(s, i) && IsCodon(CodonOf(s, i))
    requires one == [Residue(CodonOf(s, i))] && three == ThreeLetterCode[Residue(CodonOf(s, i))]
    ensures AllCodons(s, i + 1)
    ensures Residues(s, i + 1) == Residues(s, i) + one
    ensures Names(s, i + 1) == Names(s, i) + three
  {
    assert AllCodons(s, i + 1);
  }

  /** When the first n triplets are codons, none of them is the first bad one. */
  lemma NoBadCodon(s: string, n: nat)
    requires 3 * n <= |s| && AllCodons(s, n)
    ensures FirstBad(s, n) == n
  {
  }

  /** When every triplet is a codon, the builder returns both peptides. */
  lemma AllCodonsBuilt(s: string, n: nat)
    requires 3 * n <= |s| && AllCodons(s, n)
    ensures PeptidesOf(s, n) == Ok(Peptides(Residues(s, n), Names(s, n)))
  {
    NoBadCodon(s, n);
  }

  /** The builder loop: translate each triplet twice, once per code, appending
      the results; the first bad triplet ends the run. */
  method BuildPeptides(s: string) returns (r: Result<Peptides>)
    ensures r == PeptidesFor(s)
    ensures r.Ok? ==> |r.value.one| == |s| / 3 && |r.value.three| == 3 * (|s| / 3)
  {
    var peptide1 := "";
    var peptide3 := "";
    var nCodons := |s| / 3;
    for i := 0 to nCodons
      invariant 3 * i <= |s| && AllCodons(s, i)
      invariant peptide1 == Residues(s, i) && peptide3 == Names(s, i)
    {
      var codon := CodonOf(s, i);
      var one := Translate(codon, OneLetter);
      if one.BadNucleotide? {
        FirstBadCodonReported(s, nCodons, i);
        return BadNucleotide(one.lanes);
      }
      var three := Translate(codon, ThreeLetter);
      NextCodon(s, i, one.value, three.value);
      peptide1 := peptide1 + one.value;
      peptide3 := peptide3 + three.value;
    }
    AllCodonsBuilt(s, nCodons);
    r := Ok(Peptides(peptide1, peptide3));
  }

  /** Appending a codon to n whole codons appends its residue to the
      one-letter peptide and its name to the three-letter peptide. */
  lemma AppendTriplet(s: string, n: nat, c: string)
    requires |s| == 3 * n && IsCodon(c) && PeptidesOf(s, n).Ok?
    ensures var p, r := PeptidesOf(s, n).value, Residue(c);
      PeptidesOf(s + c, n + 1) == Ok(Peptides(p.one + [r], p.three + ThreeLetterCode[r]))
  {
    var u := s + c;
    assert u[..3 * n] == s[..3 * n];
    assert CodonOf(u, n) == c;
    FirstBadPrefix(u, s, n);
    NoBadCodon(s, n);
    assert AllCodons(u, n);
    ResiduesPrefix(u, s, n);
    NamesPrefix(u, s, n);
    NextCodon(u, n, [Residue(c)], ThreeLetterCode[Residue(c)]);
    NoBadCodon(u, n + 1);
  }
}
