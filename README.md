# gb_read translation and listing core, in Dafny

gb_read reads a GenBank record and shows a coding sequence (CDS) the user
picks. It prints the DNA, then the protein it encodes in one-letter and
three-letter amino-acid code. This project models the part of `src/main.rs`
that does the translating and the listing:

- **Codon translation** (`genetic_code.dfy`, module `GeneticCode`).
  - NCBI translation table 11, stored as a 64-letter string indexed by
    `16*b0 + 4*b1 + b2`, with lanes T=0, C=1, A=2, G=3.
  - The `ERR_BAD_NT` sentinel, 99.
  - The base-to-lane function `lookup`.
  - The 27-entry three-letter name map.
  - `translate`. This is an imperative method over a 3-slot array. It fills
    the slots from the triplet, then either stops with the lane vector or
    reads the table. The source prints the vector and calls
    `process::exit(1)` here. The model returns the
    `BadNucleotide(lanes)` result instead.
- **Peptide builder** (`peptide.dfy`, module `Peptide`).
  - The loop in `main` that cuts the DNA into `len / 3` consecutive triplets.
    It translates each triplet twice and appends the two results.
  - Specified by recursive functions over the number of codons read.
- **Listing** (`pagination.dfy`, module `Pagination`).
  - `print_seq` returns its output as data instead of printing it: the
    zero-padding width and the list of numbered 72-character lines.
  - `count_digits` is a loop over a 16-bit integer. The `as u16` cast on the
    length is written out as `len % 65536`.

Behaviour of this version of `main.rs` worth noting:
- ATG is the only codon read as M; a GTG at the start stays V.
- `N` and lower-case letters are not bases. Input is upper-cased before it
  reaches this code.
- The one-letter peptide has no padding between its letters.
- Each peptide listing takes its line count and number width from that
  peptide's own length.

## Model

| member | source | states |
|---|---|---|
| GeneticCode.Lookup | src/main.rs:37-45 | T, C, A, G map to lanes 0..3, and `BASES[lane]` gives back the base. Every other character maps to the sentinel 99. |
| GeneticCode.CodonAt | src/main.rs:14-17 | The table position i (below 64) names a codon of three bases. |
| GeneticCode.CodonIndex | src/main.rs:91 | `16*b0 + 4*b1 + b2` is below 64, and decoding it gives back the codon. |
| GeneticCode.CodonIndexBijection | src/main.rs:14-17 | The index is a bijection between the 64 codons and the table positions 0..63. |
| GeneticCode.TableEntry | src/main.rs:18 | Every entry is A..Z or `*` and has a three-letter name. `*` sits only at 10, 11, 14 (TAA, TAG, TGA). `M` sits only at 35 (ATG). |
| GeneticCode.Residue | src/main.rs:91-93 | A codon's table letter always has a 3-character name, so the map lookup at line 96 never panics. |
| GeneticCode.Render | src/main.rs:94-97 | One-letter output is 1 character; three-letter output is 3. |
| GeneticCode.LaneVector | src/main.rs:79-83 | The lane vector always has 3 slots; slots no character reached keep the sentinel. |
| GeneticCode.LaneVectorFlagsBadCodon | src/main.rs:79-91 | The vector holds the sentinel iff the triplet is not three bases. Otherwise `16*v0 + 4*v1 + v2` is the codon's table index. |
| GeneticCode.Translate | src/main.rs:48-98 | Fails iff the triplet is not a codon. On failure it reports the lane vector. On success the result is the codon's residue in the requested code. |
| GeneticCode.ThreeLetterCodeDomain | src/main.rs:49-77 | The map's keys are exactly A..Z and `*`. |
| GeneticCode.ThreeLetterNameLength | src/main.rs:49-77 | Every name in the map has 3 characters. |
| GeneticCode.ThreeLetterCodeSpecialEntries | src/main.rs:51-76 | `*` maps to `***`. B, J, X and Z map to `???`. O maps to Pyr and U to Sel. |
| GeneticCode.StopCodons | src/main.rs:18 | A codon translates to `*` iff it is TAA, TAG or TGA. |
| GeneticCode.MethionineOnlyFromAtg | src/main.rs:18 | A codon translates to M iff it is ATG (no start-codon override). |
| GeneticCode.KnownCodons | src/main.rs:13-18 | ATG→M, TTT→F, GTG→V, TGG→W. |
| Peptide.CodonOf | src/main.rs:243 | The k-th slice taken from the sequence is three characters long. |
| Peptide.ThreeLetters | src/main.rs:245 | Naming a one-letter peptide gives exactly 3 characters per residue. |
| Peptide.ThreeLettersBlock | src/main.rs:245 | Characters 3k..3k+2 of the rendering are the name of residue k. |
| Peptide.FirstBad | src/main.rs:242-245 | Finds the first of the first n triplets that is not a codon: every earlier one is a codon, and it is not. |
| Peptide.Residues | src/main.rs:244 | After n codons the one-letter peptide has n letters. |
| Peptide.Names | src/main.rs:245 | After n codons the three-letter peptide has 3n characters. |
| Peptide.PeptidesFor | src/main.rs:241-242 | The loop reads `len / 3` codons. It succeeds iff all of them are codons, and then the peptides have len/3 and 3·(len/3) characters. |
| Peptide.PeptidesOf | src/main.rs:239-246 | The builder succeeds on n triplets iff every one of them is a codon. |
| Peptide.ResiduesAt | src/main.rs:243-244 | Letter k of the one-letter peptide is the residue of codon k. |
| Peptide.ResiduesNameable | src/main.rs:244-245 | Every letter of the one-letter peptide has a three-letter name. |
| Peptide.NamesAreThreeLetters | src/main.rs:244-245 | The three-letter peptide is the one-letter peptide, each letter replaced by its name. |
| Peptide.FirstBadCodonReported | src/main.rs:85-88 | If triplets 0..k-1 are codons and triplet k is not, the run ends reporting triplet k's lane vector. |
| Peptide.PrefixCodon | src/main.rs:243 | Two sequences that share their first 3n bases share their first n codons. |
| Peptide.FirstBadPrefix | src/main.rs:242-243 | The position of the first bad triplet depends only on the first 3n bases. |
| Peptide.ResiduesPrefix | src/main.rs:242-244 | The one-letter peptide depends only on the first 3n bases. |
| Peptide.NamesPrefix | src/main.rs:242-245 | The three-letter peptide depends only on the first 3n bases. |
| Peptide.PeptidesOfPrefix | src/main.rs:239-246 | The whole outcome of n steps depends only on the first 3n bases. |
| Peptide.TrailingBasesIgnored | src/main.rs:241-243 | Adding one or two bases after a whole number of codons changes nothing. |
| Peptide.NextCodon | src/main.rs:243-245 | Translating codon i appends its residue to the one-letter peptide and its name to the three-letter peptide. |
| Peptide.NoBadCodon | src/main.rs:242-245 | When every triplet is a codon, no triplet is reported as bad. |
| Peptide.AllCodonsBuilt | src/main.rs:239-246 | When every triplet is a codon, the builder returns both peptides. |
| Peptide.BuildPeptides | src/main.rs:239-246 | The loop's outcome is `PeptidesOf(s, len/3)`. On success the peptides have len/3 and 3·(len/3) characters. |
| Peptide.AppendTriplet | src/main.rs:242-245 | Appending a codon to a sequence of whole codons appends its residue and its name to the two peptides. |
| Pagination.AsU16 | src/main.rs:128 | `as u16` leaves lengths below 65536 unchanged. |
| Pagination.Divisor | src/main.rs:106-111 | The divisor is 3 for three-letter peptides and 1 for DNA and one-letter peptides. |
| Pagination.NumDigitsIsDecimalLength | src/main.rs:132-144 | The digit count d of n > 0 satisfies 10^(d-1) ≤ n < 10^d. Zero has one digit. |
| Pagination.NumDigitsMonotone | src/main.rs:132-144 | A larger number never has fewer digits. |
| Pagination.NumDigitsOfU16 | src/main.rs:132 | Any u16 has between 1 and 5 digits. |
| Pagination.CountDigits | src/main.rs:133-144 | `count_digits` returns the decimal length of n, which is between 1 and 5. |
| Pagination.LineCountByRemainder | src/main.rs:113-118 | Whole lines plus one for a remainder equals the fewest 72-character lines that hold the text. |
| Pagination.LineCount | src/main.rs:113-118 | The line count is the least n with 72n ≥ len. |
| Pagination.LineNumber | src/main.rs:128 | A line starting at character `start` is numbered `start / divisor + 1`. |
| Pagination.NumberWidth | src/main.rs:128 | The padding width, `count_digits(len as u16)`, is 1..5. Below 65536 it is the digit count of the length itself. |
| Pagination.PageLine | src/main.rs:122-128 | Line i is numbered from 1. It holds the 1..72 characters of s from 72i on, and is full unless it reaches the end of s. |
| Pagination.Pages | src/main.rs:120-129 | A listing has as many lines as the line count. |
| Pagination.PagesPrefix | src/main.rs:121-128 | Each loop step appends line i of the listing. |
| Pagination.PrintSeq | src/main.rs:103-130 | The width is the digit count of the 16-bit-truncated length. The lines are the listing of s. |
| Pagination.JoinedPrefix | src/main.rs:121-127 | The first k lines hold exactly the first 72k characters, or all of s. |
| Pagination.PagesRoundTrip | src/main.rs:121-127 | Concatenating the printed lines gives back the whole sequence. |
| Pagination.PagesLineLengths | src/main.rs:122-127 | Every line but the last has 72 characters. The last has 1..72. |
| Pagination.PagesNumbering | src/main.rs:128 | DNA and one-letter lines are numbered 72i+1, which is the position of their first character. Three-letter lines are numbered 24i+1. |
| Pagination.NumbersFitWidth | src/main.rs:128 | The width is 1..5. Below 65536 characters, no line number has more digits than the width. |
| Peptide.ThreeLettersSlice | src/main.rs:245 | Naming a slice of residues gives the matching slice of the names. |
| Pagination.Protein3Line | src/main.rs:110-128 | Three-letter line i is numbered 24i+1 and holds characters 72i up to 72i+72 or the end. |
| Pagination.ThreeLetterLine | src/main.rs:110-128 | In a peptide's three-letter listing, line i is numbered 24i+1 and holds the names of residues 24i up to 24i+24 or the end. |
| Pagination.ThreeLetterLinesFollowResidues | src/main.rs:106-111 | In a three-letter listing, line n starts at residue n and holds the names of the next 24 residues, or of all that remain. |

## Left out

- File and argument handling (src/main.rs:147-161), GenBank parsing with the
  gb_io crate (166-195, 228-233) and the interactive gene choice on stdin
  (201-226). These are I/O or foreign library code.
- The printed headings, the lengths and the `{number:>0width$}` formatting.
  `PrintSeq` returns the width and the numbered lines instead of printing text.
- Building the `HashMap` on every call of `translate`. The map is a constant.
- UTF-8 decoding, byte-offset slicing and `to_ascii_uppercase`. The sequence
  is a `string` of upper-case characters, and slices are by character.
- GeneticCode.Translate: requires at most three characters. In the source a
  longer triplet panics on `codon[i]`. The builder only ever passes three.
- Pagination.PrintSeq: computes the padding width once instead of once per
  line. The value is the same for every line. For an empty sequence the
  source never calls `count_digits`, but the model still returns a width.
- Pagination.NumbersFitWidth: claims that line numbers fit the width only
  below 65536 characters. Above that, `as u16` wraps the length, and the
  width can be too small (65536 wraps to 0, so the width is 1). The model
  keeps the wrap as written.
