# PDFSegregate: page ink classifier and ink-coverage ingest

PDFSegregate is a script that asks Ghostscript's `inkcov` device for the CMYK
ink coverage of every page of a PDF. It reads the device's text output into
one `PageColorInfo` record per page and labels each page `'Color'`, `'Blank'`
or `'B&W'`. This project models the script's logic in Dafny:

- `page_color.dfy` (module `PageColor`): the `PageColorInfo` class. Its
  fields are set once in `__init__` and never change, so it is an immutable
  datatype. Its accessors and predicates are functions on that datatype.
  `GetType` keeps the source's precedence and its blank test exactly as
  written.
- `ingest.dfy` (module `InkCoverage`): the `for i, line in enumerate(f)` loop
  that fills `pages`. `ReadPages` is that loop, a method with an invariant. It
  is proved equal to the function `Ingest`, and the lemmas about the records
  are stated on `Ingest`.
- `cli.dfy` (module `Cli`): `valid_pdf_extension`.
- `strings.dfy` (module `Strings`): the Python 2 string operations the loop
  uses: `split()`, `replace('  ', ' ')` and `endswith`.
- `floats.dfy` (module `Floats`): `float(field)` as an exact decimal reader.
- `wrappers.dfy` (module `Wrappers`): `Option` and `Result`.

The script is Python 2. It indexes the list that `map(float, ...)` returns,
and it calls `str.replace` on lines read in binary mode. A line is therefore
a sequence of byte characters. Whitespace is Python 2's `isspace` set: space,
`\t`, `\n`, `\r`, `\v` and `\f`.

Points where the code does something other than its names suggest. The model
follows the code in each case:

- `is_blank_page` returns `inkcov > 0`. It is true when the page HAS ink.
  So a black-only page is labelled `'Blank'`, and a page with no ink falls
  through to `'B&W'`.
- The page number is the position of the LINE in the file, plus one. It is
  not the position of the record among the accepted lines, so a skipped line
  leaves a gap.
- The class has no `is_black_page`, `is_white_page` or `get_ink_coverage`.
- Nothing checks that coverage values are non-negative. The lemmas that need
  non-negative values say so in a `requires`.

## Model

| member | source | states |
|---|---|---|
| `PageColor.NewPageColorInfo` | PDFSegregate.py:36-39 | the first three values become the colour coverage, as their sum; the fourth is the black coverage; the page number is kept |
| `PageColor.LabelsDistinct` | PDFSegregate.py:33-35 | the three class constants 'Blank', 'Color' and 'B&W' are different strings |
| `PageColor.ColorIgnoresBlack` | PDFSegregate.py:67-68 | a page is colour iff c+m+y > 0; changing k never changes the colour test, and a colour page stays 'Color' |
| `PageColor.ColorIffChromaticInk` | PDFSegregate.py:52-53 | on non-negative coverage, colour iff one of c, m, y is positive |
| `PageColor.BlankMeansInked` | PDFSegregate.py:70-72 | the blank test as written holds iff c+m+y+k > 0; on non-negative coverage, iff some channel is inked |
| `PageColor.TypePrecedence` | PDFSegregate.py:58-65 | get_type gives 'Color' iff the colour test holds, 'Blank' iff not colour and the blank test holds, 'B&W' otherwise |
| `PageColor.TypeByChannels` | PDFSegregate.py:58-72 | on non-negative coverage: 'Color' iff chromatic ink; 'Blank' iff black ink only; 'B&W' iff no ink at all |
| `PageColor.BlankAndBlackSwapped` | PDFSegregate.py:58-72 | (0,0,0,k>0) is 'Blank', (0,0,0,0) is 'B&W', (0.1,0,0,k) is 'Color' |
| `PageColor.NegativeCoverageCancels` | PDFSegregate.py:52-53 | with no sign check, (0.5,-0.5,0,0) is not colour and is labelled 'B&W' |
| `PageColor.CorrectedTypeByChannels` | PDFSegregate.py:70-72 | with the blank test read as "no ink", on non-negative coverage: 'Blank' iff no ink, 'B&W' iff black only, 'Color' unchanged |
| `Strings.SplitFields` | PDFSegregate.py:91 | every field of `split()` is non-empty and holds no whitespace |
| `Strings.SplitKeepsText` | PDFSegregate.py:91 | the fields, concatenated, are exactly the line's non-whitespace characters in order |
| `Strings.SplitJoin` | PDFSegregate.py:91 | splitting fields joined by single spaces gives back those fields |
| `Strings.SplitTrailingSpace` | PDFSegregate.py:89-91 | the newline each line ends with adds no field |
| `Strings.SplitReplace` | PDFSegregate.py:90-91 | replacing '  ' with ' ' before `split()` does not change the fields |
| `Floats.ParseFixedPoint` | PDFSegregate.py:94 | `float` reads a fixed-point field such as "0.02381" as its digits over ten to the power of the fraction's length |
| `InkCoverage.ParseFloats` | PDFSegregate.py:94 | `map(float, fields)` succeeds iff every field reads, with one value per field in order; otherwise it fails with the first bad field |
| `InkCoverage.ParseLineShape` | PDFSegregate.py:90-96 | a line without exactly six fields is skipped; a six-field line gives the page of its first four numbers, or fails if one of them does not read |
| `InkCoverage.ReadPages` | PDFSegregate.py:87-97 | the loop's result is `Ingest` of the lines |
| `InkCoverage.IngestErrorStops` | PDFSegregate.py:94 | once a line fails, the whole run fails with that error |
| `InkCoverage.IngestFailsIff` | PDFSegregate.py:89-97 | the run fails iff some six-field line has one of its first four fields that `float` rejects |
| `InkCoverage.IngestSound` | PDFSegregate.py:89-97 | at most one page per line; every page numbered n comes from line n-1, which has six fields, and carries that line's first four numbers |
| `InkCoverage.IngestIncreasing` | PDFSegregate.py:89-95 | page numbers strictly increase along the output |
| `InkCoverage.IngestComplete` | PDFSegregate.py:89-97 | every six-field line at position i gives a page numbered i+1 |
| `InkCoverage.SkippedLineLeavesGap` | PDFSegregate.py:89-95 | a skipped line followed by a record gives one page, numbered 2 |
| `Cli.ValidPdfExtension` | PDFSegregate.py:15-19 | accepted iff the name ends in ".pdf", and then returned unchanged; otherwise the error "Unknown file extension: " + name |
| `Cli.AcceptsExactlyPdfNames` | PDFSegregate.py:15-19 | accepted iff the name is some stem followed by ".pdf" |
| `Cli.Idempotent` | PDFSegregate.py:15-19 | checking an accepted name again gives the same result |
| `Cli.UpperCaseRejected` | PDFSegregate.py:16 | the test is case-sensitive: "report.PDF" is rejected and "report.pdf" is accepted |

## Left out

- Ghostscript (PDFSegregate.py:80-84) is a call into an external rasteriser. The model starts from the lines of its output file.
- Opening and reading the file (PDFSegregate.py:88): the lines are a parameter, each with its trailing newline.
- Argument parsing (PDFSegregate.py:22-29) is library wiring. Only the `valid_pdf_extension` check is modelled. The `--two-sided` flag is parsed but never read.
- `__repr__`, `__str__` (PDFSegregate.py:41-47) and the `IPython.embed()` debug shell (PDFSegregate.py:100-101) are formatting and interactive I/O.
- PDFSegregate.py has no sheet pairing, job partitioning, page counts or writing of colour and B&W output documents. It stops at the debug shell after reading the records, so none of these is modelled.
- NumPy: `np.sum` over the three-element `cmy` array is exact real addition. float64 rounding is not modelled, and neither is Python's float arithmetic anywhere else.
- Floats.ParseReal: it reads sign, digits, an optional point and an optional exponent exactly. It rejects the spellings "inf", "nan" and "infinity", which Python accepts, and it does not round to the nearest double. The ink-coverage device prints plain fixed-point numbers.
- PageColor.NewPageColorInfo: it requires at least four values instead of modelling the IndexError that `__init__` raises on fewer. The only caller always passes four.

## Findings

| source | as written | input that shows it | evidently intended | confidence | as-written member | corrected member |
|---|---|---|---|---|---|---|
| PDFSegregate.py:70-72 | `is_blank_page` returns `inkcov > 0`, true when the page has ink | a black-only page (0,0,0,0.3) is labelled 'Blank'; an empty page (0,0,0,0) is labelled 'B&W' | blank means no ink (`inkcov == 0`): an empty page is 'Blank' and a black-only page 'B&W' | high; not executed | `PageColor.BlankAndBlackSwapped` | `PageColor.CorrectedTypeByChannels` |

`GetType` keeps the source's test, because that is what the script computes.
`GetTypeCorrected` stands beside it with the intended test. Nothing else in the
model reads the label.
