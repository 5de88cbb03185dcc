/**
 * The page ink classifier: an immutable record of one page's CMYK ink
 * coverage and its page number, with the coverage accessors and the
 * predicates that label the page 'Color', 'Blank' or 'B&W'. Every
 * comparison is an exact `> 0`; coverage values are reals taken as the
 * ink-coverage device reports them, and nothing checks they are non-negative.
 */
module PageColor {

  /** The class constants BLANK, COLOR and BW. */
  datatype PageType = Blank | Color | BW {
    /** The string the class constant holds. */
    function Label(): string
    {
      match this
      case Blank => "Blank"
      case Color => "Color"
      case BW => "B&W"
    }
  }

  /**
   * One page: the chromatic channels (the three-element array `cmy`), the
   * black channel `k` and the page number, all set once at construction.
   */
  datatype PageColorInfo = PageColorInfo(cyan: real, magenta: real, yellow: real, k: real, pageNumber: int)
  {
    function GetBlackCoverage(): real
    {
      k
    }

    /** The sum over the `cmy` array. */
    function GetColorCoverage(): real
    {
      cyan + magenta + yellow
    }

    function GetNumber(): int
    {
      pageNumber
    }

    predicate IsColorPage()
    {
      GetColorCoverage() > 0.0
    }

    /** As written: true when the page carries SOME ink. */
    predicate IsBlankPage()
    {
      GetColorCoverage() + k > 0.0
    }

    /** Color first, then the blank test, else B&W. */
    function GetType(): PageType
    {
      if IsColorPage() then Color
      else if IsBlankPage() then Blank
      else BW
    }

    /** What the blank test evidently means: no ink at all. */
    predicate IsBlankPageCorrected()
    {
      GetColorCoverage() + k == 0.0
    }

    /** GetType with the corrected blank test. */
    function GetTypeCorrected(): PageType
    {
      if IsColorPage() then Color
      else if IsBlankPageCorrected() then Blank
      else BW
    }

    /** The coverages the ink-coverage device reports are never negative. */
    predicate NonNegative()
    {
      cyan >= 0.0 && magenta >= 0.0 && yellow >= 0.0 && k >= 0.0
    }
  }

  /**
   * The constructor: the first three values become `cmy`, the fourth `k`,
   * and any further values are dropped. Fewer than four values make
   * Python raise IndexError; no caller passes fewer.
   */
  function NewPageColorInfo(cmyk: seq<real>, pageNumber: int): (p: PageColorInfo)
    requires |cmyk| >= 4
    ensures p.GetColorCoverage() == cmyk[0] + cmyk[1] + cmyk[2]
    ensures p.GetBlackCoverage() == cmyk[3]
    ensures p.GetNumber() == pageNumber
  {
    PageColorInfo(cmyk[0], cmyk[1], cmyk[2], cmyk[3], pageNumber)
  }

  /** The three labels are distinct strings. */
  lemma LabelsDistinct(t: PageType, u: PageType)
    ensures t.Label() == u.Label() <==> t == u
  {
  }

  /** The colour test looks at the chromatic channels only, whatever `k` is. */
  lemma ColorIgnoresBlack(p: PageColorInfo, k: real)
    ensures p.IsColorPage() <==> p.cyan + p.magenta + p.yellow > 0.0
    ensures p.(k := k).IsColorPage() == p.IsColorPage()
    ensures p.IsColorPage() ==> p.(k := k).GetType() == Color
  {
  }

  /** On non-negative coverage, colour means some chromatic channel is inked. */
  lemma ColorIffChromaticInk(p: PageColorInfo)
    requires p.NonNegative()
    ensures p.IsColorPage() <==> p.cyan > 0.0 || p.magenta > 0.0 || p.yellow > 0.0
  {
  }

  /**
   * As written, the blank test holds exactly when the page has ink; on
   * non-negative coverage, when some channel is positive.
   */
  lemma BlankMeansInked(p: PageColorInfo)
    ensures p.IsBlankPage() <==> p.cyan + p.magenta + p.yellow + p.k > 0.0
    ensures p.NonNegative() ==>
              (p.IsBlankPage() <==> p.cyan > 0.0 || p.magenta > 0.0 || p.yellow > 0.0 || p.k > 0.0)
  {
  }

  /** GetType returns exactly one label, by the precedence Color, Blank, B&W. */
  lemma TypePrecedence(p: PageColorInfo)
    ensures p.GetType() == Color <==> p.IsColorPage()
    ensures p.GetType() == Blank <==> !p.IsColorPage() && p.IsBlankPage()
    ensures p.GetType() == BW <==> !p.IsColorPage() && !p.IsBlankPage()
  {
  }

  /**
   * On non-negative coverage: Color iff some chromatic ink; 'Blank' iff
   * black ink only; 'B&W' iff no ink at all.
   */
  lemma TypeByChannels(p: PageColorInfo)
    requires p.NonNegative()
    ensures p.GetType() == Color <==> p.cyan > 0.0 || p.magenta > 0.0 || p.yellow > 0.0
    ensures p.GetType() == Blank <==>
              p.cyan == 0.0 && p.magenta == 0.0 && p.yellow == 0.0 && p.k > 0.0
    ensures p.GetType() == BW <==>
              p.cyan == 0.0 && p.magenta == 0.0 && p.yellow == 0.0 && p.k == 0.0
  {
    ColorIffChromaticInk(p);
    BlankMeansInked(p);
  }

  /** A black-only page is labelled 'Blank', and an empty page 'B&W'. */
  lemma BlankAndBlackSwapped(n: int, k: real)
    requires k > 0.0
    ensures PageColorInfo(0.0, 0.0, 0.0, k, n).GetType() == Blank
    ensures PageColorInfo(0.0, 0.0, 0.0, 0.0, n).GetType() == BW
    ensures PageColorInfo(0.1, 0.0, 0.0, k, n).GetType() == Color
  {
  }

  /**
   * Nothing checks the channels are non-negative: a negative channel can
   * cancel a positive one, and such a page is not colour.
   */
  lemma NegativeCoverageCancels(n: int)
    ensures !PageColorInfo(0.5, -0.5, 0.0, 0.0, n).IsColorPage()
    ensures PageColorInfo(0.5, -0.5, 0.0, 0.0, n).GetType() == BW
  {
  }

  /**
   * With the corrected blank test, on non-negative coverage: 'Blank' iff
   * no ink at all, 'B&W' iff black ink only, Color unchanged.
   */
  lemma CorrectedTypeByChannels(p: PageColorInfo)
    requires p.NonNegative()
    ensures p.GetTypeCorrected() == Color <==> p.GetType() == Color
    ensures p.GetTypeCorrected() == Blank <==>
              p.cyan == 0.0 && p.magenta == 0.0 && p.yellow == 0.0 && p.k == 0.0
    ensures p.GetTypeCorrected() == BW <==>
              p.cyan == 0.0 && p.magenta == 0.0 && p.yellow == 0.0 && p.k > 0.0
  {
    TypeByChannels(p);
  }
}
