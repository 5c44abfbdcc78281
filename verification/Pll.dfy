/** The search for PLL dividers, with exact numbers in place of 32-bit floats. */
module Pll {
  import opened Options

  const CRYSTAL_MHZ: real := 25.0
  const VCO_SEL_THRESHOLD_MHZ: real := 2400.0

  /** What the least error starts from: the greatest 32-bit float. */
  const F32_MAX: real := 340282346638528859811704183484516925440.0

  type u8 = x: int | 0 <= x < 256

  datatype PllParams = PllParams(fbDivMin: u8, fbDivMax: u8, vcoMinMhz: real, vcoMaxMhz: real)

  datatype ChipConfig = ChipConfig(freqMin: real, freqMax: real, pllParams: PllParams)

  const BM1362 := ChipConfig(56.25, 525.0, PllParams(0x10, 0xfa, 2000.0, 3200.0))
  const BM1370 := ChipConfig(56.25, 600.0, PllParams(0xa0, 0xef, 1600.0, 3200.0))
  const RAMP_STEP: real := 6.25

  datatype VcoSel = Low | High

  datatype PllDivider = PllDivider(fbDiv: u8, refDiv: nat, postDiv: nat, vcoSel: VcoSel)

  function NewPllDivider(fbDiv: u8, refDiv: nat, postDiv: nat): PllDivider
    requires refDiv > 0
  {
    PllDivider(fbDiv, refDiv, postDiv,
               if fbDiv as real * CRYSTAL_MHZ / refDiv as real >= VCO_SEL_THRESHOLD_MHZ then High else Low)
  }

  /** Rounding to the nearest integer, halves away from nought, then clamping to a byte. */
  function RoundToByte(x: real): u8 {
    if x < 0.0 then 0
    else
      var n := (x + 0.5).Floor;
      if 0 <= n < 255 then n else 255
  }

  // -------------------------------------------------------- one candidate

  /** A choice of reference and post dividers; the feedback divider follows from the target. */
  datatype Choice = Choice(refDiv: int, post1: int, post2: int) {
    predicate InSpace() {
      1 <= refDiv <= 2 && 1 <= post2 <= post1 <= 7
    }

    /** The same without the order of the post dividers. */
    predicate InSquare() {
      1 <= refDiv <= 2 && 1 <= post2 <= 7 && 1 <= post1 <= 7
    }

    /** The product of the three dividers. */
    function Product(): (k: int)
      ensures InSquare() ==> 1 <= k <= 98
    {
      ProductBounds(this);
      refDiv * (post1 * post2)
    }
  }

  lemma ProductBounds(c: Choice)
    ensures c.InSquare() ==> 1 <= c.refDiv * (c.post1 * c.post2) <= 98
  {
    if c.InSquare() {
      var p := c.post1 * c.post2;
      assert 1 <= p <= 49 by {
        assert c.post1 * 1 <= c.post1 * c.post2 <= c.post1 * 7;
      }
    }
  }

  /** The feedback divider that would hit the target exactly; `k` is the product of the others. */
  function FbRatio(target: real, k: int): real {
    k as real * target / CRYSTAL_MHZ
  }

  function FbDiv(target: real, c: Choice): u8
    requires c.InSquare()
  {
    RoundToByte(FbRatio(target, c.Product()))
  }

  function Abs(x: real): real {
    if x < 0.0 then -x else x
  }

  function OffBy(target: real, k: int, fbDiv: int): real
    requires k > 0
  {
    Abs(target - CRYSTAL_MHZ * fbDiv as real / k as real)
  }

  /** How far off the target a feedback divider is. */
  function ErrorWith(target: real, c: Choice, fbDiv: int): real
    requires c.InSquare()
  {
    OffBy(target, c.Product(), fbDiv)
  }

  function VcoWith(c: Choice, fbDiv: int): real
    requires c.InSquare()
  {
    CRYSTAL_MHZ * fbDiv as real / c.refDiv as real
  }

  /** The feedback divider and the VCO it gives are within bounds: the guards of the search. */
  predicate InBounds(p: PllParams, c: Choice, fbDiv: int)
    requires c.InSquare()
  {
    p.fbDivMin <= fbDiv <= p.fbDivMax && p.vcoMinMhz <= VcoWith(c, fbDiv) <= p.vcoMaxMhz
  }

  predicate Admissible(p: PllParams, target: real, c: Choice)
    requires c.InSquare()
  {
    InBounds(p, c, FbDiv(target, c)) && ErrorWith(target, c, FbDiv(target, c)) < 1.0
  }

  function Error(target: real, c: Choice): real
    requires c.InSquare()
  {
    ErrorWith(target, c, FbDiv(target, c))
  }

  function Vco(target: real, c: Choice): real
    requires c.InSquare()
  {
    VcoWith(c, FbDiv(target, c))
  }

  /** Less error, or the same error and a lower VCO. */
  predicate Better(target: real, c: Choice, d: Choice)
    requires c.InSquare() && d.InSquare()
  {
    Error(target, c) < Error(target, d) || (Error(target, c) == Error(target, d) && Vco(target, c) < Vco(target, d))
  }

  function Built(target: real, c: Choice): PllDivider
    requires c.InSpace()
  {
    NewPllDivider(FbDiv(target, c), c.refDiv, (c.post1 - 1) * 16 + (c.post2 - 1))
  }

  // ------------------------------------------------------------ the search

  /** The order in which choices are tried: each divider from high to low. */
  predicate Earlier(c: Choice, d: Choice) {
    c.refDiv > d.refDiv || (c.refDiv == d.refDiv && (c.post1 > d.post1 || (c.post1 == d.post1 && c.post2 > d.post2)))
  }

  /** `best` is the least of the admissible choices tried before `here`, and the earliest of those. */
  ghost predicate Scanned(p: PllParams, target: real, best: Option<Choice>, here: Choice) {
    && (best.Some? ==> best.value.InSpace() && Earlier(best.value, here) && Admissible(p, target, best.value))
    && forall d: Choice :: d.InSpace() && Earlier(d, here) && Admissible(p, target, d) ==>
         best.Some? && (best.value == d || Better(target, best.value, d)
                        || (!Better(target, d, best.value) && Earlier(best.value, d)))
  }

  /** The three variables of the loop describe `best`. */
  ghost predicate Tracks(target: real, best: Option<Choice>, config: Option<PllDivider>, minError: real,
                         bestVco: real) {
    match best
    case None => config == None && minError == F32_MAX && bestVco == F32_MAX
    case Some(c) =>
      && c.InSpace() && config == Some(Built(target, c)) && minError == Error(target, c)
      && bestVco == Vco(target, c)
  }

  function Next(c: Choice): Choice {
    c.(post2 := c.post2 - 1)
  }

  lemma Skipped(p: PllParams, target: real, best: Option<Choice>, c: Choice)
    requires c.InSpace() && Scanned(p, target, best, c)
    requires Admissible(p, target, c) ==> best.Some? && !Better(target, c, best.value)
    ensures Scanned(p, target, best, Next(c))
  {
    forall d: Choice | d.InSpace() && Earlier(d, Next(c)) ensures Earlier(d, c) || d == c {
    }
  }

  lemma Improved(p: PllParams, target: real, best: Option<Choice>, c: Choice)
    requires c.InSpace() && Scanned(p, target, best, c) && Admissible(p, target, c)
    requires best.Some? ==> Better(target, c, best.value)
    ensures Scanned(p, target, Some(c), Next(c))
  {
    forall d: Choice | d.InSpace() && Earlier(d, Next(c)) && Admissible(p, target, d)
      ensures c == d || Better(target, c, d)
    {
      assert Earlier(d, c) || d == c;
    }
  }

  /** At the end of a loop the choices tried are those tried before the next turn of the loop around it. */
  lemma Carried(p: PllParams, target: real, best: Option<Choice>, here: Choice, next: Choice)
    requires Scanned(p, target, best, here)
    requires forall d: Choice :: d.InSpace() ==> (Earlier(d, here) <==> Earlier(d, next))
    ensures Scanned(p, target, best, next)
  {
  }

  /**
   * The search returns the least choice by error and then VCO, the first of them in search
   * order, of all whose rounded feedback divider is within bounds and less than 1 MHz off.
   */
  method CalculatePll(chip: ChipConfig, target: real) returns (config: Option<PllDivider>, ghost best: Option<Choice>)
    ensures !(chip.freqMin <= target <= chip.freqMax) ==> config == None
    ensures chip.freqMin <= target <= chip.freqMax ==>
              && Scanned(chip.pllParams, target, best, Choice(0, 7, 7))
              && config == (match best case None => None case Some(c) => Some(Built(target, c)))
              && (match config
                  case Some(d) => Works(chip.pllParams, target, d) && NoneCloser(chip.pllParams, target, d)
                  case None => NoneWorks(chip.pllParams, target))
  {
    config, best := None, None;
    if !(chip.freqMin <= target <= chip.freqMax) {
      return;
    }
    var p := chip.pllParams;
    var minError, bestVco := F32_MAX, F32_MAX;
    for refDiv := 3 downto 1
      invariant Scanned(p, target, best, Choice(refDiv - 1, 7, 7)) && Tracks(target, best, config, minError, bestVco)
    {
      for postDiv1 := 8 downto 1
        invariant Scanned(p, target, best, Choice(refDiv, postDiv1 - 1, postDiv1 - 1))
        invariant Tracks(target, best, config, minError, bestVco)
      {
        for postDiv2 := postDiv1 + 1 downto 1
          invariant Scanned(p, target, best, Choice(refDiv, postDiv1, postDiv2 - 1))
          invariant Tracks(target, best, config, minError, bestVco)
        {
          config, minError, bestVco, best :=
              Consider(p, target, refDiv, postDiv1, postDiv2, config, minError, bestVco, best);
        }
        Carried(p, target, best, Choice(refDiv, postDiv1, 0), Choice(refDiv, postDiv1 - 1, postDiv1 - 1));
      }
      Carried(p, target, best, Choice(refDiv, 0, 0), Choice(refDiv - 1, 7, 7));
    }
    AnswerMeans(p, target, best);
  }

  /** The body of the search's loops. */
  method Consider(p: PllParams, target: real, refDiv: int, postDiv1: int, postDiv2: int,
                  config: Option<PllDivider>, minError: real, bestVco: real, ghost best: Option<Choice>)
    returns (config': Option<PllDivider>, minError': real, bestVco': real, ghost best': Option<Choice>)
    requires Choice(refDiv, postDiv1, postDiv2).InSpace()
    requires Scanned(p, target, best, Choice(refDiv, postDiv1, postDiv2))
             && Tracks(target, best, config, minError, bestVco)
    ensures Scanned(p, target, best', Choice(refDiv, postDiv1, postDiv2 - 1))
            && Tracks(target, best', config', minError', bestVco')
  {
    config', minError', bestVco', best' := config, minError, bestVco, best;
    var c := Choice(refDiv, postDiv1, postDiv2);
    var fbDiv := FbDiv(target, c);
    if fbDiv < p.fbDivMin || fbDiv > p.fbDivMax {
      Skipped(p, target, best, c);
      return;
    }
    var error := ErrorWith(target, c, fbDiv);
    var vco := VcoWith(c, fbDiv);
    if vco < p.vcoMinMhz || vco > p.vcoMaxMhz {
      Skipped(p, target, best, c);
      return;
    }
    if error < 1.0 && (error < minError || (error == minError && vco < bestVco)) {
      Improved(p, target, best, c);
      minError', bestVco' := error, vco;
      var postDiv := (postDiv1 - 1) * 16 + (postDiv2 - 1);
      config' := Some(NewPllDivider(fbDiv, refDiv, postDiv));
      best' := Some(c);
    } else {
      Skipped(p, target, best, c);
    }
  }

  // -------------------------------------------------- what the answer means

  /** The post dividers as the chip decodes them: each one less, in a half of the byte. */
  function PostDiv1(d: PllDivider): int {
    d.postDiv / 16 + 1
  }

  function PostDiv2(d: PllDivider): int {
    d.postDiv % 16 + 1
  }

  /** The frequency these four dividers make of the crystal's 25 MHz. */
  function OutputMhz(fbDiv: int, refDiv: int, post1: int, post2: int): real {
    var k := refDiv * post1 * post2;
    if k == 0 then 0.0 else 25.0 * fbDiv as real / k as real
  }

  function VcoMhz(fbDiv: int, refDiv: int): real {
    if refDiv == 0 then 0.0 else 25.0 * fbDiv as real / refDiv as real
  }

  /** The feedback divider and its VCO are within the chip's bounds. */
  predicate ChipAllows(p: PllParams, fbDiv: int, refDiv: int) {
    p.fbDivMin <= fbDiv <= p.fbDivMax && p.vcoMinMhz <= VcoMhz(fbDiv, refDiv) <= p.vcoMaxMhz
  }

  /** The divider, as the chip reads it, is one it supports and gives the target to within 1 MHz. */
  ghost predicate Works(p: PllParams, target: real, d: PllDivider) {
    && 1 <= d.refDiv <= 2 && 1 <= PostDiv2(d) <= PostDiv1(d) <= 7
    && ChipAllows(p, d.fbDiv, d.refDiv)
    && (d.vcoSel == High <==> VcoMhz(d.fbDiv, d.refDiv) >= 2400.0)
    && Abs(target - OutputMhz(d.fbDiv, d.refDiv, PostDiv1(d), PostDiv2(d))) < 1.0
  }

  /** What a choice gives with its rounded feedback divider, if the chip allows that. */
  ghost predicate Offers(p: PllParams, target: real, c: Choice) {
    c.InSquare() && ChipAllows(p, FbDiv(target, c), c.refDiv)
  }

  ghost function Misses(target: real, c: Choice): real
    requires c.InSquare()
  {
    Abs(target - OutputMhz(FbDiv(target, c), c.refDiv, c.post1, c.post2))
  }

  /** No choice of dividers comes closer, and of those as close none has a lower VCO. */
  ghost predicate NoneCloser(p: PllParams, target: real, d: PllDivider) {
    var miss := Abs(target - OutputMhz(d.fbDiv, d.refDiv, PostDiv1(d), PostDiv2(d)));
    forall c: Choice :: Offers(p, target, c) ==>
      && miss <= Misses(target, c)
      && (miss == Misses(target, c) ==> VcoMhz(d.fbDiv, d.refDiv) <= VcoMhz(FbDiv(target, c), c.refDiv))
  }

  ghost predicate NoneWorks(p: PllParams, target: real) {
    forall c: Choice :: Offers(p, target, c) ==> Misses(target, c) >= 1.0
  }

  lemma SameMiss(p: PllParams, target: real, c: Choice)
    requires c.InSquare()
    ensures Misses(target, c) == Error(target, c) && VcoMhz(FbDiv(target, c), c.refDiv) == Vco(target, c)
    ensures Offers(p, target, c) && Misses(target, c) < 1.0 <==> Admissible(p, target, c)
  {
    Associated(c.refDiv, c.post1, c.post2);
    SameOutput(target, c, c.Product(), FbDiv(target, c));
  }

  lemma Associated(a: int, b: int, c: int)
    ensures a * b * c == a * (b * c)
  {
  }

  lemma SameOutput(target: real, c: Choice, k: int, fbDiv: int)
    requires c.InSquare() && k == c.Product() && k == c.refDiv * c.post1 * c.post2
    ensures Abs(target - OutputMhz(fbDiv, c.refDiv, c.post1, c.post2)) == OffBy(target, k, fbDiv)
  {
  }

  lemma BuiltDecodes(target: real, c: Choice)
    requires c.InSpace()
    ensures var d := Built(target, c);
            && d.fbDiv == FbDiv(target, c) && d.refDiv == c.refDiv && PostDiv1(d) == c.post1 && PostDiv2(d) == c.post2
            && (d.vcoSel == High <==> VcoMhz(d.fbDiv, d.refDiv) >= 2400.0)
  {
  }

  /** The answer made from the search's choice, in terms of the frequency the chip makes of it. */
  lemma AnswerMeans(p: PllParams, target: real, best: Option<Choice>)
    requires Scanned(p, target, best, Choice(0, 7, 7))
    ensures match best
            case Some(c) => Works(p, target, Built(target, c)) && NoneCloser(p, target, Built(target, c))
            case None => NoneWorks(p, target)
  {
    if best.Some? {
      BuiltDecodes(target, best.value);
      SameMiss(p, target, best.value);
    }
    forall c: Choice | Offers(p, target, c)
      ensures best.None? ==> Misses(target, c) >= 1.0
      ensures best.Some? ==>
                && Error(target, best.value) <= Misses(target, c)
                && (Error(target, best.value) == Misses(target, c) ==>
                      Vco(target, best.value) <= VcoMhz(FbDiv(target, c), c.refDiv))
    {
      SameMiss(p, target, c);
      if Misses(target, c) < 1.0 {
        OptimumOfSquare(p, target, best, c);
      }
    }
  }

  // -------------------------------------------------- what the optimum means

  lemma RoundNearest(x: real, n: int)
    requires 0 <= n <= 255
    ensures Abs(x - RoundToByte(x) as real) <= Abs(x - n as real)
  {
    var m := (x + 0.5).Floor;
    assert m as real <= x + 0.5 < m as real + 1.0;
    if n < m {
      assert n as real <= m as real - 1.0;
    } else if n > m {
      assert n as real >= m as real + 1.0;
    }
    if m >= 255 {
      assert m as real >= 255.0 >= n as real;
    }
  }

  lemma OffByScaled(target: real, k: int, n: int)
    requires k > 0
    ensures OffBy(target, k, n) * k as real == CRYSTAL_MHZ * Abs(FbRatio(target, k) - n as real)
  {
    var r := k as real;
    var a := CRYSTAL_MHZ * n as real / r;
    assert a * r == CRYSTAL_MHZ * n as real;
    assert (target - a) * r == r * target - CRYSTAL_MHZ * n as real;
    assert r * target - CRYSTAL_MHZ * n as real == CRYSTAL_MHZ * (r * target / CRYSTAL_MHZ - n as real);
    AbsScaled(target - a, r);
  }

  lemma AbsScaled(x: real, k: real)
    requires k > 0.0
    ensures Abs(x) * k == Abs(x * k)
  {
    if x < 0.0 {
      assert x * k < 0.0;
    } else {
      assert x * k >= 0.0;
    }
  }

  /** For given dividers no feedback divider is closer than the rounded one. */
  lemma RoundedIsNearest(target: real, c: Choice, n: int)
    requires c.InSquare() && 0 <= n <= 255
    ensures Error(target, c) <= ErrorWith(target, c, n)
  {
    NearestOffBy(target, c.Product(), n);
  }

  lemma NearestOffBy(target: real, k: int, n: int)
    requires k > 0 && 0 <= n <= 255
    ensures OffBy(target, k, RoundToByte(FbRatio(target, k))) <= OffBy(target, k, n)
  {
    var x := FbRatio(target, k);
    var m := RoundToByte(x);
    RoundNearest(x, n);
    Closer(target, k, x, m, n);
  }

  /** The error in units of the feedback divider. */
  lemma OffByIs(target: real, k: int, n: int, x: real, unit: real)
    requires k > 0 && x == FbRatio(target, k) && unit * k as real == CRYSTAL_MHZ
    ensures OffBy(target, k, n) == unit * Abs(x - n as real)
  {
    OffByScaled(target, k, n);
    var u := Abs(x - n as real);
    assert (unit * u) * k as real == CRYSTAL_MHZ * u;
    CancelLe(OffBy(target, k, n), unit * u, k as real);
    CancelLe(unit * u, OffBy(target, k, n), k as real);
  }

  lemma Closer(target: real, k: int, x: real, m: int, n: int)
    requires k > 0 && x == FbRatio(target, k) && Abs(x - m as real) <= Abs(x - n as real)
    ensures OffBy(target, k, m) <= OffBy(target, k, n)
  {
    var unit := UnitOf(k);
    OffByIs(target, k, m, x, unit);
    OffByIs(target, k, n, x, unit);
    Stretched(Abs(x - m as real), Abs(x - n as real), unit);
  }

  lemma UnitOf(k: int) returns (unit: real)
    requires k > 0
    ensures unit > 0.0 && unit * k as real == CRYSTAL_MHZ
  {
    unit := CRYSTAL_MHZ / k as real;
  }

  lemma Stretched(u: real, v: real, s: real)
    requires u <= v && s > 0.0
    ensures s * u <= s * v
  {
  }

  lemma CancelLe(a: real, b: real, k: real)
    requires k > 0.0
    ensures a * k <= b * k <==> a <= b
  {
    if a > b {
      assert (a - b) * k > 0.0;
    } else {
      assert (b - a) * k >= 0.0;
    }
  }

  /** Swapping the post dividers changes nothing that the search looks at. */
  lemma PostsCommute(p: PllParams, target: real, c: Choice)
    requires c.InSquare()
    ensures var d := Choice(c.refDiv, c.post2, c.post1);
            && d.InSquare()
            && FbDiv(target, d) == FbDiv(target, c) && Error(target, d) == Error(target, c)
            && Vco(target, d) == Vco(target, c)
            && (Admissible(p, target, d) <==> Admissible(p, target, c))
  {
    assert Choice(c.refDiv, c.post2, c.post1).Product() == c.Product();
  }

  /** The search's choice against every pair of post dividers, ordered or not. */
  lemma OptimumOfSquare(p: PllParams, target: real, best: Option<Choice>, d: Choice)
    requires Scanned(p, target, best, Choice(0, 7, 7))
    requires d.InSquare() && Admissible(p, target, d)
    ensures best.Some? && best.value.InSpace() && Admissible(p, target, best.value) && !Better(target, d, best.value)
  {
    var e := if d.post2 <= d.post1 then d else Choice(d.refDiv, d.post2, d.post1);
    PostsCommute(p, target, d);
    assert e.InSpace() && Admissible(p, target, e) && Earlier(e, Choice(0, 7, 7));
  }

  /** A feedback divider within bounds, with these dividers, gives the target to within 1 MHz. */
  predicate Reaches(p: PllParams, target: real, c: Choice, fbDiv: u8)
    requires c.InSquare()
  {
    InBounds(p, c, fbDiv) && ErrorWith(target, c, fbDiv) < 1.0
  }

  /**
   * A choice by which the target can be reached is admissible if and only if its rounded
   * feedback divider passes the guards of the search.
   */
  lemma ReachedIffRoundedInBounds(p: PllParams, target: real, c: Choice, fbDiv: u8)
    requires c.InSquare() && Reaches(p, target, c, fbDiv)
    ensures Admissible(p, target, c) <==> InBounds(p, c, FbDiv(target, c))
  {
    RoundedIsNearest(target, c, fbDiv);
  }

  /**
   * So the search finds a divider exactly when the target can be reached by a choice whose
   * rounded feedback divider passes the guards; and then no choice that passes them, with any
   * feedback divider, comes closer.
   */
  lemma FoundExactlyWhen(p: PllParams, target: real, best: Option<Choice>)
    requires Scanned(p, target, best, Choice(0, 7, 7))
    ensures best.Some? <==>
              exists c: Choice, fbDiv: u8 :: c.InSquare() && Reaches(p, target, c, fbDiv)
                  && InBounds(p, c, FbDiv(target, c))
    ensures best.Some? ==> forall c: Choice, fbDiv: u8 ::
              c.InSquare() && Reaches(p, target, c, fbDiv) && InBounds(p, c, FbDiv(target, c)) ==>
              best.value.InSpace() && Error(target, best.value) <= ErrorWith(target, c, fbDiv)
  {
    if best.Some? {
      assert Reaches(p, target, best.value, FbDiv(target, best.value));
    }
    forall c: Choice, fbDiv: u8 | c.InSquare() && Reaches(p, target, c, fbDiv) && InBounds(p, c, FbDiv(target, c))
      ensures best.Some? && best.value.InSpace() && Error(target, best.value) <= ErrorWith(target, c, fbDiv)
    {
      ReachedIffRoundedInBounds(p, target, c, fbDiv);
      OptimumOfSquare(p, target, best, c);
      RoundedIsNearest(target, c, fbDiv);
    }
  }

  // ------------------------------------------------- the bounds of the chips

  ghost predicate Reachable(p: PllParams, target: real) {
    exists c: Choice, fbDiv: u8 :: c.InSquare() && Reaches(p, target, c, fbDiv)
  }

  /** The bounds of the two chips there are. */
  predicate ChipBounds(p: PllParams) {
    p == BM1362.pllParams || p == BM1370.pllParams
  }

  /** The target, in MHz, at which the smallest feedback divider is just rounded to. */
  function LowestFound(p: PllParams): real {
    if p.vcoMinMhz < 2000.0 then 3987.5 / 98.0 else 3975.0 / 98.0
  }

  lemma ProductNot13(c: Choice)
    requires c.InSquare()
    ensures c.Product() != 13
  {
    var q := c.post1 * c.post2;
    assert c.Product() == c.refDiv * q;
    assert c.refDiv == 2 ==> c.Product() == 2 * q;
    if c.post1 == 1 {
    } else if c.post1 == 2 {
      assert q == 2 * c.post2;
    } else if c.post1 == 3 {
      assert q == 3 * c.post2;
    } else if c.post1 == 4 {
      assert q == 4 * c.post2;
    } else if c.post1 == 5 {
      assert q == 5 * c.post2;
    } else if c.post1 == 6 {
      assert q == 6 * c.post2;
    } else {
      assert q == 7 * c.post2;
    }
  }

  lemma OffByLess(target: real, k: int, n: int)
    requires k > 0
    ensures OffBy(target, k, n) < 1.0 <==> CRYSTAL_MHZ * Abs(FbRatio(target, k) - n as real) < k as real
  {
    OffByScaled(target, k, n);
    CancelLe(1.0, OffBy(target, k, n), k as real);
  }

  /** With a product this small only the divider that is rounded to comes within 1 MHz. */
  lemma SmallProductRounds(p: PllParams, target: real, c: Choice, fbDiv: u8)
    requires c.InSquare() && c.Product() <= 12 && Reaches(p, target, c, fbDiv)
    ensures Admissible(p, target, c)
  {
    OffByLess(target, c.Product(), fbDiv);
    RoundsTo(FbRatio(target, c.Product()), fbDiv);
  }

  lemma RoundsTo(x: real, n: u8)
    requires CRYSTAL_MHZ * Abs(x - n as real) < 12.0
    ensures RoundToByte(x) == n
  {
    var m := (x + 0.5).Floor;
    assert m as real <= x + 0.5 < m as real + 1.0;
  }

  /** A greater product reaches low targets only. */
  lemma GreatProductIsLow(p: PllParams, target: real, c: Choice, fbDiv: u8)
    requires c.InSquare() && c.Product() >= 14 && Reaches(p, target, c, fbDiv)
    ensures 14.0 * (target - 1.0) < CRYSTAL_MHZ * p.fbDivMax as real
  {
    Unscale(target, c.Product(), fbDiv);
    LowTimes14(c.Product() as real, target, CRYSTAL_MHZ * fbDiv as real);
  }

  lemma LowTimes14(r: real, t: real, b: real)
    requires r >= 14.0 && b >= 0.0 && r * t < b + r
    ensures 14.0 * (t - 1.0) < b
  {
    var s := t - 1.0;
    assert r * s < b;
    if s > 0.0 {
      Stretched(14.0, r, s);
    } else if s == 0.0 {
      assert r * s == 0.0;
    }
  }

  lemma Unscale(target: real, k: int, n: int)
    requires k > 0 && OffBy(target, k, n) < 1.0
    ensures k as real * target < CRYSTAL_MHZ * n as real + k as real
  {
    OffByLess(target, k, n);
    assert CRYSTAL_MHZ * FbRatio(target, k) == k as real * target;
  }

  /** A product of 14 or more is within 1 MHz after rounding, so only the bounds remain. */
  lemma RoundingIsClose(target: real, k: int, fbDiv: u8)
    requires k >= 14 && fbDiv as real - 0.5 <= FbRatio(target, k) < fbDiv as real + 0.5
    ensures OffBy(target, k, fbDiv) < 1.0
  {
    OffByLess(target, k, fbDiv);
  }

  lemma RoundedBetween(x: real, low: u8, high: u8)
    requires low <= high < 255 && low as real - 0.5 <= x < high as real + 0.5
    ensures low <= RoundToByte(x) <= high
    ensures RoundToByte(x) as real - 0.5 <= x < RoundToByte(x) as real + 0.5
  {
    var m := (x + 0.5).Floor;
    assert m as real <= x + 0.5 < m as real + 1.0;
  }

  lemma WindowAdmissible(p: PllParams, target: real, c: Choice)
    requires ChipBounds(p) && c.InSquare() && c.refDiv == 2 && c.Product() >= 14
    requires 159.5 <= FbRatio(target, c.Product()) < p.fbDivMax as real + 0.5
    ensures Admissible(p, target, c)
  {
    RoundedBetween(FbRatio(target, c.Product()), 160, p.fbDivMax);
    RoundingIsClose(target, c.Product(), FbDiv(target, c));
  }

  /** Seven pairs of post dividers between them cover the targets that great products can reach. */
  lemma WindowFor(p: PllParams, target: real) returns (c: Choice)
    requires ChipBounds(p) && 3987.5 / 98.0 <= target
    requires 14.0 * target < CRYSTAL_MHZ * (p.fbDivMax as real + 0.5)
    ensures c.InSquare() && Admissible(p, target, c)
  {
    c := if target < 61.0 then Choice(2, 7, 7) else if target < 83.0 then Choice(2, 6, 6)
         else if target < 106.0 then Choice(2, 7, 4) else if target < 149.0 then Choice(2, 5, 4)
         else if target < 213.0 then Choice(2, 7, 2) else if target < 299.0 then Choice(2, 5, 2) else Choice(2, 7, 1);
    var k := if target < 61.0 then 98 else if target < 83.0 then 72 else if target < 106.0 then 56
             else if target < 149.0 then 40 else if target < 213.0 then 28 else if target < 299.0 then 20 else 14;
    assert c.Product() == k;
    assert 159.5 <= FbRatio(target, k) < p.fbDivMax as real + 0.5;
    WindowAdmissible(p, target, c);
  }

  /** The few targets just above, and for the BM1362 just below, have a choice of their own. */
  lemma SliverAbove(p: PllParams, target: real)
    requires ChipBounds(p) && 14.0 * target >= CRYSTAL_MHZ * (p.fbDivMax as real + 0.5)
    requires 14.0 * (target - 1.0) < CRYSTAL_MHZ * p.fbDivMax as real
    ensures Admissible(p, target, Choice(2, 6, 1))
  {
    var c, fb: u8 := Choice(2, 6, 1), if p == BM1362.pllParams then 215 else 205;
    assert c.Product() == 12;
    OffByLess(target, 12, fb);
    RoundsTo(FbRatio(target, 12), fb);
  }

  lemma SliverBelow(target: real)
    requires 3975.0 / 98.0 <= target < 3987.5 / 98.0
    ensures Admissible(BM1362.pllParams, target, Choice(1, 7, 7))
  {
    var c := Choice(1, 7, 7);
    assert c.Product() == 49;
    RoundedBetween(FbRatio(target, 49), 80, 80);
    RoundingIsClose(target, 49, 80);
  }

  lemma NothingBelow(p: PllParams, target: real, c: Choice)
    requires ChipBounds(p) && target < LowestFound(p) && c.InSquare()
    ensures !Admissible(p, target, c)
  {
    var x := FbRatio(target, c.Product());
    if c.refDiv == 1 {
      ProductBounds(Choice(2, c.post1, c.post2));
      RatioBelow(target, c.Product(), 49, LowestFound(p));
      assert RoundToByte(x) <= if p == BM1362.pllParams then 79 else 80;
    } else {
      RatioBelow(target, c.Product(), 98, LowestFound(p));
      assert RoundToByte(x) <= 159;
    }
  }

  lemma RatioBelow(target: real, k: int, most: int, limit: real)
    requires 0 < k <= most && target < limit && limit > 0.0
    ensures FbRatio(target, k) < most as real * limit / CRYSTAL_MHZ
  {
    var r, m := k as real, most as real;
    if target <= 0.0 {
      assert r * target <= 0.0 < m * limit;
    } else {
      assert (m - r) * target >= 0.0;
      assert m * (limit - target) > 0.0;
      assert r * target < m * limit;
    }
  }

  /**
   * Within the bounds of the chips there are, a target that some divider reaches is found if
   * and only if it is no lower than the one at which the smallest feedback divider is just
   * rounded to: about 40.69 MHz on the BM1370, and 40.56 on the BM1362.
   */
  lemma ReachableFoundExactlyWhen(p: PllParams, target: real, best: Option<Choice>)
    requires ChipBounds(p) && Scanned(p, target, best, Choice(0, 7, 7)) && Reachable(p, target)
    ensures best.Some? <==> target >= LowestFound(p)
  {
    if target < LowestFound(p) {
      if best.Some? {
        NothingBelow(p, target, best.value);
      }
    } else {
      var c := SomeAdmissible(p, target);
      OptimumOfSquare(p, target, best, c);
    }
  }

  lemma SomeAdmissible(p: PllParams, target: real) returns (c: Choice)
    requires ChipBounds(p) && target >= LowestFound(p) && Reachable(p, target)
    ensures c.InSquare() && Admissible(p, target, c)
  {
    var d: Choice, fbDiv: u8 :| d.InSquare() && Reaches(p, target, d, fbDiv);
    ProductNot13(d);
    if d.Product() <= 12 {
      SmallProductRounds(p, target, d, fbDiv);
      c := d;
    } else {
      GreatProductIsLow(p, target, d, fbDiv);
      c := LowTarget(p, target);
    }
  }

  lemma LowTarget(p: PllParams, target: real) returns (c: Choice)
    requires ChipBounds(p) && target >= LowestFound(p)
    requires 14.0 * (target - 1.0) < CRYSTAL_MHZ * p.fbDivMax as real
    ensures c.InSquare() && Admissible(p, target, c)
  {
    if target < 3987.5 / 98.0 {
      SliverBelow(target);
      c := Choice(1, 7, 7);
    } else if 14.0 * target < CRYSTAL_MHZ * (p.fbDivMax as real + 0.5) {
      c := WindowFor(p, target);
    } else {
      SliverAbove(p, target);
      c := Choice(2, 6, 1);
    }
  }

  /**
   * On either chip the documentation therefore holds: at every frequency of the chip's
   * range, nothing is found exactly when no divider reaches it.
   */
  lemma NoneMeansUnreachable(chip: ChipConfig, target: real, best: Option<Choice>)
    requires chip == BM1362 || chip == BM1370
    requires chip.freqMin <= target <= chip.freqMax && Scanned(chip.pllParams, target, best, Choice(0, 7, 7))
    ensures best.None? <==> !Reachable(chip.pllParams, target)
  {
    if Reachable(chip.pllParams, target) {
      ReachableFoundExactlyWhen(chip.pllParams, target, best);
    }
    if best.Some? {
      assert Reaches(chip.pllParams, target, best.value, FbDiv(target, best.value));
    }
  }

  /** A frequency, which is a whole number of hertz, in MHz. */
  function Mhz(hz: nat): real {
    hz as real / 1_000_000.0
  }

  /**
   * The bounds alone do not make it hold: with those of the BM1370 and a range from 40 MHz,
   * nothing is found at 40.663265 MHz, though a feedback divider of 160 reaches it.
   */
  lemma ReachedButNotFound()
    ensures var chip, target := BM1370.(freqMin := 40.0), Mhz(40_663_265);
            && chip.freqMin <= target <= chip.freqMax
            && Reaches(chip.pllParams, target, Choice(2, 7, 7), 160)
            && forall best :: Scanned(chip.pllParams, target, best, Choice(0, 7, 7)) ==> best == None
  {
    var p, target := BM1370.pllParams, Mhz(40_663_265);
    assert Choice(2, 7, 7).Product() == 98;
    OffByLess(target, 98, 160);
    forall c: Choice | c.InSquare() ensures !Admissible(p, target, c) {
      NothingBelow(p, target, c);
    }
  }

  // ------------------------------------------------------------- the ramp

  /** Post dividers that hit the `n`-th ramp step on the nose. */
  function RampPosts(n: nat): (c: Choice)
    requires 9 <= n <= 84
    ensures c.InSpace() && c.refDiv == 2
  {
    if n >= 80 then Choice(2, 4, 1)
    else if n >= 54 then Choice(2, 6, 1)
    else if n >= 40 then Choice(2, 4, 2)
    else if n >= 32 then Choice(2, 5, 2)
    else if n >= 27 then Choice(2, 6, 2)
    else if n >= 23 then Choice(2, 7, 2)
    else if n >= 20 then Choice(2, 4, 4)
    else if n >= 16 then Choice(2, 5, 4)
    else if n >= 14 then Choice(2, 6, 4)
    else if n >= 12 then Choice(2, 7, 4)
    else if n >= 11 then Choice(2, 6, 5)
    else Choice(2, 6, 6)
  }

  /** The feedback divider that goes with them. */
  lemma RampFbDiv(n: nat) returns (fb: u8)
    requires 9 <= n <= 84
    ensures 160 <= fb <= 239 && fb * 4 == RampPosts(n).Product() * n
  {
    var c := RampPosts(n);
    assert c.Product() == 2 * (c.post1 * c.post2);
    fb := if n >= 80 then 2 * n else if n >= 54 then 3 * n else if n >= 40 then 4 * n else if n >= 32 then 5 * n
          else if n >= 27 then 6 * n else if n >= 23 then 7 * n else if n >= 20 then 8 * n else if n >= 16 then 10 * n
          else if n >= 14 then 12 * n else if n >= 12 then 14 * n else if n >= 11 then 15 * n else 18 * n;
  }

  lemma RampRatio(k: int, n: nat, fb: u8)
    requires fb * 4 == k * n
    ensures FbRatio(n as real * RAMP_STEP, k) == fb as real
  {
    assert (k * n) as real == k as real * n as real;
    assert k as real * (n as real * RAMP_STEP) == (k as real * n as real) * RAMP_STEP;
  }

  lemma ExactHit(target: real, k: int, fb: u8)
    requires k > 0 && FbRatio(target, k) == fb as real
    ensures RoundToByte(FbRatio(target, k)) == fb && OffBy(target, k, fb) == 0.0
  {
    OffByScaled(target, k, fb);
    CancelLe(OffBy(target, k, fb), 0.0, k as real);
  }

  lemma RampStepHit(n: nat)
    requires 9 <= n <= 84
    ensures var c, target := RampPosts(n), n as real * RAMP_STEP;
            && 160 <= FbDiv(target, c) <= 239
            && Error(target, c) == 0.0
            && Vco(target, c) == 12.5 * FbDiv(target, c) as real
  {
    var c, target := RampPosts(n), n as real * RAMP_STEP;
    var fb := RampFbDiv(n);
    RampRatio(c.Product(), n, fb);
    ExactHit(target, c.Product(), fb);
  }

  /**
   * Every frequency of the bring-up ramp, 56.25 to 525 MHz in steps of 6.25, is hit exactly
   * on both chips: whatever the search ends with there has no error, as the chip decodes it.
   */
  lemma RampIsExact(chip: ChipConfig, n: nat, best: Option<Choice>)
    requires chip == BM1362 || chip == BM1370
    requires 9 <= n <= 84 && Scanned(chip.pllParams, n as real * RAMP_STEP, best, Choice(0, 7, 7))
    ensures chip.freqMin <= n as real * RAMP_STEP <= chip.freqMax
    ensures best.Some? && best.value.InSpace() && Error(n as real * RAMP_STEP, best.value) == 0.0
    ensures var d := Built(n as real * RAMP_STEP, best.value);
            OutputMhz(d.fbDiv, d.refDiv, PostDiv1(d), PostDiv2(d)) == n as real * RAMP_STEP
  {
    var c, target := RampPosts(n), n as real * RAMP_STEP;
    RampStepHit(n);
    assert Admissible(chip.pllParams, target, c);
    OptimumOfSquare(chip.pllParams, target, best, c);
    BuiltDecodes(target, best.value);
    SameMiss(chip.pllParams, target, best.value);
  }
}
