/**
 * math_questions.c: arithmetic challenge questions.
 *
 * `build_config` repairs the two operand ranges so that every later step
 * fits in a 32-bit `int`; `make_question` picks an enabled operator and
 * drafts `a op b = c` from random draws, sampling the result (or the
 * quotient) first and deriving the dividend so that the relation is exact.
 *
 * Randomness is the sequence of raw values the generator of helpers.c
 * yields (see Helpers.RawStream); `randint(n)` on a raw value `d` is
 * `d % n`. A run that needs more draws than the sequence holds yields None.
 */
module MathQuestions {
  import opened Opt
  import opened Helpers
  import opened Division
  import opened Decimal

  /** The operators, in the order of their bits in `ops`. */
  datatype Op = Add | Sub | Mul | Div | Mod | Rem | DivWithMod | QuotWithRem

  const NUM_OPS: nat := 8

  function OpOf(k: nat): (op: Op)
    requires k < NUM_OPS
    ensures OpIndex(op) == k
  {
    [Add, Sub, Mul, Div, Mod, Rem, DivWithMod, QuotWithRem][k]
  }

  function OpIndex(op: Op): nat {
    match op
    case Add => 0
    case Sub => 1
    case Mul => 2
    case Div => 3
    case Mod => 4
    case Rem => 5
    case DivWithMod => 6
    case QuotWithRem => 7
  }

  /** The bit of `op` is set in `ops`. */
  predicate Enabled(ops: bv8, op: Op) {
    ops & (1 << OpIndex(op)) != 0
  }

  predicate IsDivision(op: Op) {
    op != Add && op != Sub && op != Mul
  }

  // ---------------------------------------------------------------------
  // Configuration (math_questions.c:14-244)
  // ---------------------------------------------------------------------

  /** `-(INT_MAX / 2)` to `INT_MAX / 2`: the sum of two operands fits. */
  const AMAX_MAX: int := INT_MAX / 2
  const AMIN_MIN: int := -AMAX_MAX

  /** `(int)sqrt(INT_MAX) - 1`: a product plus a remainder fits. */
  const MMAX_MAX: int := 46339
  const MMIN_MIN: int := -MMAX_MAX

  datatype Utf8Choice = Auto | Yes | No

  /** The options as parsed from the module arguments, before repair. */
  datatype Options = Options(
    questions: int32, attempts: int32,
    amin: int32, amax: int32, mmin: int32, mmax: int32,
    ops: bv8, useUtf8: Utf8Choice)

  /** The values `build_config` starts from. */
  const DefaultOptions := Options(3, 3, 0, 10, 2, 9, 0, Auto)

  datatype Config = Config(
    questions: int32, attempts: int32,
    amin: int32, amax: int32, mmin: int32, mmax: int32,
    ops: bv8, useUtf8: bool)

  /** At least two values in each range, within the overflow bounds. */
  predicate ValidConfig(c: Config) {
    AMIN_MIN <= c.amin as int < c.amax as int <= AMAX_MAX &&
    MMIN_MIN <= c.mmin as int < c.mmax as int <= MMAX_MAX
  }

  function Clamp(x: int, bound: int): int {
    if x < -bound then -bound else if x > bound then bound else x
  }

  function Max(a: int, b: int): int { if a < b then b else a }

  /** One range during repair, and whether any step has fired so far. */
  datatype Repair = Repair(lo: int, hi: int, fixed: bool)

  /** A reversed range is swapped (math_questions.c:129-144). */
  function SwapStep(r: Repair): (s: Repair)
    ensures s.lo == Min(r.lo, r.hi) && s.hi == Max(r.lo, r.hi)
    ensures s.fixed == (r.fixed || r.hi < r.lo)
  {
    if r.hi < r.lo then Repair(r.hi, r.lo, true) else r
  }

  /** Each end is clamped into `[-bound, bound]`, in the source's order (math_questions.c:147-198). */
  function ClampStep(r: Repair, bound: int): (c: Repair)
    ensures bound >= 0 ==> c.lo == Clamp(r.lo, bound) && c.hi == Clamp(r.hi, bound)
    ensures bound >= 0 ==> c.fixed == (r.fixed || c.lo != r.lo || c.hi != r.hi)
  {
    var r1 := if r.lo < -bound then Repair(-bound, r.hi, true) else r;
    var r2 := if r1.hi < -bound then Repair(r1.lo, -bound, true) else r1;
    var r3 := if r2.lo > bound then Repair(bound, r2.hi, true) else r2;
    if r3.hi > bound then Repair(r3.lo, bound, true) else r3
  }

  /** A one-point range grows by one towards zero (math_questions.c:201-224). */
  function WidenStep(r: Repair): (w: Repair)
    ensures r.lo < r.hi ==> w == r
    ensures r.hi <= r.lo ==> w.fixed && w.hi == w.lo + 1 && (if r.lo < 0 then w.lo == r.lo else w.hi == r.hi)
  {
    if r.hi < r.lo + 1 then
      if r.lo < 0 then Repair(r.lo, r.lo + 1, true) else Repair(r.hi - 1, r.hi, true)
    else r
  }

  /**
   * The repair of one range, step by step as `build_config` does it. Its
   * contract is the closed form: sort the ends, clamp each, and widen a
   * one-point result by one towards zero.
   */
  function RepairRange(lo: int, hi: int, bound: int): (r: Repair)
    requires bound >= 1
    ensures -bound <= r.lo < r.hi <= bound
    ensures var l, h := Clamp(Min(lo, hi), bound), Clamp(Max(lo, hi), bound);
      r.lo == (if l < h || l < 0 then l else h - 1) &&
      r.hi == (if l < h || l >= 0 then h else l + 1)
  {
    WidenStep(ClampStep(SwapStep(Repair(lo, hi, false)), bound))
  }

  /** `build_config` after parsing: both ranges repaired, the locale decides `Auto`. */
  function Repaired(o: Options, localeUtf8: bool): (c: Config)
    ensures ValidConfig(c)
    ensures c.attempts == o.attempts && c.ops == o.ops
  {
    var a := RepairRange(o.amin as int, o.amax as int, AMAX_MAX);
    var m := RepairRange(o.mmin as int, o.mmax as int, MMAX_MAX);
    Config(
      if o.ops == 0 then 0 else o.questions, o.attempts,
      a.lo as int32, a.hi as int32, m.lo as int32, m.hi as int32,
      o.ops,
      match o.useUtf8 case Auto => localeUtf8 case Yes => true case No => false)
  }

  /** Whether `build_config` prints the "Fixed ... range" diagnostic. */
  function RepairFixed(o: Options): bool {
    RepairRange(o.amin as int, o.amax as int, AMAX_MAX).fixed ||
    RepairRange(o.mmin as int, o.mmax as int, MMAX_MAX).fixed
  }

  /**
   * The repair part of `build_config`: the two ranges go through the
   * source's steps in the source's order, sharing one `fixed` flag, with
   * every intermediate value a 32-bit `int`.
   */
  method BuildConfig(o: Options, localeUtf8: bool) returns (config: Config, fixed: bool)
    ensures config == Repaired(o, localeUtf8) && fixed == RepairFixed(o)
    ensures ValidConfig(config)
  {
    var amin, amax, mmin, mmax := o.amin, o.amax, o.mmin, o.mmax;
    fixed := false;
    amin, amax, fixed := SwapReversed(amin, amax, fixed);
    mmin, mmax, fixed := SwapReversed(mmin, mmax, fixed);
    amin, amax, fixed := ClampEnds(amin, amax, AMAX_MAX as int32, fixed);
    mmin, mmax, fixed := ClampEnds(mmin, mmax, MMAX_MAX as int32, fixed);
    amin, amax, fixed := WidenOnePoint(amin, amax, AMAX_MAX as int32, fixed);
    mmin, mmax, fixed := WidenOnePoint(mmin, mmax, MMAX_MAX as int32, fixed);
    FlagIsShared(o.amin as int, o.amax as int, AMAX_MAX, o.mmin as int, o.mmax as int, MMAX_MAX);
    var utf8 := match o.useUtf8 case Auto => localeUtf8 case Yes => true case No => false;
    var questions := if o.ops == 0 then 0 else o.questions;
    config := Config(questions, o.attempts, amin, amax, mmin, mmax, o.ops, utf8);
  }

  method SwapReversed(lo: int32, hi: int32, fixed: bool) returns (lo': int32, hi': int32, fixed': bool)
    ensures Repair(lo' as int, hi' as int, fixed') == SwapStep(Repair(lo as int, hi as int, fixed))
  {
    lo', hi', fixed' := lo, hi, fixed;
    if hi < lo {
      var h := hi;
      hi' := lo;
      lo' := h;
      fixed' := true;
    }
  }

  method ClampEnds(lo: int32, hi: int32, bound: int32, fixed: bool) returns (lo': int32, hi': int32, fixed': bool)
    requires 1 <= bound as int <= AMAX_MAX
    ensures Repair(lo' as int, hi' as int, fixed') == ClampStep(Repair(lo as int, hi as int, fixed), bound as int)
  {
    lo', hi', fixed' := lo, hi, fixed;
    if lo' < -bound { lo' := -bound; fixed' := true; }
    if hi' < -bound { hi' := -bound; fixed' := true; }
    if lo' > bound { lo' := bound; fixed' := true; }
    if hi' > bound { hi' := bound; fixed' := true; }
  }

  method WidenOnePoint(lo: int32, hi: int32, bound: int32, fixed: bool) returns (lo': int32, hi': int32, fixed': bool)
    requires 1 <= bound as int <= AMAX_MAX
    requires -bound <= lo <= bound && -bound <= hi <= bound
    ensures Repair(lo' as int, hi' as int, fixed') == WidenStep(Repair(lo as int, hi as int, fixed))
  {
    lo', hi', fixed' := lo, hi, fixed;
    if hi < lo + 1 {
      if lo < 0 {
        hi' := lo + 1;
      } else {
        lo' := hi - 1;
      }
      fixed' := true;
    }
  }

  /** Running both ranges through the steps with one flag gives each range's own repair, flags or-ed. */
  lemma FlagIsShared(alo: int, ahi: int, ab: int, mlo: int, mhi: int, mb: int)
    requires ab >= 1 && mb >= 1
    ensures var a1 := SwapStep(Repair(alo, ahi, false));
      var m1 := SwapStep(Repair(mlo, mhi, a1.fixed));
      var a2 := ClampStep(Repair(a1.lo, a1.hi, m1.fixed), ab);
      var m2 := ClampStep(Repair(m1.lo, m1.hi, a2.fixed), mb);
      var a3 := WidenStep(Repair(a2.lo, a2.hi, m2.fixed));
      var m3 := WidenStep(Repair(m2.lo, m2.hi, a3.fixed));
      var ra, rm := RepairRange(alo, ahi, ab), RepairRange(mlo, mhi, mb);
      a3.lo == ra.lo && a3.hi == ra.hi && m3.lo == rm.lo && m3.hi == rm.hi &&
      m3.fixed == (ra.fixed || rm.fixed)
  {
    var a1 := SwapStep(Repair(alo, ahi, false));
    StepsCarryFlag(mlo, mhi, mb, a1.fixed);
    var m1 := SwapStep(Repair(mlo, mhi, a1.fixed));
    StepsCarryFlag(a1.lo, a1.hi, ab, m1.fixed);
    var a2 := ClampStep(Repair(a1.lo, a1.hi, m1.fixed), ab);
    StepsCarryFlag(m1.lo, m1.hi, mb, a2.fixed);
    var m2 := ClampStep(Repair(m1.lo, m1.hi, a2.fixed), mb);
    StepsCarryFlag(a2.lo, a2.hi, ab, m2.fixed);
    var a3 := WidenStep(Repair(a2.lo, a2.hi, m2.fixed));
    StepsCarryFlag(m2.lo, m2.hi, mb, a3.fixed);
  }

  /** A step moves the ends independently of the flag, and or-s what it did into it. */
  lemma StepsCarryFlag(lo: int, hi: int, bound: int, f: bool)
    ensures var s := SwapStep(Repair(lo, hi, false));
      SwapStep(Repair(lo, hi, f)) == Repair(s.lo, s.hi, f || s.fixed)
    ensures var c := ClampStep(Repair(lo, hi, false), bound);
      ClampStep(Repair(lo, hi, f), bound) == Repair(c.lo, c.hi, f || c.fixed)
    ensures var w := WidenStep(Repair(lo, hi, false));
      WidenStep(Repair(lo, hi, f)) == Repair(w.lo, w.hi, f || w.fixed)
  {
  }

  /** A range that is already valid is left as it is, and nothing is reported. */
  lemma RepairKeepsValidRange(lo: int, hi: int, bound: int)
    requires 1 <= bound && -bound <= lo < hi <= bound
    ensures RepairRange(lo, hi, bound) == Repair(lo, hi, false)
  {
  }

  /** The diagnostic is printed exactly when the repair changed the range. */
  lemma RepairReportsChange(lo: int, hi: int, bound: int)
    requires bound >= 1
    ensures var r := RepairRange(lo, hi, bound);
      r.fixed <==> (r.lo, r.hi) != (lo, hi)
  {
    var r := RepairRange(lo, hi, bound);
    if (r.lo, r.hi) == (lo, hi) {
      RepairKeepsValidRange(lo, hi, bound);
    }
  }

  /** A range clamped to one point gains its neighbour towards zero, and nothing else moves. */
  lemma CollapsedRangeWidensByOne(lo: int, hi: int, bound: int)
    requires bound >= 1
    requires Clamp(Min(lo, hi), bound) == Clamp(Max(lo, hi), bound)
    ensures var p, r := Clamp(lo, bound), RepairRange(lo, hi, bound);
      if p < 0 then r.lo == p && r.hi == p + 1 else r.lo == p - 1 && r.hi == p
  {
  }

  /** With no operator enabled there are no questions; otherwise the count is kept. */
  lemma NoOperatorsNoQuestions(o: Options, localeUtf8: bool)
    ensures var c := Repaired(o, localeUtf8);
      (o.ops == 0 ==> c.questions == 0) && (o.ops != 0 ==> c.questions == o.questions)
  {
  }

  /** Valid options come through unchanged and without the diagnostic. */
  lemma ValidOptionsUnchanged(o: Options, localeUtf8: bool)
    requires AMIN_MIN <= o.amin as int < o.amax as int <= AMAX_MAX
    requires MMIN_MIN <= o.mmin as int < o.mmax as int <= MMAX_MAX
    ensures var c := Repaired(o, localeUtf8);
      c.amin == o.amin && c.amax == o.amax && c.mmin == o.mmin && c.mmax == o.mmax
    ensures !RepairFixed(o)
  {
    RepairKeepsValidRange(o.amin as int, o.amax as int, AMAX_MAX);
    RepairKeepsValidRange(o.mmin as int, o.mmax as int, MMAX_MAX);
  }

  // ---------------------------------------------------------------------
  // Drafting a question (math_questions.c:252-376)
  // ---------------------------------------------------------------------

  /** The question `a op b`, whose answer is `c`. */
  datatype Problem = Problem(op: Op, a: int, b: int, c: int)

  /** One pass through the body of the drafting loop. */
  datatype Draft = Exhausted | Redraw(next: nat) | Drafted(p: Problem, next: nat)

  /** `randint(n)` when the generator yields the raw value `raw`. */
  function RandIntOf(raw: nat, n: int): (r: int)
    requires n > 0
    ensures 0 <= r < n
  {
    raw % n
  }

  /** `lo + randint(hi - lo + 1)`: a value of the range. */
  function Uniform(raw: nat, lo: int, hi: int): (x: int)
    requires lo <= hi
    ensures lo <= x <= hi
  {
    lo + RandIntOf(raw, hi - lo + 1)
  }

  /**
   * A run of `randint` calls on the generator of helpers.c: the results are
   * RandIntOf applied to the raw stream, so the draws this module works on
   * are that stream and each is below 32768.
   */
  method RandIntRun(prng: Prng, ns: seq<int>) returns (rs: seq<int>)
    requires forall t :: 0 <= t < |ns| ==> ns[t] > 0
    modifies prng
    ensures prng.randomBuf == LcgIter(old(prng.randomBuf), |ns|)
    ensures RawDraws(RawStream(old(prng.randomBuf), |ns|))
    ensures |rs| == |ns| &&
      forall t :: 0 <= t < |ns| ==> rs[t] == RandIntOf(RawStream(old(prng.randomBuf), |ns|)[t], ns[t])
  {
    ghost var x := prng.randomBuf;
    rs := [];
    var t := 0;
    while t < |ns|
      invariant 0 <= t <= |ns| && |rs| == t
      invariant prng.randomBuf == LcgIter(x, t)
      invariant forall u :: 0 <= u < t ==> rs[u] == RandIntOf(LcgOutput(LcgIter(x, u + 1)), ns[u])
    {
      assert LcgIter(x, t + 1) == LcgNext(LcgIter(x, t));
      var r := prng.RandInt(ns[t]);
      rs := rs + [r];
      t := t + 1;
    }
    forall u | 0 <= u < |ns|
      ensures RawStream(x, |ns|)[u] == LcgOutput(LcgIter(x, u + 1))
    {
      RawStreamAt(x, |ns|, u);
    }
  }

  /**
   * A raw value is below 32768, so `lo + randint(hi - lo + 1)` never exceeds
   * `lo + 32767`; a range of at most 32768 values is covered entirely.
   */
  lemma UniformReach(raw: nat, lo: int, hi: int)
    requires raw < 32768 && lo <= hi
    ensures Uniform(raw, lo, hi) <= lo + 32767
    ensures hi - lo < 32768 && raw <= hi - lo ==> Uniform(raw, lo, hi) == lo + raw
  {
  }

  /** `(b < 0 ? -1 : +1)` */
  function DivisorSign(b: int): int {
    if b < 0 then -1 else 1
  }

  /**
   * The first loop: draw operators until one whose bit is set, returning it
   * and the position after its draw.
   */
  function ChooseOp(ops: bv8, draws: seq<nat>, i: nat): (r: Option<(Op, nat)>)
    requires i <= |draws|
    ensures r.Some? ==> Enabled(ops, r.value.0) && i < r.value.1 <= |draws|
    decreases |draws| - i
  {
    if i == |draws| then None
    else
      var op := OpOf(RandIntOf(draws[i], NUM_OPS));
      if Enabled(ops, op) then Some((op, i + 1)) else ChooseOp(ops, draws, i + 1)
  }

  /** ADD and SUB: two values of the additive range; SUB draws its answer first. */
  function DraftAdditive(c: Config, op: Op, draws: seq<nat>, i: nat): (d: Draft)
    requires ValidConfig(c) && (op == Add || op == Sub)
    ensures d.Exhausted? <==> |draws| < i + 2
    ensures !d.Redraw?
    ensures d.Drafted? ==> d.p.op == op && d.next == i + 2
  {
    if |draws| < i + 2 then Exhausted
    else
      var x := Uniform(draws[i], c.amin as int, c.amax as int);
      var y := Uniform(draws[i + 1], c.amin as int, c.amax as int);
      Drafted(if op == Add then Problem(Add, x, y, x + y) else Problem(Sub, x + y, y, x), i + 2)
  }

  /** MUL and DIV: two values of the multiplicative range; DIV draws its answer first and redraws a zero divisor. */
  function DraftMultiplicative(c: Config, op: Op, draws: seq<nat>, i: nat): (d: Draft)
    requires ValidConfig(c) && (op == Mul || op == Div)
    ensures d.Exhausted? <==> |draws| < i + 2
    ensures d.Redraw? <==> op == Div && |draws| >= i + 2 && Uniform(draws[i + 1], c.mmin as int, c.mmax as int) == 0
    ensures d.Redraw? || d.Drafted? ==> d.next == i + 2
    ensures d.Drafted? ==> d.p.op == op
  {
    if |draws| < i + 2 then Exhausted
    else
      var x := Uniform(draws[i], c.mmin as int, c.mmax as int);
      var y := Uniform(draws[i + 1], c.mmin as int, c.mmax as int);
      if op == Mul then Drafted(Problem(Mul, x, y, x * y), i + 2)
      else if y == 0 then Redraw(i + 2)
      else Drafted(Problem(Div, x * y, y, x), i + 2)
  }

  /**
   * MOD and DIV_WITH_MOD: a quotient and a nonzero divisor, then a remainder
   * with the divisor's sign; the dividend is derived from the three.
   */
  function DraftFloor(c: Config, op: Op, draws: seq<nat>, i: nat): (d: Draft)
    requires ValidConfig(c) && (op == Mod || op == DivWithMod)
    ensures d.Exhausted? ==> |draws| < i + 3
    ensures d.Redraw? <==> |draws| >= i + 2 && Uniform(draws[i + 1], c.mmin as int, c.mmax as int) == 0
    ensures d.Redraw? ==> d.next == i + 2
    ensures d.Drafted? ==> d.p.op == op && d.next == i + 3
  {
    if |draws| < i + 2 then Exhausted
    else
      var x := Uniform(draws[i], c.mmin as int, c.mmax as int);
      var b := Uniform(draws[i + 1], c.mmin as int, c.mmax as int);
      if b == 0 then Redraw(i + 2)
      else if |draws| < i + 3 then Exhausted
      else
        var r := DivisorSign(b) * RandIntOf(draws[i + 2], Abs(b));
        var a := x * b + r;
        Drafted(if op == Mod then Problem(Mod, a, b, r) else Problem(DivWithMod, a, b, x), i + 3)
  }

  /**
   * REM and QUOT_WITH_REM: a quotient and a nonzero divisor, then a
   * remainder with the sign the dividend will have; when the quotient is
   * zero that sign is itself drawn.
   */
  function DraftTrunc(c: Config, op: Op, draws: seq<nat>, i: nat): (d: Draft)
    requires ValidConfig(c) && (op == Rem || op == QuotWithRem)
    ensures d.Exhausted? ==> |draws| < i + 4
    ensures d.Redraw? <==> |draws| >= i + 2 && Uniform(draws[i + 1], c.mmin as int, c.mmax as int) == 0
    ensures d.Redraw? ==> d.next == i + 2
    ensures d.Drafted? ==> d.p.op == op && i + 3 <= d.next <= i + 4 && d.next <= |draws|
  {
    if |draws| < i + 2 then Exhausted
    else
      var x := Uniform(draws[i], c.mmin as int, c.mmax as int);
      var b := Uniform(draws[i + 1], c.mmin as int, c.mmax as int);
      if b == 0 then Redraw(i + 2)
      else
        var j := if x == 0 then i + 3 else i + 2;
        if |draws| < j + 1 then Exhausted
        else
          var s := DivisorSign(b) *
            (if x < 0 then -1 else if x > 0 then 1 else RandIntOf(draws[i + 2], 2) * 2 - 1);
          var r := s * RandIntOf(draws[j], Abs(b));
          var a := x * b + r;
          Drafted(if op == Rem then Problem(Rem, a, b, r) else Problem(QuotWithRem, a, b, x), j + 1)
  }

  /**
   * One pass of the drafting loop for `op`: it needs at most four draws,
   * consumes at least one, redraws only for a division, and drafts a
   * problem of the chosen operator.
   */
  function Attempt(c: Config, op: Op, draws: seq<nat>, i: nat): (d: Draft)
    requires ValidConfig(c)
    ensures d.Exhausted? ==> |draws| < i + 4
    ensures d.Redraw? ==> IsDivision(op)
    ensures !d.Exhausted? ==> i < d.next <= |draws|
    ensures d.Drafted? ==> d.p.op == op
  {
    match op
    case Add => DraftAdditive(c, op, draws, i)
    case Sub => DraftAdditive(c, op, draws, i)
    case Mul => DraftMultiplicative(c, op, draws, i)
    case Div => DraftMultiplicative(c, op, draws, i)
    case Mod => DraftFloor(c, op, draws, i)
    case DivWithMod => DraftFloor(c, op, draws, i)
    case Rem => DraftTrunc(c, op, draws, i)
    case QuotWithRem => DraftTrunc(c, op, draws, i)
  }

  /** The second loop: passes until one drafts a problem, which is then sound. */
  function Retry(c: Config, op: Op, draws: seq<nat>, i: nat): (r: Option<(Problem, nat)>)
    requires ValidConfig(c) && i <= |draws|
    ensures r.Some? ==> Sound(r.value.0) && r.value.0.op == op && i < r.value.1 <= |draws|
    decreases |draws| - i
  {
    DraftSound(c, op, draws, i);
    match Attempt(c, op, draws, i)
    case Exhausted => None
    case Redraw(j) => Retry(c, op, draws, j)
    case Drafted(p, j) => Some((p, j))
  }

  /**
   * `make_question`'s two loops: a problem of an enabled operator whose
   * stated answer is the value of the expression, and the position after
   * its last draw.
   */
  function Generate(c: Config, draws: seq<nat>, i: nat): (r: Option<(Problem, nat)>)
    requires ValidConfig(c) && i <= |draws| && RawDraws(draws)
    ensures r.Some? ==> Sound(r.value.0) && Enabled(c.ops, r.value.0.op) && i < r.value.1 <= |draws|
  {
    match ChooseOp(c.ops, draws, i)
    case None => None
    case Some((op, j)) => Retry(c, op, draws, j)
  }

  /** With no operator enabled the first loop never ends; here it runs out of draws. */
  lemma {:induction false} NoOperatorNoProblem(c: Config, draws: seq<nat>, i: nat)
    requires ValidConfig(c) && i <= |draws| && RawDraws(draws) && c.ops == 0
    ensures ChooseOp(c.ops, draws, i) == None && Generate(c, draws, i) == None
    decreases |draws| - i
  {
    if i < |draws| {
      NoOperatorNoProblem(c, draws, i + 1);
    }
  }

  /**
   * With the widest multiplicative range a drafted MUL never has a
   * non-negative operand: both lie within 32767 of MMIN_MIN.
   */
  lemma WideProductReach(c: Config, draws: seq<nat>, i: nat)
    requires ValidConfig(c) && RawDraws(draws)
    requires c.mmin as int == MMIN_MIN && c.mmax as int == MMAX_MAX
    ensures var d := Attempt(c, Mul, draws, i);
      d.Drafted? ==> d.p.a <= MMIN_MIN + 32767 < 0 && d.p.b <= MMIN_MIN + 32767
  {
    if |draws| >= i + 2 {
      UniformReach(draws[i], MMIN_MIN, MMAX_MAX);
      UniformReach(draws[i + 1], MMIN_MIN, MMAX_MAX);
    }
  }

  /** The operator drawn is the first enabled one among the draws. */
  lemma {:induction false} ChooseOpIsFirst(ops: bv8, draws: seq<nat>, i: nat)
    requires i <= |draws|
    ensures var r := ChooseOp(ops, draws, i);
      r.Some? ==> (r.value.0 == OpOf(RandIntOf(draws[r.value.1 - 1], NUM_OPS)) &&
        forall k :: i <= k < r.value.1 - 1 ==> !Enabled(ops, OpOf(RandIntOf(draws[k], NUM_OPS))))
    decreases |draws| - i
  {
    if i < |draws| {
      ChooseOpIsFirst(ops, draws, i + 1);
    }
  }

  // ---------------------------------------------------------------------
  // What a drafted problem means
  // ---------------------------------------------------------------------

  /**
   * The value of `a op b`: C's `/` and `%` truncate towards zero, `mod`
   * and `floor(a / b)` round down, and `[a / b]` is the truncating quotient.
   */
  function Meaning(op: Op, a: int, b: int): int
    requires IsDivision(op) ==> b != 0
  {
    match op
    case Add => a + b
    case Sub => a - b
    case Mul => a * b
    case Div => TruncDiv(a, b)
    case Mod => FloorMod(a, b)
    case Rem => TruncRem(a, b)
    case DivWithMod => FloorDiv(a, b)
    case QuotWithRem => TruncDiv(a, b)
  }

  predicate Fits32(x: int) {
    INT_MIN <= x <= INT_MAX
  }

  predicate InRange(x: int, lo: int32, hi: int32) {
    lo as int <= x <= hi as int
  }

  /** The stated answer is the value of the expression, and all three numbers fit in an `int`. */
  predicate Sound(p: Problem) {
    (IsDivision(p.op) ==> p.b != 0) && p.c == Meaning(p.op, p.a, p.b) &&
    Fits32(p.a) && Fits32(p.b) && Fits32(p.c)
  }

  /** Products of two values of the multiplicative range stay within its square. */
  lemma ProductBound(x: int, y: int)
    requires MMIN_MIN <= x <= MMAX_MAX && MMIN_MIN <= y <= MMAX_MAX
    ensures -(MMAX_MAX * MMAX_MAX) <= x * y <= MMAX_MAX * MMAX_MAX
  {
    var u: int, v: int := Abs(x), Abs(y);
    MagnitudeProduct(x, y);
    MulMonotone(u, MMAX_MAX, v);
    MulMonotone(v, MMAX_MAX, MMAX_MAX);
  }

  lemma MulMonotone(a: int, b: int, c: int)
    requires 0 <= a <= b && 0 <= c
    ensures a * c <= b * c
  {
  }

  lemma MagnitudeProduct(x: int, y: int)
    ensures x * y == Abs(x) * Abs(y) || x * y == -(Abs(x) * Abs(y))
  {
    var u: int, v: int := Abs(x), Abs(y);
    NegateFactor(u, v);
    NegateFactor(-u, v);
  }

  /** A remainder with the divisor's sign, below its magnitude, makes the quotient the floor one. */
  lemma FloorConstruction(x: int, b: int, k: nat)
    requires b != 0 && k < Abs(b)
    ensures var r := DivisorSign(b) * k;
      FloorDiv(x * b + r, b) == x && FloorMod(x * b + r, b) == r
  {
    var r := DivisorSign(b) * k;
    assert ZeroOrSignOf(r, b) && Abs(r) < Abs(b);
    FloorUnique(x * b + r, b, x, r);
  }

  /**
   * A remainder with the sign of `x * b` (drawn when `x` is zero), below
   * the divisor's magnitude, has the sign of the dividend it makes, so the
   * quotient is the truncating one.
   */
  lemma TruncConstruction(x: int, b: int, e: int, k: nat)
    requires b != 0 && k < Abs(b) && (e == 1 || e == -1)
    ensures var s := DivisorSign(b) * (if x < 0 then -1 else if x > 0 then 1 else e);
      TruncDiv(x * b + s * k, b) == x && TruncRem(x * b + s * k, b) == s * k
  {
    var s := DivisorSign(b) * (if x < 0 then -1 else if x > 0 then 1 else e);
    var r := s * k;
    var a := x * b + r;
    assert ZeroOrSignOf(r, a) by {
      SignDominates(x, b, s, k);
    }
    TruncUnique(a, b, x, r);
  }

  /** `x * b` is zero or has the sign `s`, and so has `s * k`: their sum keeps it. */
  lemma SignDominates(x: int, b: int, s: int, k: nat)
    requires b != 0 && (s == 1 || s == -1)
    requires x != 0 ==> s == DivisorSign(b) * (if x < 0 then -1 else 1)
    ensures ZeroOrSignOf(s * k, x * b + s * k)
  {
    if k != 0 {
      if (x > 0 && b > 0) || (x < 0 && b < 0) {
        assert s == 1 && x * b > 0;
      } else if x != 0 {
        assert s == -1 && x * b < 0;
      }
    }
  }

  lemma AdditiveSound(c: Config, op: Op, draws: seq<nat>, i: nat)
    requires ValidConfig(c) && (op == Add || op == Sub)
    ensures var d := DraftAdditive(c, op, draws, i);
      d.Drafted? ==> (Sound(d.p) && InRange(d.p.b, c.amin, c.amax) &&
        InRange(if op == Add then d.p.a else d.p.c, c.amin, c.amax))
  {
  }

  /** MUL multiplies two values of the range; DIV's dividend is an exact multiple of a nonzero divisor. */
  lemma MultiplicativeSound(c: Config, op: Op, draws: seq<nat>, i: nat)
    requires ValidConfig(c) && (op == Mul || op == Div)
    ensures var d := DraftMultiplicative(c, op, draws, i);
      d.Drafted? ==> (Sound(d.p) && InRange(d.p.b, c.mmin, c.mmax) &&
        InRange(if op == Mul then d.p.a else d.p.c, c.mmin, c.mmax) &&
        (op == Div ==> TruncRem(d.p.a, d.p.b) == 0))
  {
    if |draws| >= i + 2 {
      var x := Uniform(draws[i], c.mmin as int, c.mmax as int);
      var y := Uniform(draws[i + 1], c.mmin as int, c.mmax as int);
      ProductBound(x, y);
      if op == Div && y != 0 {
        ExactDivision(x, y);
      }
    }
  }

  /** `mod` is zero or has the divisor's sign; the floor quotient is a value of the range. */
  lemma FloorSound(c: Config, op: Op, draws: seq<nat>, i: nat)
    requires ValidConfig(c) && (op == Mod || op == DivWithMod)
    ensures var d := DraftFloor(c, op, draws, i);
      d.Drafted? ==> (Sound(d.p) && InRange(d.p.b, c.mmin, c.mmax) &&
        InRange(FloorDiv(d.p.a, d.p.b), c.mmin, c.mmax) &&
        (op == Mod ==> ZeroOrSignOf(d.p.c, d.p.b) && Abs(d.p.c) < Abs(d.p.b)))
  {
    if |draws| >= i + 3 {
      var x := Uniform(draws[i], c.mmin as int, c.mmax as int);
      var b := Uniform(draws[i + 1], c.mmin as int, c.mmax as int);
      if b != 0 {
        FloorConstruction(x, b, RandIntOf(draws[i + 2], Abs(b)));
        ProductBound(x, b);
        FloorDivMod(x * b + DivisorSign(b) * RandIntOf(draws[i + 2], Abs(b)), b);
      }
    }
  }

  /** `rem` is zero or has the dividend's sign; the truncating quotient is a value of the range. */
  lemma TruncSound(c: Config, op: Op, draws: seq<nat>, i: nat)
    requires ValidConfig(c) && (op == Rem || op == QuotWithRem)
    ensures var d := DraftTrunc(c, op, draws, i);
      d.Drafted? ==> (Sound(d.p) && InRange(d.p.b, c.mmin, c.mmax) &&
        InRange(TruncDiv(d.p.a, d.p.b), c.mmin, c.mmax) &&
        (op == Rem ==> ZeroOrSignOf(d.p.c, d.p.a) && Abs(d.p.c) < Abs(d.p.b)))
  {
    if |draws| >= i + 2 {
      var x := Uniform(draws[i], c.mmin as int, c.mmax as int);
      var b := Uniform(draws[i + 1], c.mmin as int, c.mmax as int);
      var j := if x == 0 then i + 3 else i + 2;
      if b != 0 && |draws| >= j + 1 {
        var e := if x == 0 then RandIntOf(draws[i + 2], 2) * 2 - 1 else 1;
        var s := DivisorSign(b) * (if x < 0 then -1 else if x > 0 then 1 else e);
        var k := RandIntOf(draws[j], Abs(b));
        TruncConstruction(x, b, e, k);
        ProductBound(x, b);
        TruncDivRem(x * b + s * k, b);
      }
    }
  }

  /** Every drafted problem is sound. */
  lemma DraftSound(c: Config, op: Op, draws: seq<nat>, i: nat)
    requires ValidConfig(c)
    ensures var d := Attempt(c, op, draws, i); d.Drafted? ==> Sound(d.p)
  {
    match op
    case Add => AdditiveSound(c, op, draws, i);
    case Sub => AdditiveSound(c, op, draws, i);
    case Mul => MultiplicativeSound(c, op, draws, i);
    case Div => MultiplicativeSound(c, op, draws, i);
    case Mod => FloorSound(c, op, draws, i);
    case DivWithMod => FloorSound(c, op, draws, i);
    case Rem => TruncSound(c, op, draws, i);
    case QuotWithRem => TruncSound(c, op, draws, i);
  }

  /**
   * `[(-23) / (-7)]` is drafted with the answer 3, the truncating quotient:
   * -23 == 3 * -7 - 2 with the remainder -2 of the dividend's sign.
   */
  lemma QuotWithRemExample()
    ensures var c := Config(3, 3, 0, 10, -9, 9, 0xFF, false);
      DraftTrunc(c, QuotWithRem, [12, 2, 2], 0) == Drafted(Problem(QuotWithRem, -23, -7, 3), 3) &&
      Meaning(QuotWithRem, -23, -7) == 3 && TruncRem(-23, -7) == -2
  {
    TruncUnique(-23, -7, 3, -2);
  }

  // ---------------------------------------------------------------------
  // The text of a question and of its answer (math_questions.c:384-403)
  // ---------------------------------------------------------------------

  /** `%d`, in parentheses when negative. */
  function Operand(x: int): string {
    if x < 0 then "(" + IntToString(x) + ")" else IntToString(x)
  }

  /** Characters below 128: what a terminal without UTF-8 can show. */
  predicate Ascii(s: string) {
    forall k :: 0 <= k < |s| ==> s[k] as int < 128
  }

  /**
   * Text before the first operand, between the operands, and after the
   * second: only the two combined operators bracket the operands, and
   * without UTF-8 every glyph is plain ASCII.
   */
  function Glyphs(op: Op, utf8: bool): (g: (string, string, string))
    ensures |g.1| >= 1
    ensures g.0 != [] <==> g.2 != []
    ensures g.0 != [] <==> op == DivWithMod || op == QuotWithRem
    ensures !utf8 ==> Ascii(g.0) && Ascii(g.1) && Ascii(g.2)
  {
    match op
    case Add => ("", "+", "")
    case Sub => ("", "-", "")
    case Mul => ("", if utf8 then "\U{00D7}" else "*", "")
    case Div => ("", if utf8 then "\U{00F7}" else "/", "")
    case Mod => ("", "mod", "")
    case Rem => ("", "rem", "")
    case DivWithMod => if utf8 then ("\U{230A}", "\U{00F7}", "\U{230B}") else ("floor(", "/", ")")
    case QuotWithRem => ("[", if utf8 then "\U{00F7}" else "/", "]")
  }

  const Opening: string := "What is "
  const Closing: string := "? "

  /** `"What is %s%s%d%s %s %s%d%s%s? "`: the prompt opens with the first operand as Operand writes it and ends in "? ". */
  function QuestionText(p: Problem, utf8: bool): (t: string)
    ensures |t| >= |Opening| + |Closing| && t[..|Opening|] == Opening && t[|t| - |Closing|..] == Closing
    ensures var k := |Opening| + |Glyphs(p.op, utf8).0|;
      k + |Operand(p.a)| <= |t| && t[k..k + |Operand(p.a)|] == Operand(p.a)
  {
    var g := Glyphs(p.op, utf8);
    Framing(Opening, g.0, Operand(p.a), " " + g.1 + " " + Operand(p.b) + g.2, Closing)
  }

  /** `pre + lead + x + mid + post`, with `pre`, `x` and `post` found where they were put. */
  function Framing(pre: string, lead: string, x: string, mid: string, post: string): (t: string)
    ensures |t| == |pre| + |lead| + |x| + |mid| + |post|
    ensures t[..|pre|] == pre && t[|pre| + |lead|..|pre| + |lead| + |x|] == x && t[|t| - |post|..] == post
  {
    Framed(pre, lead, x + mid + post);
    Framed(pre + lead, x, mid + post);
    Framed(pre + lead + x, mid, post);
    pre + lead + x + mid + post
  }

  /** The pieces of a concatenation are found where they were put. */
  lemma Framed(pre: string, mid: string, post: string)
    ensures var s := pre + mid + post;
      s[..|pre|] == pre && s[|pre|..|pre| + |mid|] == mid && s[|pre| + |mid|..] == post
  {
  }

  /** An operand is parenthesised exactly when negative, and its digits read back as the operand. */
  lemma OperandReadsBack(x: int)
    ensures var t := Operand(x);
      |t| >= 1 && (x < 0 <==> t[0] == '(') &&
      ParseInt(if x < 0 then t[1..|t| - 1] else t) == Some(x)
  {
    FormatThenParse(x);
    var t := Operand(x);
    if x < 0 {
      assert t[1..|t| - 1] == IntToString(x);
    } else {
      assert IsDigit(IntToString(x)[0]);
    }
  }

  /** `get_answer`: the answer as `%d` writes it, which reads back as the answer. */
  function GetAnswer(answer: int32): (s: string)
    ensures ParseInt(s) == Some(answer as int)
  {
    FormatThenParse(answer as int);
    IntToString(answer as int)
  }

  /** `check_answer`: the reply is one integer with nothing after it, equal to the answer. */
  function CheckAnswer(answer: int32, given: string): bool {
    match ParseInt(given)
    case None => false
    case Some(v) => v == answer as int
  }

  /** The answer shown is accepted, and no other answer accepts the same reply. */
  lemma ShownAnswerAccepted(answer: int32, other: int32)
    ensures CheckAnswer(answer, GetAnswer(answer))
    ensures other != answer ==> !CheckAnswer(other, GetAnswer(answer))
  {
  }

  /** Any character after the number, other than a digit, makes a right reply wrong. */
  lemma TrailingCharacterFails(answer: int32, given: string, ch: char)
    requires CheckAnswer(answer, given) && !IsDigit(ch)
    ensures !CheckAnswer(answer, given + [ch])
  {
    TrailingCharacterRejected(given, ch);
  }

  // ---------------------------------------------------------------------
  // make_question on 32-bit integers (math_questions.c:252-390)
  // ---------------------------------------------------------------------

  /** A question as the PAM conversation shows it, and the answer kept for checking. */
  datatype Question = Question(text: string, answer: int32)

  /** `make_question`: the question text and answer, and the position after the last draw. */
  function Ask(c: Config, draws: seq<nat>, i: nat): (r: Option<(Question, nat)>)
    requires ValidConfig(c) && i <= |draws| && RawDraws(draws)
    ensures r.None? <==> Generate(c, draws, i).None?
    ensures r.Some? ==> var (p, j) := Generate(c, draws, i).value;
      r.value.0.text == QuestionText(p, c.useUtf8) && r.value.0.answer as int == Meaning(p.op, p.a, p.b) &&
      r.value.1 == j
  {
    match Generate(c, draws, i)
    case None => None
    case Some((p, j)) => Some((Question(QuestionText(p, c.useUtf8), p.c as int32), j))
  }

  /**
   * The check of a sound problem's answer accepts exactly the replies that
   * read as the value of the expression shown; with Generate's soundness this
   * holds of every question Ask produces.
   */
  lemma AcceptedIffTrueValue(p: Problem, given: string)
    requires Sound(p)
    ensures CheckAnswer(p.c as int32, given) <==> ParseInt(given) == Some(Meaning(p.op, p.a, p.b))
  {
  }

  /** `randint(n)` on 32-bit integers. */
  function RandInt32(raw: nat, n: int32): (r: int32)
    requires n > 0
    ensures r as int == RandIntOf(raw, n as int)
  {
    (raw % n as int) as int32
  }

  method DrawAdditive(c: Config, op: Op, draws: seq<nat>, i: nat) returns (d: Draft)
    requires ValidConfig(c) && (op == Add || op == Sub)
    ensures d == DraftAdditive(c, op, draws, i)
  {
    if |draws| < i + 2 {
      return Exhausted;
    }
    var n := c.amax - c.amin + 1;
    var x := c.amin + RandInt32(draws[i], n);
    var b := c.amin + RandInt32(draws[i + 1], n);
    var y := x + b;
    if op == Add {
      d := Drafted(Problem(Add, x as int, b as int, y as int), i + 2);
    } else {
      d := Drafted(Problem(Sub, y as int, b as int, x as int), i + 2);
    }
  }

  method DrawMultiplicative(c: Config, op: Op, draws: seq<nat>, i: nat) returns (d: Draft)
    requires ValidConfig(c) && (op == Mul || op == Div)
    ensures d == DraftMultiplicative(c, op, draws, i)
  {
    if |draws| < i + 2 {
      return Exhausted;
    }
    var n := c.mmax - c.mmin + 1;
    var x := c.mmin + RandInt32(draws[i], n);
    var b := c.mmin + RandInt32(draws[i + 1], n);
    if op == Div && b == 0 {
      return Redraw(i + 2);
    }
    ProductBound(x as int, b as int);
    var y := x * b;
    if op == Mul {
      d := Drafted(Problem(Mul, x as int, b as int, y as int), i + 2);
    } else {
      d := Drafted(Problem(Div, y as int, b as int, x as int), i + 2);
    }
  }

  method DrawFloor(c: Config, op: Op, draws: seq<nat>, i: nat) returns (d: Draft)
    requires ValidConfig(c) && (op == Mod || op == DivWithMod)
    ensures d == DraftFloor(c, op, draws, i)
  {
    if |draws| < i + 2 {
      return Exhausted;
    }
    var n := c.mmax - c.mmin + 1;
    var q := c.mmin + RandInt32(draws[i], n);
    var b := c.mmin + RandInt32(draws[i + 1], n);
    if b == 0 {
      return Redraw(i + 2);
    }
    if |draws| < i + 3 {
      return Exhausted;
    }
    var s: int32 := if b < 0 then -1 else 1;
    d := PutRemainder(op, q, b, s, draws[i + 2], i + 3);
  }

  method DrawTrunc(c: Config, op: Op, draws: seq<nat>, i: nat) returns (d: Draft)
    requires ValidConfig(c) && (op == Rem || op == QuotWithRem)
    ensures d == DraftTrunc(c, op, draws, i)
  {
    if |draws| < i + 2 {
      return Exhausted;
    }
    var n := c.mmax - c.mmin + 1;
    var q := c.mmin + RandInt32(draws[i], n);
    var b := c.mmin + RandInt32(draws[i + 1], n);
    if b == 0 {
      return Redraw(i + 2);
    }
    var j := i + 2;
    var s: int32 := if b < 0 then -1 else 1;
    var t: int32;
    if q < 0 {
      t := -1;
    } else if q > 0 {
      t := 1;
    } else {
      if |draws| < i + 3 {
        return Exhausted;
      }
      t := RandInt32(draws[i + 2], 2) * 2 - 1;
      j := i + 3;
    }
    s := s * t;
    if |draws| < j + 1 {
      return Exhausted;
    }
    d := PutRemainder(op, q, b, s, draws[j], j + 1);
  }

  /**
   * The common end of the two remainder cases: a remainder below `|b|` with
   * sign `s`, the dividend `q * b + r`, and the problem that asks for the
   * remainder (MOD, REM) or for the quotient (the other two).
   */
  method PutRemainder(op: Op, q: int32, b: int32, s: int32, raw: nat, next: nat) returns (d: Draft)
    requires op == Mod || op == DivWithMod || op == Rem || op == QuotWithRem
    requires MMIN_MIN <= q as int <= MMAX_MAX && MMIN_MIN <= b as int <= MMAX_MAX && b != 0
    requires s == 1 || s == -1
    ensures var r := s as int * RandIntOf(raw, Abs(b as int));
      var a := q as int * b as int + r;
      d == Drafted(if op == Mod || op == Rem then Problem(op, a, b as int, r) else Problem(op, a, b as int, q as int), next)
  {
    var k := RandInt32(raw, if b < 0 then -b else b);
    var r := s * k;
    ProductBound(q as int, b as int);
    var a := q * b + r;
    if op == Mod || op == Rem {
      d := Drafted(Problem(op, a as int, b as int, r as int), next);
    } else {
      d := Drafted(Problem(op, a as int, b as int, q as int), next);
    }
  }

  /** One pass through the `switch`. */
  method DraftOnce(c: Config, op: Op, draws: seq<nat>, i: nat) returns (d: Draft)
    requires ValidConfig(c)
    ensures d == Attempt(c, op, draws, i)
  {
    match op
    case Add => d := DrawAdditive(c, op, draws, i);
    case Sub => d := DrawAdditive(c, op, draws, i);
    case Mul => d := DrawMultiplicative(c, op, draws, i);
    case Div => d := DrawMultiplicative(c, op, draws, i);
    case Mod => d := DrawFloor(c, op, draws, i);
    case DivWithMod => d := DrawFloor(c, op, draws, i);
    case Rem => d := DrawTrunc(c, op, draws, i);
    case QuotWithRem => d := DrawTrunc(c, op, draws, i);
  }

  /**
   * `make_question`: draw operators until an enabled one, then draft until
   * a pass does not hit a zero divisor; the question and its answer are
   * those of Ask, so the answer is the value of the expression shown.
   */
  method MakeQuestion(c: Config, draws: seq<nat>, start: nat) returns (r: Option<(Question, nat)>)
    requires ValidConfig(c) && start <= |draws| && RawDraws(draws)
    ensures r == Ask(c, draws, start)
    ensures r.Some? ==> start < r.value.1 <= |draws|
  {
    if start == |draws| {
      return None;
    }
    var i := start + 1;
    var op := OpOf(RandInt32(draws[start], NUM_OPS as int32) as nat);
    while !Enabled(c.ops, op)
      invariant start < i <= |draws|
      invariant op == OpOf(RandIntOf(draws[i - 1], NUM_OPS))
      invariant ChooseOp(c.ops, draws, i - 1) == ChooseOp(c.ops, draws, start)
      decreases |draws| - i
    {
      if i == |draws| {
        return None;
      }
      op := OpOf(RandInt32(draws[i], NUM_OPS as int32) as nat);
      i := i + 1;
    }
    assert ChooseOp(c.ops, draws, start) == Some((op, i));
    ghost var first := i;
    var d := DraftOnce(c, op, draws, i);
    while d.Redraw?
      invariant first <= i <= |draws|
      invariant d == Attempt(c, op, draws, i)
      invariant Retry(c, op, draws, i) == Retry(c, op, draws, first)
      decreases |draws| - i
    {
      i := d.next;
      d := DraftOnce(c, op, draws, i);
    }
    if d.Exhausted? {
      return None;
    }
    DraftSound(c, op, draws, i);
    assert Generate(c, draws, start) == Some((d.p, d.next));
    r := Some((Question(QuestionText(d.p, c.useUtf8), d.p.c as int32), d.next));
  }
}
