/**
  The rates of a load test: how many executors the scheduler launches for a request, how it
  splits the rates among them, what an executor checks, and how an executor's rate grows.
  A finite floating-point number is a real number, with the rounding of a product as a
  parameter; conversions to integers truncate, and yield the smallest integer when out of range.
 */
module LoadRates {

  const INT32_MAX: int := 0x7FFF_FFFF
  const TWO_62: int := 0x4000_0000_0000_0000
  const TWO_63: int := 0x8000_0000_0000_0000

  predicate IsInt32(x: int) {
    -INT32_MAX - 1 <= x <= INT32_MAX
  }

  /** Go's integer division. */
  function Quo(a: int, b: int): int
    requires b != 0
  {
    if (a >= 0) == (b > 0) then Abs(a) / Abs(b) else -(Abs(a) / Abs(b))
  }

  function Abs(a: int): nat {
    if a >= 0 then a else -a
  }

  function Ceil(x: real): int {
    -((-x).Floor)
  }

  /** Conversion of a float to a 64-bit integer. */
  function ToInt(x: real): int {
    var t := if x >= 0.0 then x.Floor else -((-x).Floor);
    if -TWO_63 <= t < TWO_63 then t else -TWO_63
  }

  /** A float64. Minus infinity fails every check and is left out. */
  datatype Float = NaN | Infinity | Finite(x: real)

  /** Comparing with NaN is never true. */
  predicate LessThan(f: Float, y: real) {
    f.Finite? && f.x < y
  }

  function FloatToInt(f: Float): int {
    if f.Finite? then ToInt(f.x) else -TWO_63
  }

  /** 64-bit arithmetic wraps around. */
  function Wrap(n: int): int {
    (n + TWO_63) % (2 * TWO_63) - TWO_63
  }

  // ---- The scheduler ----

  /** A request, as far as rates go; its fields are int32. */
  datatype Request = Request(starting: int, max: int)

  predicate RequestOk(r: Request) {
    IsInt32(r.starting) && IsInt32(r.max)
  }

  datatype Admission = Admitted(executors: nat) | Rejected | Panics

  function NeedExecutors(max: int, perExecutor: nat): int
    requires perExecutor > 0
  {
    Ceil(max as real / perExecutor as real)
  }

  /** LoadTest, up to the launch: a maximum that needs no executor divides by zero, and one that
      needs a negative number of them cannot be launched. */
  function Admit(r: Request, perExecutor: nat): Admission
    requires RequestOk(r) && perExecutor > 0
  {
    var need := NeedExecutors(r.max, perExecutor);
    if need == 0 then Panics
    else if Quo(r.starting, need) <= 10 then Rejected
    else if need < 0 then Panics
    else Admitted(need)
  }

  /** The share of one of n executors. */
  function Share(r: Request, n: nat): Request
    requires n > 0
  {
    Request(Quo(r.starting, n), Quo(r.max, n))
  }

  // ---- The executor's checks ----

  datatype Params = Params(maxWorkers: int, runTime: int, rates: Request, growthFactor: Float, timeBetweenGrowth: Float)

  datatype Verdict = Fine | TooFewWorkers | TooShort | StartTooLow | MaxTooLow | MaxBelowStart | GrowthTooLow | GrowthTooFast

  function VerifyCommand(p: Params): Verdict {
    if p.maxWorkers < 1 then TooFewWorkers
    else if p.runTime <= 1 then TooShort
    else if p.rates.starting <= 10 then StartTooLow
    else if p.rates.max < 1 then MaxTooLow
    else if p.rates.max < p.rates.starting then MaxBelowStart
    else if LessThan(p.growthFactor, 1.0) then GrowthTooLow
    else if LessThan(p.timeBetweenGrowth, 0.1) then GrowthTooFast
    else Fine
  }

  predicate RateError(v: Verdict) {
    v == StartTooLow || v == MaxTooLow || v == MaxBelowStart
  }

  lemma NeedBounds(max: int, perExecutor: nat)
    requires perExecutor > 0
    ensures var n := NeedExecutors(max, perExecutor); (n - 1) * perExecutor < max <= n * perExecutor
  {
    var x := max as real / perExecutor as real;
    CeilBounds(x);
    ScaledUp(Ceil(x) - 1, max, perExecutor, x);
    ScaledDown(Ceil(x), max, perExecutor, x);
  }

  lemma CeilBounds(x: real)
    ensures (Ceil(x) - 1) as real < x <= Ceil(x) as real
  {
  }

  lemma ScaledUp(n: int, max: int, p: nat, x: real)
    requires p > 0 && x == max as real / p as real && n as real < x
    ensures n * p < max
  {
    Times(x, p as real, max as real);
    Below(n as real, x, p as real);
    TimesInt(n, p);
  }

  lemma ScaledDown(n: int, max: int, p: nat, x: real)
    requires p > 0 && x == max as real / p as real && x <= n as real
    ensures max <= n * p
  {
    Times(x, p as real, max as real);
    NotAbove(x, n as real, p as real);
    TimesInt(n, p);
  }

  lemma Times(x: real, p: real, a: real)
    requires p > 0.0 && x == a / p
    ensures x * p == a
  {
  }

  lemma Below(a: real, b: real, p: real)
    requires p > 0.0 && a < b
    ensures a * p < b * p
  {
  }

  lemma NotAbove(a: real, b: real, p: real)
    requires p > 0.0 && a <= b
    ensures a * p <= b * p
  {
  }

  lemma TimesInt(n: int, p: nat)
    ensures (n * p) as real == n as real * p as real
  {
  }

  lemma NeedSign(max: int, perExecutor: nat)
    requires perExecutor > 0
    ensures max > 0 <==> NeedExecutors(max, perExecutor) > 0
    ensures max > 0 ==> NeedExecutors(max, perExecutor) <= max
  {
    var n := NeedExecutors(max, perExecutor);
    NeedBounds(max, perExecutor);
    Multiples(n, perExecutor);
  }

  lemma Multiples(n: int, p: nat)
    requires p > 0
    ensures n <= 0 ==> n * p <= 0
    ensures n > 0 ==> (n - 1) * p >= n - 1
  {
    if n > 0 {
      NonNegative(n - 1, p - 1);
      assert (n - 1) * p == (n - 1) * (p - 1) + (n - 1);
    } else {
      NonNegative(-n, p);
      assert n * p == -((-n) * p);
    }
  }

  lemma NonNegative(a: nat, b: nat)
    ensures a * b >= 0
  {
  }

  predicate RatesFine(r: Request) {
    10 < r.starting <= r.max
  }

  /** The executor reports a rate error exactly for other rates (if nothing comes before). */
  lemma RateErrorIff(p: Params)
    ensures RateError(VerifyCommand(p)) <==> p.maxWorkers >= 1 && p.runTime > 1 && !RatesFine(p.rates)
  {
  }

  lemma QuotientOrder(a: nat, b: nat, n: nat)
    requires n > 0
    ensures n * (a / n) <= a < n * (a / n) + n
    ensures a <= b ==> a / n <= b / n
  {
    Divided(a, n);
    Divided(b, n);
    if a <= b {
      assert n * (a / n) < n * (b / n + 1);
      Cancel(n, a / n, b / n + 1);
    }
  }

  lemma Divided(a: nat, n: nat)
    requires n > 0
    ensures n * (a / n) <= a < n * (a / n + 1)
  {
    assert n * (a / n + 1) == n * (a / n) + n;
  }

  lemma Cancel(n: nat, x: int, y: int)
    requires n > 0 && n * x < n * y
    ensures x < y
  {
    assert n * (y - x) > 0;
  }

  lemma QuotientBelow(a: nat, n: nat, c: nat)
    requires n > 0 && a <= n * c
    ensures a / n <= c
  {
    Divided(a, n);
    assert n * (a / n) < n * (c + 1);
    Cancel(n, a / n, c + 1);
  }

  /**
    For every request that starts at or below its maximum and is admitted, with all the
    executors needed: the shares pass the executor's rate checks, no share is above what an
    executor may do, and the shares add up to no more than the request. And the request is
    admitted exactly if its shares would pass the check of the starting rate.
   */
  lemma SharesAreFine(r: Request, perExecutor: nat)
    requires RequestOk(r) && perExecutor > 0 && 0 < r.starting <= r.max
    ensures var n := NeedExecutors(r.max, perExecutor);
            && n > 0 && IsInt32(n)
            && (Admit(r, perExecutor) == Admitted(n) <==> RatesFine(Share(r, n)))
            && Share(r, n).max <= perExecutor
            && n * Share(r, n).max <= r.max && n * Share(r, n).starting <= r.starting
  {
    var n := NeedExecutors(r.max, perExecutor);
    NeedBounds(r.max, perExecutor);
    NeedSign(r.max, perExecutor);
    QuotientOrder(r.starting, r.max, n);
    QuotientOrder(r.max, r.max, n);
    QuotientBelow(r.max, n, perExecutor);
  }

  /**
    With any number n of executors joined, which is what the scheduler divides by: an executor's
    share is within what it may do exactly if n times one more than that is above the maximum
    asked for, so in any case if all that are needed joined; the shares add up to no more than
    the request; and the shares of an admitted request pass the executor's rate checks also when
    fewer joined.
   */
  lemma JoinedShares(r: Request, perExecutor: nat, n: nat)
    requires RequestOk(r) && perExecutor > 0 && 0 < r.starting <= r.max && n > 0
    ensures Share(r, n).max <= perExecutor <==> r.max < n * (perExecutor + 1)
    ensures n >= NeedExecutors(r.max, perExecutor) ==> Share(r, n).max <= perExecutor
    ensures n * Share(r, n).max <= r.max && n * Share(r, n).starting <= r.starting
    ensures RatesFine(Share(r, n)) <==> Share(r, n).starting > 10
    ensures Admit(r, perExecutor).Admitted? && n <= NeedExecutors(r.max, perExecutor) ==> RatesFine(Share(r, n))
  {
    var need := NeedExecutors(r.max, perExecutor);
    NeedBounds(r.max, perExecutor);
    NeedSign(r.max, perExecutor);
    QuotientOrder(r.starting, r.max, n);
    QuotientOrder(r.max, r.max, n);
    BoundIff(r.max, n, perExecutor);
    if n >= need {
      Scaled(need, n, perExecutor);
      QuotientBelow(r.max, n, perExecutor);
    } else {
      FewerGetMore(r.starting, n, need);
    }
  }

  lemma BoundIff(a: nat, n: nat, c: nat)
    requires n > 0
    ensures a / n <= c <==> a < n * (c + 1)
  {
    Divided(a, n);
    if a / n <= c {
      Scaled(a / n + 1, c + 1, n);
      assert n * (a / n + 1) == (a / n + 1) * n && n * (c + 1) == (c + 1) * n;
    } else {
      Scaled(c + 1, a / n, n);
      assert n * (a / n) == (a / n) * n && n * (c + 1) == (c + 1) * n;
    }
  }

  lemma Scaled(a: nat, b: nat, n: nat)
    requires a <= b
    ensures a * n <= b * n
  {
    NonNegative(b - a, n);
    assert b * n == a * n + (b - a) * n;
  }

  lemma FewerGetMore(a: nat, n: nat, m: nat)
    requires 0 < n <= m
    ensures a / m <= a / n
  {
    Divided(a, m);
    Scaled(n, m, a / m);
    AtLeastQuotient(a, n, a / m);
  }

  lemma AtLeastQuotient(a: nat, n: nat, q: nat)
    requires n > 0 && n * q <= a
    ensures q <= a / n
  {
    Divided(a, n);
    Cancel(n, q, a / n + 1);
  }

  /** A maximum of zero or less is never served. */
  lemma NoExecutorsForNothing(r: Request, perExecutor: nat)
    requires RequestOk(r) && perExecutor > 0 && r.max <= 0
    ensures !Admit(r, perExecutor).Admitted?
  {
    NeedSign(r.max, perExecutor);
  }

  // ---- The executor's loop ----

  /** At a tick the executor sends jobs, unless it is halted or done: then it stops after any
      number of them. */
  datatype Event = Tick(atMost: nat) | Grow

  const SECOND: int := 1_000_000_000

  /** The period of the growth ticker: the conversion to a duration comes before the product, so
      fractions of a second are dropped. A ticker panics unless its period is positive. */
  function GrowthPeriod(timeBetweenGrowth: Float): int {
    Wrap(SECOND * FloatToInt(timeBetweenGrowth))
  }

  /** 2^63 nanoseconds are 9223372036.85 seconds. */
  const LONGEST: int := 9223372036

  /** Of an accepted command the growth period is positive exactly from one second on, as long
      as it fits a duration; it is the whole seconds. It is zero for what is no number or does
      not fit an integer. */
  lemma GrowthPeriodIs(p: Params)
    requires VerifyCommand(p) == Fine
    ensures var t := p.timeBetweenGrowth;
            && (LessThan(t, (LONGEST + 1) as real) ==>
                  && (GrowthPeriod(t) > 0 <==> t.x >= 1.0)
                  && GrowthPeriod(t) == SECOND * t.x.Floor)
            && (!LessThan(t, TWO_63 as real) ==> GrowthPeriod(t) == 0)
  {
    var t := p.timeBetweenGrowth;
    if LessThan(t, (LONGEST + 1) as real) {
      assert 0 <= t.x.Floor <= LONGEST && ToInt(t.x) == t.x.Floor;
    } else if !LessThan(t, TWO_63 as real) {
      assert FloatToInt(t) == -TWO_63;
    }
  }

  /** Two accepted commands whose growth ticker panics: it would tick every half second, or
      once in 292 years. */
  lemma GrowthPeriodFails(p: Params)
    requires VerifyCommand(p) == Fine
    ensures GrowthPeriod(Finite(0.5)) == 0 && GrowthPeriod(Finite((LONGEST + 1) as real)) < 0
    ensures VerifyCommand(p.(timeBetweenGrowth := Finite(0.5))) == Fine
    ensures VerifyCommand(p.(timeBetweenGrowth := Finite((LONGEST + 1) as real))) == Fine
  {
    assert ToInt(0.5) == 0 && ToInt((LONGEST + 1) as real) == LONGEST + 1;
  }

  /** A growth factor, and how a product is rounded to a float64. */
  datatype Growth = Growth(factor: Float, round: real -> real)

  function Whole(n: int): real {
    n as real
  }

  /** The factor passes the executor's check. Rounding is monotonic, and exact on integers of up
      to 53 bits and on powers of two. */
  ghost predicate GrowthOk(g: Growth) {
    && !LessThan(g.factor, 1.0)
    && (forall x, y :: x <= y ==> g.round(x) <= g.round(y))
    && (forall n: int :: -0x20_0000_0000_0000 <= n <= 0x20_0000_0000_0000 ==> g.round(Whole(n)) == Whole(n))
    && g.round(Whole(TWO_62)) == Whole(TWO_62)
  }

  /** What runScript keeps between events. */
  datatype Control = Control(rate: int, iterations: int, active: bool)

  /** Jobs are sent every tenth of a second. */
  function Iterations(rate: int): int {
    ToInt(rate as real * 0.1)
  }

  function Begin(share: Request): Control {
    Control(share.starting, Iterations(share.starting), true)
  }

  function Product(rate: int, factor: real): real {
    rate as real * factor
  }

  function Grown(rate: int, g: Growth): real
    requires g.factor.Finite?
  {
    g.round(Product(rate, g.factor.x))
  }

  /** The product fits an integer: the factor is a number and not too large. */
  predicate Converts(rate: int, g: Growth) {
    g.factor.Finite? && Grown(rate, g) < TWO_63 as real
  }

  /** A product with a factor that is no number, or infinite, is not finite. */
  function NewRate(rate: int, g: Growth): int {
    FloatToInt(if g.factor.Finite? then Finite(Grown(rate, g)) else g.factor)
  }

  function Step(c: Control, e: Event, max: int, g: Growth): Control {
    if e.Tick? || !c.active then c
    else
      var grown := NewRate(c.rate, g);
      if grown > max then Control(max, Iterations(max), false) else Control(grown, Iterations(grown), true)
  }

  function After(c: Control, es: seq<Event>, max: int, g: Growth): Control
    decreases |es|
  {
    if es == [] then c else After(Step(c, es[0], max, g), es[1..], max, g)
  }

  /** The jobs of a tick: the inner loop starts counting at one. */
  function Jobs(c: Control): nat {
    if c.iterations > 1 then c.iterations - 1 else 0
  }

  function Sent(c: Control, e: Event): seq<nat> {
    if e.Grow? then [] else [if e.atMost < Jobs(c) then e.atMost else Jobs(c)]
  }

  function JobLog(c: Control, es: seq<Event>, max: int, g: Growth): seq<nat>
    decreases |es|
  {
    if es == [] then [] else Sent(c, es[0]) + JobLog(Step(c, es[0], max, g), es[1..], max, g)
  }

  /** runScript: the jobs sent at each tick, and the final rate. */
  method RunScript(share: Request, g: Growth, es: seq<Event>) returns (final: int, jobs: seq<nat>)
    ensures final == After(Begin(share), es, share.max, g).rate
    ensures jobs == JobLog(Begin(share), es, share.max, g)
  {
    hide After, JobLog, NewRate, Iterations;
    var rate := share.starting;
    var iterations := Iterations(rate);
    var active := true;
    jobs := [];
    var k := 0;
    assert es[0..] == es;
    while k < |es|
      invariant 0 <= k <= |es|
      invariant After(Control(rate, iterations, active), es[k..], share.max, g) == After(Begin(share), es, share.max, g)
      invariant jobs + JobLog(Control(rate, iterations, active), es[k..], share.max, g) == JobLog(Begin(share), es, share.max, g)
    {
      ghost var c, before := Control(rate, iterations, active), jobs;
      Unfold(c, es, k, share.max, g);
      ghost var rest := JobLog(Step(c, es[k], share.max, g), es[k + 1..], share.max, g);
      if es[k].Tick? {
        var sent := SendJobs(iterations, es[k].atMost);
        jobs := jobs + [sent];
      } else if active {
        rate := NewRate(rate, g);
        if rate > share.max {
          rate := share.max;
          active := false;
        }
        iterations := Iterations(rate);
      }
      assert before + (Sent(c, es[k]) + rest) == jobs + rest;
      k := k + 1;
    }
    NothingLeft(Control(rate, iterations, active), es[k..], share.max, g);
    return rate, jobs;
  }

  lemma Unfold(c: Control, es: seq<Event>, k: nat, max: int, g: Growth)
    requires k < |es|
    ensures var c' := Step(c, es[k], max, g);
            && After(c, es[k..], max, g) == After(c', es[k + 1..], max, g)
            && JobLog(c, es[k..], max, g) == Sent(c, es[k]) + JobLog(c', es[k + 1..], max, g)
  {
    assert es[k..][1..] == es[k + 1..];
  }

  lemma NothingLeft(c: Control, es: seq<Event>, max: int, g: Growth)
    requires es == []
    ensures After(c, es, max, g) == c && JobLog(c, es, max, g) == []
  {
  }

  method SendJobs(iterations: int, atMost: nat) returns (sent: nat)
    ensures var jobs := if iterations > 1 then iterations - 1 else 0; sent == if atMost < jobs then atMost else jobs
  {
    sent := 0;
    var i := 1;
    while i < iterations
      invariant 1 <= i && (i <= iterations || i == 1) && sent == i - 1 <= atMost
    {
      if sent == atMost {
        break;
      }
      sent := sent + 1;
      i := i + 1;
    }
  }

  // ---- The rate over whole runs ----

  predicate InRange(c: Control, share: Request) {
    share.starting <= c.rate <= share.max && c.iterations == c.rate / 10
  }

  /** In all of a run: the rate is between the starting and the maximal share, never falls, and
      the jobs of a tick are at most a tenth of the maximal share. */
  ghost predicate Steady(c: Control, es: seq<Event>, share: Request, g: Growth)
    decreases |es|
  {
    && InRange(c, share) && 10 * Jobs(c) <= share.max
    && (es != [] ==> var c' := Step(c, es[0], share.max, g); c.rate <= c'.rate && Steady(c', es[1..], share, g))
  }

  lemma IterationsAre(rate: nat)
    requires rate < TWO_63
    ensures Iterations(rate) == rate / 10
  {
    var q := rate / 10;
    assert q as real <= rate as real * 0.1 < q as real + 1.0;
  }

  /** While the rate can still grow, it is the starting one or the factor is moderate. */
  ghost predicate Moderate(c: Control, share: Request, g: Growth) {
    c.active ==> c.rate == share.starting || (g.factor.Finite? && Product(share.starting, g.factor.x) < (share.max + 1) as real)
  }

  lemma GrowthFits(c: Control, share: Request, g: Growth)
    requires RatesFine(share) && share.max <= INT32_MAX && GrowthOk(g) && Converts(share.starting, g)
    requires c.active && InRange(c, share) && Moderate(c, share, g)
    ensures c.rate as real <= Grown(c.rate, g) < TWO_63 as real
  {
    hide Product;
    AtLeast(c.rate, g.factor.x);
    assert g.round(Whole(c.rate)) == Whole(c.rate);
    if c.rate != share.starting {
      AtMost(share.starting, c.rate, g.factor.x);
      assert g.round(Product(c.rate, g.factor.x)) <= g.round(Whole(TWO_62));
    }
  }

  lemma AtLeast(rate: nat, f: real)
    requires f >= 1.0
    ensures rate as real <= Product(rate, f)
  {
    var r := rate as real;
    assert r * f == r * (f - 1.0) + r;
    Ordered(0.0, f - 1.0, r);
    assert r * (f - 1.0) == (f - 1.0) * r;
  }

  lemma AtMost(starting: int, rate: nat, f: real)
    requires 11 <= starting && rate <= INT32_MAX && f >= 1.0 && Product(starting, f) < 2147483648.0
    ensures Product(rate, f) <= Whole(TWO_62)
  {
    Ordered(11.0, starting as real, f);
    Ordered(rate as real, 2147483647.0, f);
  }

  lemma Ordered(a: real, b: real, f: real)
    requires a <= b && f >= 0.0
    ensures a * f <= b * f
  {
    assert (b - a) * f >= 0.0;
  }

  lemma GrownRate(rate: nat, x: real, max: nat)
    requires rate as real <= x < TWO_63 as real && max < TWO_63
    ensures ToInt(x) >= rate
    ensures ToInt(x) <= max ==> Iterations(ToInt(x)) == ToInt(x) / 10 && x < (max + 1) as real
  {
    var t := x.Floor;
    assert rate <= t && t as real <= x < (t + 1) as real;
    IterationsAre(t);
  }

  lemma StepIsSteady(c: Control, e: Event, share: Request, g: Growth)
    requires RatesFine(share) && share.max <= INT32_MAX && GrowthOk(g) && Converts(share.starting, g)
    requires InRange(c, share) && Moderate(c, share, g)
    ensures var c' := Step(c, e, share.max, g); InRange(c', share) && Moderate(c', share, g) && c.rate <= c'.rate
  {
    hide ToInt, Iterations, Product;
    if e == Grow && c.active {
      GrowthFits(c, share, g);
      IterationsAre(share.max);
      GrownRate(c.rate, Grown(c.rate, g), share.max);
      assert g.round(Whole(share.max + 1)) == Whole(share.max + 1);
    }
  }

  lemma {:induction false} RunIsSteady(c: Control, es: seq<Event>, share: Request, g: Growth)
    requires RatesFine(share) && share.max <= INT32_MAX && GrowthOk(g) && Converts(share.starting, g)
    requires InRange(c, share) && Moderate(c, share, g)
    ensures Steady(c, es, share, g)
    decreases |es|
  {
    if es != [] {
      StepIsSteady(c, es[0], share, g);
      RunIsSteady(Step(c, es[0], share.max, g), es[1..], share, g);
    }
  }

  /**
    For shares and a growth factor that pass the executor's checks, every run is
    steady exactly if the factor is a number and the first product, rounded, stays within the
    integers.
   */
  lemma SteadyIff(share: Request, g: Growth)
    requires RatesFine(share) && share.max <= INT32_MAX && GrowthOk(g)
    ensures (forall es :: Steady(Begin(share), es, share, g)) <==> Converts(share.starting, g)
  {
    IterationsAre(share.starting);
    if Converts(share.starting, g) {
      forall es ensures Steady(Begin(share), es, share, g) {
        RunIsSteady(Begin(share), es, share, g);
      }
    } else {
      GrowthOverflows(share, g, []);
    }
  }

  /** Otherwise the conversion gives the smallest integer: from the first growth on, whatever
      ticks come before it, the rate is negative. */
  lemma {:induction false} GrowthOverflows(share: Request, g: Growth, ticks: seq<Event>)
    requires RatesFine(share) && !Converts(share.starting, g)
    requires forall k :: 0 <= k < |ticks| ==> ticks[k].Tick?
    ensures After(Begin(share), ticks + [Grow], share.max, g).rate == -TWO_63
    ensures !Steady(Begin(share), ticks + [Grow], share, g)
    decreases |ticks|
  {
    var es := ticks + [Grow];
    if ticks == [] {
      assert NewRate(share.starting, g) == -TWO_63;
      assert es[0] == Grow && es[1..] == [];
      hide NewRate;
      assert Step(Begin(share), es[0], share.max, g).rate == -TWO_63;
    } else {
      assert es[0] == ticks[0] && es[1..] == ticks[1..] + [Grow];
      GrowthOverflows(share, g, ticks[1..]);
    }
  }
}
