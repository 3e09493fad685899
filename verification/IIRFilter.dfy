// The crowd-energy filter over the reals: two exponential moving averages, their
// energies, and sliding-window sums kept in ring buffers.
module IIRFilter {
  import opened Arith

  const ALPHA_SHORT: real := 2.0 / 31.0
  const ALPHA_LONG: real := 2.0 / 601.0
  const EPSILON: real := 0.000000000001

  // ---------- the state after each tick, as a value ----------

  // A running sum together with the ring of its summands.
  datatype Window = Window(sum: real, ring: seq<real>)

  function Push(w: Window, pos: nat, x: real): Window
    requires pos < |w.ring|
  {
    Window(w.sum + (x - w.ring[pos]), w.ring[pos := x])
  }

  datatype View = View(
    cumVolume: real, shortEma: real, longEma: real,
    bandEnergy: real, lowEnergy: real, diffEnergy: real,
    band100: Window, low100: Window, diff100: Window, band500: Window, diff500: Window, low500: seq<real>,
    pos100: nat, pos500: nat, filled100: bool, filled500: bool, ticks: nat)

  ghost predicate Shaped(v: View) {
    && |v.band100.ring| == |v.low100.ring| == |v.diff100.ring| == 100
    && |v.band500.ring| == |v.diff500.ring| == |v.low500| == 500
    && v.pos100 < 100 && v.pos500 < 500
  }

  function Zero(): View {
    var w100, w500 := Window(0.0, seq(100, _ => 0.0)), Window(0.0, seq(500, _ => 0.0));
    View(0.0, 0.0, 0.0, 0.0, 0.0, 0.0, w100, w100, w100, w500, w500, w500.ring, 0, 0, false, false, 0)
  }

  function Mix(alpha: real, d: real, e: real): real {
    alpha * d + (1.0 - alpha) * e
  }

  function Sq(x: real): (r: real)
    ensures r >= 0.0
  {
    x * x
  }

  // Account for one input d with the new averages s and l.
  function Advance(v: View, d: real, s: real, l: real): (r: View)
    requires Shaped(v)
    ensures Shaped(r)
  {
    var band2, low2, diff2 := Sq(s - l), Sq(l), Sq(d);
    Slid(v, band2, low2, diff2).(
      cumVolume := v.cumVolume + d, shortEma := s, longEma := l, bandEnergy := v.bandEnergy + band2,
      lowEnergy := v.lowEnergy + low2, diffEnergy := v.diffEnergy + diff2, ticks := v.ticks + 1)
  }

  // Every window slid by one sample, and the positions with them.
  function Slid(v: View, band2: real, low2: real, diff2: real): (r: View)
    requires Shaped(v)
    ensures Shaped(r)
  {
    v.(band100 := Push(v.band100, v.pos100, band2), low100 := Push(v.low100, v.pos100, low2),
       diff100 := Push(v.diff100, v.pos100, diff2),
       band500 := Push(v.band500, v.pos500, band2), diff500 := Push(v.diff500, v.pos500, diff2),
       low500 := v.low500[v.pos500 := low2],
       pos100 := if v.pos100 + 1 >= 100 then 0 else v.pos100 + 1,
       pos500 := if v.pos500 + 1 >= 500 then 0 else v.pos500 + 1,
       filled100 := v.filled100 || v.pos100 + 1 >= 100, filled500 := v.filled500 || v.pos500 + 1 >= 500)
  }

  // The effect of addVolumeTick.
  function Tick(v: View, volume: real): (r: View)
    requires Shaped(v)
    ensures Shaped(r)
  {
    var d := if v.ticks == 0 then 0.0 else volume;
    Advance(v, d, Mix(ALPHA_SHORT, d, v.shortEma), Mix(ALPHA_LONG, d, v.longEma))
  }

  // The state after a whole stream of tick volumes.
  function Filtered(volumes: seq<real>): (r: View)
    ensures Shaped(r)
  {
    if volumes == [] then Zero() else Tick(Filtered(volumes[..|volumes| - 1]), volumes[|volumes| - 1])
  }

  // ---------- reference definitions on the whole stream ----------

  // The input of the filter: the first tick counts as zero.
  function Diff(volumes: seq<real>, k: nat): real
    requires k < |volumes|
  {
    if k == 0 then 0.0 else volumes[k]
  }

  // The moving average after the first k inputs.
  function Ema(alpha: real, volumes: seq<real>, k: nat): real
    requires k <= |volumes|
  {
    if k == 0 then 0.0 else Mix(alpha, Diff(volumes, k - 1), Ema(alpha, volumes, k - 1))
  }

  datatype Signal = Band | Short | Low | Total

  // Squared sample k of a signal.
  function Square(signal: Signal, volumes: seq<real>, k: nat): (r: real)
    requires k < |volumes|
    ensures r >= 0.0
  {
    var x := match signal
             case Band => Ema(ALPHA_SHORT, volumes, k + 1) - Ema(ALPHA_LONG, volumes, k + 1)
             case Short => Ema(ALPHA_SHORT, volumes, k + 1)
             case Low => Ema(ALPHA_LONG, volumes, k + 1)
             case Total => Diff(volumes, k);
    Sq(x)
  }

  // The energy of samples from, .., to - 1.
  function Energy(signal: Signal, volumes: seq<real>, from: nat, to: nat): (r: real)
    requires to <= |volumes|
    ensures r >= 0.0
  {
    if to <= from then 0.0 else Energy(signal, volumes, from, to - 1) + Square(signal, volumes, to - 1)
  }

  // First sample of the last `width` of t samples.
  function From(t: nat, width: nat): nat {
    if t < width then 0 else t - width
  }

  // The window holds exactly the last |ring| samples of the signal, sample k at
  // position k modulo the width, and their energy.
  ghost predicate WindowHolds(w: Window, width: nat, signal: Signal, volumes: seq<real>)
    requires width > 0
  {
    var t := |volumes|;
    && |w.ring| == width
    && w.sum == Energy(signal, volumes, From(t, width), t)
    && (forall k: nat :: From(t, width) <= k < t ==> w.ring[k % width] == Square(signal, volumes, k))
    && (forall i: nat :: t <= i < width ==> w.ring[i] == 0.0)
  }

  ghost predicate AveragesHold(v: View, volumes: seq<real>) {
    var t := |volumes|;
    && v.ticks == t
    && v.shortEma == Ema(ALPHA_SHORT, volumes, t) && v.longEma == Ema(ALPHA_LONG, volumes, t)
    && v.bandEnergy == Energy(Band, volumes, 0, t)
    && v.lowEnergy == Energy(Low, volumes, 0, t)
    && v.diffEnergy == Energy(Total, volumes, 0, t)
  }

  ghost predicate WindowsHold(v: View, volumes: seq<real>) {
    && WindowHolds(v.band100, 100, Band, volumes) && WindowHolds(v.low100, 100, Low, volumes)
    && WindowHolds(v.diff100, 100, Total, volumes)
    && WindowHolds(v.band500, 500, Band, volumes) && WindowHolds(v.diff500, 500, Total, volumes)
  }

  ghost predicate PositionsHold(v: View, t: nat) {
    && v.pos100 == t % 100 && v.pos500 == t % 500
    && (v.filled100 <==> t >= 100) && (v.filled500 <==> t >= 500)
  }

  // Everything the state means in terms of the stream.
  ghost predicate Describes(v: View, volumes: seq<real>) {
    AveragesHold(v, volumes) && WindowsHold(v, volumes) && PositionsHold(v, |volumes|)
  }

  // A later tick does not change earlier samples.
  lemma {:induction false} EmaPrefix(alpha: real, a: seq<real>, x: real, k: nat)
    requires k <= |a|
    ensures Ema(alpha, a + [x], k) == Ema(alpha, a, k)
  {
    if k > 0 { EmaPrefix(alpha, a, x, k - 1); }
  }

  lemma SquarePrefix(signal: Signal, a: seq<real>, x: real, k: nat)
    requires k < |a|
    ensures Square(signal, a + [x], k) == Square(signal, a, k)
  {
    EmaPrefix(ALPHA_SHORT, a, x, k + 1);
    EmaPrefix(ALPHA_LONG, a, x, k + 1);
  }

  lemma {:induction false} EnergyPrefix(signal: Signal, a: seq<real>, x: real, from: nat, to: nat)
    requires to <= |a|
    ensures Energy(signal, a + [x], from, to) == Energy(signal, a, from, to)
  {
    if from < to {
      EnergyPrefix(signal, a, x, from, to - 1);
      SquarePrefix(signal, a, x, to - 1);
    }
  }

  lemma {:induction false} EnergyDropFirst(signal: Signal, a: seq<real>, from: nat, to: nat)
    requires from < to <= |a|
    ensures Energy(signal, a, from, to) == Square(signal, a, from) + Energy(signal, a, from + 1, to)
  {
    if from + 1 < to { EnergyDropFirst(signal, a, from, to - 1); }
  }

  // Pushing sample t at position t modulo the width slides the window by one.
  lemma WindowSlides(w: Window, width: nat, signal: Signal, a: seq<real>, x: real, y: real)
    requires width > 0 && WindowHolds(w, width, signal, a) && y == Square(signal, a + [x], |a|)
    ensures |a| % width < |w.ring| && WindowHolds(Push(w, |a| % width, y), width, signal, a + [x])
  {
    var t, b := |a|, a + [x];
    var pos := t % width;
    var w' := Push(w, pos, y);
    EnergyPrefix(signal, a, x, From(t, width), t);
    if t >= width {
      DivModShift(t, width, -1);
      assert t + -1 * width == t - width;
      EnergyDropFirst(signal, b, t - width, t + 1);
      SquarePrefix(signal, a, x, t - width);
      assert w.ring[pos] == Square(signal, a, t - width);
    } else {
      DivModUnique(t, width, 0, t);
      assert w.ring[pos] == 0.0;
    }
    forall k: nat | From(t + 1, width) <= k < t + 1 ensures w'.ring[k % width] == Square(signal, b, k) {
      if k < t {
        SquarePrefix(signal, a, x, k);
        if k % width == pos { SameRemainder(k, t, width); }
      }
    }
  }

  // Ring positions wrap by comparison and count modulo the width.
  lemma PositionSteps(t: nat, width: nat)
    requires width > 0
    ensures (t + 1) % width == if t % width + 1 >= width then 0 else t % width + 1
  {
    var q, r := t / width, t % width;
    if r + 1 == width {
      assert (q + 1) * width == q * width + width;
      DivModUnique(t + 1, width, q + 1, 0);
    } else {
      DivModUnique(t + 1, width, q, r + 1);
    }
  }

  // One tick feeds the stream's next input and averages.
  lemma TickAdvances(v: View, a: seq<real>, x: real)
    requires Shaped(v) && AveragesHold(v, a)
    ensures var t, b := |a|, a + [x];
            Tick(v, x) == Advance(v, Diff(b, t), Ema(ALPHA_SHORT, b, t + 1), Ema(ALPHA_LONG, b, t + 1))
  {
    var t, b := |a|, a + [x];
    assert Diff(b, t) == if t == 0 then 0.0 else x;
    EmaPrefix(ALPHA_SHORT, a, x, t);
    EmaPrefix(ALPHA_LONG, a, x, t);
  }

  // v' accounts for sample |a| of the stream a + [x] on top of v.
  ghost predicate Follows(v: View, v': View, a: seq<real>, x: real)
    requires Shaped(v)
  {
    var t, b := |a|, a + [x];
    && v'.ticks == v.ticks + 1
    && v'.shortEma == Ema(ALPHA_SHORT, b, t + 1) && v'.longEma == Ema(ALPHA_LONG, b, t + 1)
    && v'.bandEnergy == v.bandEnergy + Square(Band, b, t)
    && v'.lowEnergy == v.lowEnergy + Square(Low, b, t)
    && v'.diffEnergy == v.diffEnergy + Square(Total, b, t)
    && v'.band100 == Push(v.band100, v.pos100, Square(Band, b, t))
    && v'.low100 == Push(v.low100, v.pos100, Square(Low, b, t))
    && v'.diff100 == Push(v.diff100, v.pos100, Square(Total, b, t))
    && v'.band500 == Push(v.band500, v.pos500, Square(Band, b, t))
    && v'.diff500 == Push(v.diff500, v.pos500, Square(Total, b, t))
  }

  lemma TickFollows(v: View, a: seq<real>, x: real)
    requires Shaped(v) && AveragesHold(v, a)
    ensures Follows(v, Tick(v, x), a, x)
  {
    var t, b := |a|, a + [x];
    TickAdvances(v, a, x);
    AdvanceFollows(v, a, x, Diff(b, t), Ema(ALPHA_SHORT, b, t + 1), Ema(ALPHA_LONG, b, t + 1));
  }

  lemma AdvanceFollows(v: View, a: seq<real>, x: real, d: real, s: real, l: real)
    requires Shaped(v) && d == Diff(a + [x], |a|)
    requires s == Ema(ALPHA_SHORT, a + [x], |a| + 1) && l == Ema(ALPHA_LONG, a + [x], |a| + 1)
    ensures Follows(v, Advance(v, d, s, l), a, x)
  {
  }

  lemma FollowsAverages(v: View, v': View, a: seq<real>, x: real)
    requires Shaped(v) && AveragesHold(v, a) && Follows(v, v', a, x)
    ensures AveragesHold(v', a + [x])
  {
    EnergyPrefix(Band, a, x, 0, |a|);
    EnergyPrefix(Low, a, x, 0, |a|);
    EnergyPrefix(Total, a, x, 0, |a|);
  }

  lemma FollowsWindows(v: View, v': View, a: seq<real>, x: real)
    requires Shaped(v) && WindowsHold(v, a) && PositionsHold(v, |a|) && Follows(v, v', a, x)
    ensures WindowsHold(v', a + [x])
  {
    var t, b := |a|, a + [x];
    WindowSlides(v.band100, 100, Band, a, x, Square(Band, b, t));
    WindowSlides(v.low100, 100, Low, a, x, Square(Low, b, t));
    WindowSlides(v.diff100, 100, Total, a, x, Square(Total, b, t));
    WindowSlides(v.band500, 500, Band, a, x, Square(Band, b, t));
    WindowSlides(v.diff500, 500, Total, a, x, Square(Total, b, t));
  }

  // One tick keeps the description.
  lemma TickDescribes(v: View, a: seq<real>, x: real)
    requires Shaped(v) && Describes(v, a)
    ensures Describes(Tick(v, x), a + [x])
  {
    TickFollows(v, a, x);
    FollowsAverages(v, Tick(v, x), a, x);
    FollowsWindows(v, Tick(v, x), a, x);
    PositionsStep(v, |a|, x);
  }

  lemma PositionsStep(v: View, t: nat, x: real)
    requires Shaped(v) && PositionsHold(v, t)
    ensures PositionsHold(Tick(v, x), t + 1)
  {
    PositionSteps(t, 100);
    PositionSteps(t, 500);
    FilledSteps(t, 100);
    FilledSteps(t, 500);
  }

  lemma FilledSteps(t: nat, width: nat)
    requires width > 0
    ensures t + 1 >= width <==> t >= width || t % width + 1 >= width
  {
    if t < width { DivModUnique(t, width, 0, t); }
  }

  // After any stream the state is the one its definition describes: energies of
  // the whole stream, window sums of the last 100 and 500 samples.
  lemma {:induction false} FilteredDescribes(volumes: seq<real>)
    ensures Describes(Filtered(volumes), volumes)
  {
    if volumes != [] {
      var init := volumes[..|volumes| - 1];
      FilteredDescribes(init);
      TickDescribes(Filtered(init), init, volumes[|volumes| - 1]);
      assert init + [volumes[|volumes| - 1]] == volumes;
    }
  }

  // ---------- the energy inequality ----------

  lemma ProductNonNegative(x: real, y: real)
    requires x >= 0.0 && y >= 0.0
    ensures x * y >= 0.0
  {
  }

  lemma SquareNonNegative(x: real)
    ensures x * x >= 0.0
  {
  }

  // Squaring is convex.
  lemma Convex(alpha: real, d: real, e: real)
    requires 0.0 <= alpha <= 1.0
    ensures Mix(alpha, d, e) * Mix(alpha, d, e) <= alpha * (d * d) + (1.0 - alpha) * (e * e)
  {
    var beta, sq := 1.0 - alpha, (d - e) * (d - e);
    ProductNonNegative(alpha, beta);
    SquareNonNegative(d - e);
    ProductNonNegative(alpha * beta, sq);
    ConvexIdentity(alpha, d, e);
  }

  lemma ConvexIdentity(alpha: real, d: real, e: real)
    ensures var m := Mix(alpha, d, e);
            alpha * (d * d) + (1.0 - alpha) * (e * e) - m * m == alpha * (1.0 - alpha) * ((d - e) * (d - e))
  {
    var m, u := Mix(alpha, d, e), d - e;
    assert m == e + alpha * u;
    assert m * m == e * e + 2.0 * (alpha * (e * u)) + alpha * alpha * (u * u) by {
      assert m * m == e * e + 2.0 * (e * (alpha * u)) + (alpha * u) * (alpha * u);
      assert (alpha * u) * (alpha * u) == alpha * alpha * (u * u);
      assert e * (alpha * u) == alpha * (e * u);
    }
    assert d * d == e * e + 2.0 * (e * u) + u * u;
    assert alpha * (d * d) == alpha * (e * e) + 2.0 * (alpha * (e * u)) + alpha * (u * u);
  }

  function Alpha(signal: Signal): real
    requires signal.Short? || signal.Low?
  {
    if signal.Short? then ALPHA_SHORT else ALPHA_LONG
  }

  function Squares(signal: Signal, volumes: seq<real>): (r: seq<real>)
    ensures |r| == |volumes| && forall k :: 0 <= k < |r| ==> r[k] == Square(signal, volumes, k) >= 0.0
  {
    seq(|volumes|, k requires 0 <= k < |volumes| => Square(signal, volumes, k))
  }

  function Sum(xs: seq<real>, n: nat): real
    requires n <= |xs|
  {
    if n == 0 then 0.0 else Sum(xs, n - 1) + xs[n - 1]
  }

  lemma {:induction false} EnergyIsSum(signal: Signal, volumes: seq<real>, k: nat)
    requires k <= |volumes|
    ensures Energy(signal, volumes, 0, k) == Sum(Squares(signal, volumes), k)
  {
    if k > 0 { EnergyIsSum(signal, volumes, k - 1); }
  }

  // Sample k of an average is at most the mix of input k and the sample before.
  lemma SampleStep(signal: Signal, volumes: seq<real>, k: nat)
    requires (signal.Short? || signal.Low?) && k < |volumes|
    ensures Square(signal, volumes, k) <= Mix(Alpha(signal), Square(Total, volumes, k),
                                              if k == 0 then 0.0 else Square(signal, volumes, k - 1))
  {
    Convex(Alpha(signal), Diff(volumes, k), Ema(Alpha(signal), volumes, k));
  }

  // What the samples of an average add up to, plus what the last one still
  // carries, is bounded by what the inputs add up to.
  lemma {:induction false} CarriedEnergy(alpha: real, low: seq<real>, total: seq<real>, n: nat)
    requires |low| == |total| && n <= |low|
    requires forall k :: 0 <= k < |low| ==> low[k] <= Mix(alpha, total[k], if k == 0 then 0.0 else low[k - 1])
    ensures alpha * Sum(low, n) + (1.0 - alpha) * (if n == 0 then 0.0 else low[n - 1]) <= alpha * Sum(total, n)
  {
    if n > 0 {
      CarriedEnergy(alpha, low, total, n - 1);
      assert low[n - 1] <= Mix(alpha, total[n - 1], if n == 1 then 0.0 else low[n - 2]);
      EnergyStep(alpha, Sum(low, n - 1), Sum(total, n - 1), if n == 1 then 0.0 else low[n - 2], low[n - 1], total[n - 1]);
    }
  }

  lemma EnergyStep(alpha: real, low: real, total: real, carried: real, next: real, input: real)
    requires alpha * low + (1.0 - alpha) * carried <= alpha * total
    requires next <= alpha * input + (1.0 - alpha) * carried
    ensures alpha * (low + next) + (1.0 - alpha) * next <= alpha * (total + input)
  {
    assert alpha * (low + next) == alpha * low + alpha * next;
    assert (1.0 - alpha) * next == next - alpha * next;
    assert alpha * (total + input) == alpha * total + alpha * input;
  }

  lemma AverageEnergyBound(signal: Signal, volumes: seq<real>)
    requires signal.Short? || signal.Low?
    ensures Energy(signal, volumes, 0, |volumes|) <= Energy(Total, volumes, 0, |volumes|)
  {
    var n, low, total := |volumes|, Squares(signal, volumes), Squares(Total, volumes);
    forall k | 0 <= k < n
      ensures low[k] <= Mix(Alpha(signal), total[k], if k == 0 then 0.0 else low[k - 1])
    {
      SampleStep(signal, volumes, k);
    }
    CarriedEnergy(Alpha(signal), low, total, n);
    EnergyIsSum(signal, volumes, n);
    EnergyIsSum(Total, volumes, n);
  }

  // How far input k is from the long average before it.
  function Residual(volumes: seq<real>, k: nat): real
    requires k < |volumes|
  {
    Diff(volumes, k) - Ema(ALPHA_LONG, volumes, k)
  }

  function ScaledResidual(scale: real, volumes: seq<real>, k: nat): real
    requires k < |volumes|
  {
    Sq(scale * Residual(volumes, k))
  }

  function Residuals(scale: real, volumes: seq<real>): (r: seq<real>)
    ensures |r| == |volumes| && forall k :: 0 <= k < |r| ==> r[k] == ScaledResidual(scale, volumes, k)
  {
    seq(|volumes|, k requires 0 <= k < |volumes| => ScaledResidual(scale, volumes, k))
  }

  // One input: what the average gains and what the residual loses.
  lemma ResidualStep(beta: real, d: real, l: real)
    requires 0.0 <= beta
    ensures beta * (1.0 - beta) * Sq(d - l) + Sq(Mix(beta, d, l)) <= beta * Sq(d) + Sq(l)
  {
    var u := d - l;
    assert Mix(beta, d, l) == l + beta * u;
    SquareOfSum(l, beta * u);
    SquareOfSum(l, u);
    assert l + u == d;
    assert (beta * u) * (beta * u) == beta * beta * (u * u);
    assert l * (beta * u) == beta * (l * u);
    assert beta * (d * d) == beta * (l * l) + 2.0 * (beta * (l * u)) + beta * (u * u);
    assert beta * (1.0 - beta) * (u * u) == beta * (u * u) - beta * beta * (u * u);
    SquareNonNegative(l);
    ProductNonNegative(beta, l * l);
  }

  lemma SquareOfSum(x: real, y: real)
    ensures (x + y) * (x + y) == x * x + 2.0 * (x * y) + y * y
  {
  }

  // The residuals never hold more energy than the inputs, but for 1 / (1 - b).
  lemma {:induction false} ResidualEnergy(volumes: seq<real>, n: nat)
    requires n <= |volumes|
    ensures var b := ALPHA_LONG;
            b * (1.0 - b) * Sum(Residuals(1.0, volumes), n) + Sq(Ema(b, volumes, n)) <= b * Sum(Squares(Total, volumes), n)
  {
    if n > 0 {
      var k := n - 1;
      ResidualEnergy(volumes, k);
      ResidualStep(ALPHA_LONG, Diff(volumes, k), Ema(ALPHA_LONG, volumes, k));
      AddScaled(ALPHA_LONG * (1.0 - ALPHA_LONG), Sum(Residuals(1.0, volumes), k), Sq(Residual(volumes, k)));
      AddScaled(ALPHA_LONG, Sum(Squares(Total, volumes), k), Sq(Diff(volumes, k)));
    }
  }

  lemma AddScaled(c: real, x: real, y: real)
    ensures c * (x + y) == c * x + c * y
  {
  }

  // The share of a residual that reaches the band.
  const BAND_SHARE: real := 570.0 / 601.0

  // The band is itself a moving average, of the scaled residuals.
  lemma BandIsAverage(volumes: seq<real>, k: nat)
    requires k < |volumes|
    ensures Square(Band, volumes, k) <= Mix(ALPHA_SHORT, Sq(BAND_SHARE * Residual(volumes, k)),
                                            if k == 0 then 0.0 else Square(Band, volumes, k - 1))
  {
    var d, s, l := Diff(volumes, k), Ema(ALPHA_SHORT, volumes, k), Ema(ALPHA_LONG, volumes, k);
    assert Mix(ALPHA_SHORT, d, s) - Mix(ALPHA_LONG, d, l) == Mix(ALPHA_SHORT, BAND_SHARE * (d - l), s - l);
    Convex(ALPHA_SHORT, BAND_SHARE * (d - l), s - l);
  }

  lemma {:induction false} ScaleSum(c: real, volumes: seq<real>, n: nat)
    requires n <= |volumes|
    ensures Sum(Residuals(c, volumes), n) == c * c * Sum(Residuals(1.0, volumes), n)
  {
    if n > 0 {
      ScaleSum(c, volumes, n - 1);
      ScaleSquare(c, Residual(volumes, n - 1));
      AddScaled(c * c, Sum(Residuals(1.0, volumes), n - 1), Sq(1.0 * Residual(volumes, n - 1)));
    }
  }

  lemma ScaleSquare(c: real, x: real)
    ensures Sq(c * x) == c * c * Sq(1.0 * x)
  {
  }

  lemma BandEnergyBound(volumes: seq<real>)
    ensures var t := |volumes|;
            359999.0 * Energy(Band, volumes, 0, t) <= 324900.0 * Energy(Total, volumes, 0, t)
  {
    var t, band, residuals := |volumes|, Squares(Band, volumes), Residuals(BAND_SHARE, volumes);
    forall k | 0 <= k < t
      ensures band[k] <= Mix(ALPHA_SHORT, residuals[k], if k == 0 then 0.0 else band[k - 1])
    {
      BandIsAverage(volumes, k);
    }
    CarriedEnergy(ALPHA_SHORT, band, residuals, t);
    ScaleSum(BAND_SHARE, volumes, t);
    ResidualEnergy(volumes, t);
    EnergyIsSum(Band, volumes, t);
    EnergyIsSum(Total, volumes, t);
    BandConstants(Sum(band, t), if t == 0 then 0.0 else band[t - 1], Sum(Residuals(1.0, volumes), t),
                  Sq(Ema(ALPHA_LONG, volumes, t)), Sum(Squares(Total, volumes), t));
  }

  lemma BandConstants(band: real, carried: real, residual: real, ema: real, total: real)
    requires carried >= 0.0 && ema >= 0.0
    requires ALPHA_SHORT * band + (1.0 - ALPHA_SHORT) * carried <= ALPHA_SHORT * (BAND_SHARE * BAND_SHARE * residual)
    requires ALPHA_LONG * (1.0 - ALPHA_LONG) * residual + ema <= ALPHA_LONG * total
    ensures 359999.0 * band <= 324900.0 * total
  {
    assert band <= BAND_SHARE * BAND_SHARE * residual;
    assert (1.0 - ALPHA_LONG) * residual <= total;
  }

  // Neither the low-frequency part nor the band ever holds more energy than the
  // input, whatever the volumes; of the band it is at most 324900 / 359999.
  lemma EnergyInequality(v: View, volumes: seq<real>)
    requires AveragesHold(v, volumes)
    ensures v.lowEnergy <= v.diffEnergy
    ensures 359999.0 * v.bandEnergy <= 324900.0 * v.diffEnergy
    ensures v.bandEnergy <= v.diffEnergy
  {
    AverageEnergyBound(Low, volumes);
    BandEnergyBound(volumes);
  }

  // ---------- the reported indicators ----------

  // A missing indicator is the all-ones bit pattern, a NaN.
  datatype Factor = NaN | Val(value: real)
  datatype CrowdInd = CrowdInd(top20: Factor, bottom20: Factor, last500Top20: Factor, last500Bottom20: Factor)

  function Report(v: View): CrowdInd
    requires v.diffEnergy >= 0.0 && v.diff500.sum >= 0.0
  {
    if v.ticks < 10 then CrowdInd(NaN, NaN, NaN, NaN)
    else
      CrowdInd(Val(v.bandEnergy / (v.diffEnergy + EPSILON)),
               Val(v.low100.sum / (v.diffEnergy + EPSILON)),
               if v.filled500 then Val(v.band500.sum / (v.diff500.sum + EPSILON)) else NaN,
               if v.filled500 && v.filled100 then Val(v.diff100.sum / (v.diff500.sum + EPSILON)) else NaN)
  }

  ghost predicate InRange(f: Factor, lo: real, hi: real) {
    f.Val? ==> lo <= f.value < hi
  }

  lemma {:induction false} EnergySplit(signal: Signal, a: seq<real>, from: nat, mid: nat, to: nat)
    requires from <= mid <= to <= |a|
    ensures Energy(signal, a, from, to) == Energy(signal, a, from, mid) + Energy(signal, a, mid, to)
  {
    if mid < to { EnergySplit(signal, a, from, mid, to - 1); }
  }

  lemma ProductSign(q: real, y: real)
    requires y > 0.0
    ensures q < 0.0 ==> q * y < 0.0
    ensures q >= 0.0 ==> q * y >= 0.0
  {
  }

  lemma RatioBound(x: real, y: real, c: real)
    requires 0.0 <= x <= c * y && 0.0 <= y && c > 0.0
    ensures 0.0 <= x / (y + EPSILON) < c
  {
    var d := y + EPSILON;
    var q := x / d;
    assert q * d == x;
    ProductSign(q, d);
    ProductSign(q - c, d);
    assert (q - c) * d == q * d - c * d;
    assert c * d == c * y + c * EPSILON;
  }

  lemma ReportRange(v: View)
    requires 0.0 <= v.bandEnergy <= v.diffEnergy && 0.0 <= v.low100.sum <= v.diffEnergy
    requires 0.0 <= v.diff100.sum <= v.diff500.sum && 0.0 <= v.band500.sum
    ensures InRange(Report(v).top20, 0.0, 1.0) && InRange(Report(v).bottom20, 0.0, 1.0)
    ensures InRange(Report(v).last500Bottom20, 0.0, 1.0)
    ensures Report(v).last500Top20.Val? ==> Report(v).last500Top20.value >= 0.0
  {
    RatioBound(v.bandEnergy, v.diffEnergy, 1.0);
    RatioBound(v.low100.sum, v.diffEnergy, 1.0);
    RatioBound(v.diff100.sum, v.diff500.sum, 1.0);
    RatioNonNegative(v.band500.sum, v.diff500.sum);
  }

  lemma RatioNonNegative(x: real, y: real)
    requires 0.0 <= x && 0.0 <= y
    ensures x / (y + EPSILON) >= 0.0
  {
  }

  // What the windows of a stream of any values satisfy.
  lemma WindowsNest(volumes: seq<real>)
    ensures var v := Filtered(volumes);
            && 0.0 <= v.low100.sum <= v.lowEnergy && 0.0 <= v.diffEnergy && 0.0 <= v.bandEnergy
            && 0.0 <= v.diff100.sum <= v.diff500.sum && 0.0 <= v.band500.sum
            && v.ticks == |volumes| && (v.filled100 <==> |volumes| >= 100) && (v.filled500 <==> |volumes| >= 500)
  {
    var t := |volumes|;
    FilteredDescribes(volumes);
    EnergySplit(Low, volumes, 0, From(t, 100), t);
    EnergySplit(Total, volumes, From(t, 500), From(t, 100), t);
  }

  // What is reported, for any volumes: nothing before ten ticks, the window ratios
  // only once the windows are full, three indicators between 0 and 1, and the band
  // ratio of the long window, which has no upper bound, never negative.
  lemma ReportInRange(volumes: seq<real>)
    ensures var v := Filtered(volumes);
            && v.diffEnergy >= 0.0 && v.diff500.sum >= 0.0
            && v.diff100.sum <= v.diff500.sum
            && (Report(v).top20.Val? <==> |volumes| >= 10) && (Report(v).bottom20.Val? <==> |volumes| >= 10)
            && (Report(v).last500Top20.Val? <==> |volumes| >= 500)
            && (Report(v).last500Bottom20.Val? <==> |volumes| >= 500)
            && InRange(Report(v).top20, 0.0, 1.0) && InRange(Report(v).bottom20, 0.0, 1.0)
            && InRange(Report(v).last500Bottom20, 0.0, 1.0)
            && (Report(v).last500Top20.Val? ==> Report(v).last500Top20.value >= 0.0)
  {
    WindowsNest(volumes);
    FilteredDescribes(volumes);
    EnergyInequality(Filtered(volumes), volumes);
    ReportRange(Filtered(volumes));
  }

  // A ratio reported for energy x out of y.
  function Share(x: real, y: real): Factor
    requires y >= 0.0
  {
    Val(x / (y + 0.000000000001))
  }

  // The indicators of a filter fed with the volumes.
  function IndicatorsOf(volumes: seq<real>): CrowdInd {
    WindowsNest(volumes);
    Report(Filtered(volumes))
  }

  // The reported values, through the energies of the whole stream: the band's and the
  // last 100 low samples' share of all input, and within the last 500 ticks the band's
  // and the last 100 inputs' share.
  lemma ReportedValues(volumes: seq<real>, t: nat, r: CrowdInd)
    requires t == |volumes| && r == IndicatorsOf(volumes)
    ensures t < 10 ==> r == CrowdInd(NaN, NaN, NaN, NaN)
    ensures 10 <= t ==> r.top20 == Share(Energy(Band, volumes, 0, t), Energy(Total, volumes, 0, t))
    ensures 10 <= t ==>
              r.bottom20 == Share(Energy(Low, volumes, if t < 100 then 0 else t - 100, t), Energy(Total, volumes, 0, t))
    ensures t < 500 ==> r.last500Top20 == r.last500Bottom20 == NaN
    ensures 500 <= t ==>
              && r.last500Top20 == Share(Energy(Band, volumes, t - 500, t), Energy(Total, volumes, t - 500, t))
              && r.last500Bottom20 == Share(Energy(Total, volumes, t - 100, t), Energy(Total, volumes, t - 500, t))
  {
    WindowsNest(volumes);
    FilteredDescribes(volumes);
    ReportOfDescribed(Filtered(volumes), volumes);
  }

  lemma ReportOfDescribed(v: View, volumes: seq<real>)
    requires Describes(v, volumes)
    ensures v.diffEnergy >= 0.0 && v.diff500.sum >= 0.0
    ensures |volumes| < 10 ==> Report(v) == CrowdInd(NaN, NaN, NaN, NaN)
    ensures |volumes| >= 10 ==>
              var t := |volumes|;
              var input := Energy(Total, volumes, 0, t);
              && Report(v).top20 == Share(Energy(Band, volumes, 0, t), input)
              && Report(v).bottom20 == Share(Energy(Low, volumes, From(t, 100), t), input)
    ensures |volumes| < 500 ==> Report(v).last500Top20 == Report(v).last500Bottom20 == NaN
    ensures |volumes| >= 500 ==>
              var t := |volumes|;
              var input := Energy(Total, volumes, t - 500, t);
              && Report(v).last500Top20 == Share(Energy(Band, volumes, t - 500, t), input)
              && Report(v).last500Bottom20 == Share(Energy(Total, volumes, t - 100, t), input)
  {
  }

  lemma LastTick(volumes: seq<real>, before: seq<real>, x: real)
    requires volumes == before + [x]
    ensures Filtered(volumes) == Tick(Filtered(before), x)
  {
    assert volumes[..|volumes| - 1] == before;
  }

  lemma FirstTick(x: real, y: real)
    ensures Tick(Zero(), x) == Tick(Zero(), y)
  {
  }

  // The first volume has no effect, whatever it is.
  lemma {:induction false} FirstVolumeIsIgnored(x: real, y: real, later: seq<real>)
    ensures Filtered([x] + later) == Filtered([y] + later)
  {
    var n := |later|;
    if n == 0 {
      LastTick([x] + later, [], x);
      LastTick([y] + later, [], y);
      FirstTick(x, y);
    } else {
      FirstVolumeIsIgnored(x, y, later[..n - 1]);
      LastTick([x] + later, [x] + later[..n - 1], later[n - 1]);
      LastTick([y] + later, [y] + later[..n - 1], later[n - 1]);
    }
  }

  // ---------- the band ratio of the long window ----------

  // One volume on the second tick, then 500 empty ones.
  function Burst(volume: real): (r: seq<real>)
    ensures |r| == 502 && r[1] == volume && r[0] == 0.0 && forall k :: 2 <= k < 502 ==> r[k] == 0.0
  {
    [0.0, volume] + seq(500, _ => 0.0)
  }

  // The long window then holds no input at all.
  lemma {:induction false} BurstWindowEmpty(volume: real, to: nat)
    requires 2 <= to <= 502
    ensures Energy(Total, Burst(volume), 2, to) == 0.0
  {
    if to > 2 { BurstWindowEmpty(volume, to - 1); }
  }

  lemma {:induction false} EnergyGrows(signal: Signal, a: seq<real>, from: nat, to: nat)
    requires from < to <= |a|
    ensures Energy(signal, a, from, to) >= Square(signal, a, from)
  {
    EnergyDropFirst(signal, a, from, to);
  }

  // But the band still rings: its first sample in the window.
  lemma BurstBand(volume: real)
    ensures Square(Band, Burst(volume), 2) >= 0.001 * Sq(volume)
  {
    var a, b, v := ALPHA_SHORT, ALPHA_LONG, Burst(volume);
    assert Ema(a, v, 1) == 0.0 && Ema(b, v, 1) == 0.0;
    assert Ema(a, v, 2) == a * volume && Ema(b, v, 2) == b * volume;
    assert Ema(a, v, 3) == (1.0 - a) * (a * volume) && Ema(b, v, 3) == (1.0 - b) * (b * volume);
    BandScale(volume);
  }

  lemma BandScale(volume: real)
    ensures var c := (1.0 - ALPHA_SHORT) * ALPHA_SHORT - (1.0 - ALPHA_LONG) * ALPHA_LONG;
            Sq((1.0 - ALPHA_SHORT) * (ALPHA_SHORT * volume) - (1.0 - ALPHA_LONG) * (ALPHA_LONG * volume)) ==
            c * c * Sq(volume) >= 0.001 * Sq(volume)
  {
    var c := (1.0 - ALPHA_SHORT) * ALPHA_SHORT - (1.0 - ALPHA_LONG) * ALPHA_LONG;
    assert (1.0 - ALPHA_SHORT) * (ALPHA_SHORT * volume) - (1.0 - ALPHA_LONG) * (ALPHA_LONG * volume) == c * volume;
    assert (c * volume) * (c * volume) == c * c * (volume * volume);
    assert c * c >= 0.001;
    ProductNonNegative(c * c - 0.001, volume * volume);
  }

  lemma BurstWindows(volume: real)
    ensures var v := Filtered(Burst(volume));
            v.ticks == 502 && v.filled500 && v.diff500.sum == 0.0 && v.band500.sum >= 0.001 * Sq(volume)
  {
    var volumes := Burst(volume);
    FilteredDescribes(volumes);
    BurstWindowEmpty(volume, 502);
    BurstBand(volume);
    EnergyGrows(Band, volumes, 2, 502);
    assert From(502, 500) == 2;
  }

  // No bound holds of the band ratio of the long window: a large enough volume,
  // once it has left the window, exceeds it.
  lemma LongBandRatioUnbounded(bound: real)
    requires bound >= 1.0
    ensures var v := Filtered(Burst(bound));
            && v.diffEnergy >= 0.0 && v.diff500.sum >= 0.0
            && Report(v).last500Top20.Val? && Report(v).last500Top20.value > bound
  {
    ReportInRange(Burst(bound));
    BurstWindows(bound);
    SquareExceeds(bound);
    RatioExceeds(Filtered(Burst(bound)).band500.sum, bound);
  }

  lemma SquareExceeds(bound: real)
    requires bound >= 1.0
    ensures Sq(bound) >= bound
  {
    ProductNonNegative(bound - 1.0, bound);
  }

  lemma RatioExceeds(x: real, bound: real)
    requires bound >= 1.0 && x >= 0.001 * bound
    ensures x / (0.0 + EPSILON) > bound
  {
    var q := x / EPSILON;
    assert q * EPSILON == x;
    ProductSign(q - bound, EPSILON);
    assert (q - bound) * EPSILON == x - bound * EPSILON;
  }
}
