// Clock times written HHMMSSmmm, their linear form in milliseconds, and the
// trading-time axis in which the lunch break takes no time.
module Timestamp {

  const DAY: int := 86_400_000
  const OPEN: int := 34_200_000        // 9:30:00.000 in milliseconds
  const MORNING: int := 7_200_000      // length of the morning session
  const LUNCH: int := 5_400_000        // length of the lunch break

  // t is a clock time of the day.
  predicate IsTime(t: nat) {
    t / 10_000_000 < 24 && t / 100_000 % 100 < 60 && t / 1000 % 100 < 60
  }

  function Linear(t: nat): nat {
    var hours, minutes, seconds, milliseconds := t / 10_000_000, t / 100_000 % 100, t / 1000 % 100, t % 1000;
    (hours * 3600 + minutes * 60 + seconds) * 1000 + milliseconds
  }

  // Hours wrap at 24.
  function Delinear(time: nat): nat {
    var milliseconds, t1 := time % 1000, time / 1000;
    var seconds, t2 := t1 % 60, t1 / 60;
    var minutes, t3 := t2 % 60, t2 / 60;
    var hours := t3 % 24;
    milliseconds + 1000 * (seconds + 100 * (minutes + 100 * hours))
  }

  // Milliseconds of trading time since 9:30.  Everything inside the lunch break
  // is mapped to the first tick of the afternoon.
  function AbsLinear(t: nat): int {
    var time := Linear(t) - OPEN;
    if time > MORNING then
      if time < MORNING + LUNCH then MORNING + 100 else time - (LUNCH - 100)
    else time
  }

  function AbsDelinear(time: int): nat
    requires -OPEN <= time
  {
    Delinear((if time > MORNING then time + (LUNCH - 100) else time) + OPEN)
  }

  function Advance100ms(t: nat): nat {
    AbsDelinear(AbsLinear(t) + 100)
  }

  // ---------- round trips and order ----------

  lemma DelinearParts(h: nat, m: nat, s: nat, ms: nat)
    requires h < 24 && m < 60 && s < 60 && ms < 1000
    ensures Delinear((h * 3600 + m * 60 + s) * 1000 + ms) == ms + 1000 * (s + 100 * (m + 100 * h))
  {
    var time := (h * 3600 + m * 60 + s) * 1000 + ms;
    assert time / 1000 == h * 3600 + m * 60 + s && time % 1000 == ms;
    assert (h * 3600 + m * 60 + s) / 60 == h * 60 + m && (h * 3600 + m * 60 + s) % 60 == s;
    assert (h * 60 + m) / 60 == h && (h * 60 + m) % 60 == m;
  }

  lemma ClockParts(t: nat)
    ensures t == t % 1000 + 1000 * (t / 1000 % 100 + 100 * (t / 100_000 % 100 + 100 * (t / 10_000_000)))
  {
    assert t == t / 1000 * 1000 + t % 1000;
    var a := t / 1000;
    assert a == a / 100 * 100 + a % 100 && t / 100_000 == a / 100;
    var b := a / 100;
    assert b == b / 100 * 100 + b % 100 && t / 10_000_000 == b / 100;
  }

  // The linear form determines the clock time.
  lemma DelinearLinear(t: nat)
    requires IsTime(t)
    ensures Delinear(Linear(t)) == t
  {
    ClockParts(t);
    DelinearParts(t / 10_000_000, t / 100_000 % 100, t / 1000 % 100, t % 1000);
  }

  lemma LinearDelinear(x: nat)
    requires x < DAY
    ensures IsTime(Delinear(x)) && Linear(Delinear(x)) == x
  {
    var ms, a := x % 1000, x / 1000;
    var s, b := a % 60, a / 60;
    var m, h := b % 60, b / 60;
    assert h < 24 && h % 24 == h;
    var t := Delinear(x);
    assert t == ms + 1000 * (s + 100 * (m + 100 * h));
    assert t / 1000 == s + 100 * (m + 100 * h) && t % 1000 == ms;
    assert t / 100_000 == m + 100 * h && t / 1000 % 100 == s;
    assert t / 10_000_000 == h && t / 100_000 % 100 == m;
  }

  // Clock times compare like their linear forms.
  lemma OrderIsLinear(a: nat, b: nat)
    requires IsTime(a) && IsTime(b)
    ensures a < b <==> Linear(a) < Linear(b)
  {
    ClockParts(a);
    ClockParts(b);
    PartsOrder(a / 10_000_000, a / 100_000 % 100, a / 1000 % 100, a % 1000,
               b / 10_000_000, b / 100_000 % 100, b / 1000 % 100, b % 1000);
  }

  // Both readings of the parts are lexicographic.
  lemma PartsOrder(h: nat, m: nat, s: nat, ms: nat, h': nat, m': nat, s': nat, ms': nat)
    requires m < 60 && s < 60 && ms < 1000 && m' < 60 && s' < 60 && ms' < 1000
    ensures ms + 1000 * (s + 100 * (m + 100 * h)) < ms' + 1000 * (s' + 100 * (m' + 100 * h')) <==>
            (h * 3600 + m * 60 + s) * 1000 + ms < (h' * 3600 + m' * 60 + s') * 1000 + ms'
  {
    if h != h' {
    } else if m != m' {
    } else if s != s' {
    }
  }

  // ---------- the 100 ms grid ----------

  const LAST: int := 468_000           // the last grid point of the day, 23:59:59.900
  const MIDNIGHT: int := -342_000      // the grid point 0:00:00.000

  // Grid point i: trading time 100 * i.
  function Grid(i: int): nat
    requires MIDNIGHT <= i
  {
    AbsDelinear(100 * i)
  }

  // Its linear form before the hours wrap.
  function GridLinear(i: int): int {
    OPEN + 100 * i + if 100 * i > MORNING then LUNCH - 100 else 0
  }

  lemma GridPoint(i: int)
    requires MIDNIGHT <= i <= LAST
    ensures IsTime(Grid(i)) && Linear(Grid(i)) == GridLinear(i) && AbsLinear(Grid(i)) == 100 * i
  {
    assert Grid(i) == Delinear(GridLinear(i));
    LinearDelinear(GridLinear(i));
    LunchIsSkipped(Grid(i), i);
  }

  lemma LunchIsSkipped(t: nat, i: int)
    requires Linear(t) == GridLinear(i)
    ensures AbsLinear(t) == 100 * i
  {
  }

  // The grid advances by one point, across the lunch break too.
  lemma GridAdvances(i: int)
    requires MIDNIGHT <= i <= LAST
    ensures Advance100ms(Grid(i)) == Grid(i + 1)
  {
    GridPoint(i);
  }

  // Within the day the grid strictly increases; after the last point it is back
  // at midnight.
  lemma GridIncreases(i: int)
    requires MIDNIGHT <= i <= LAST
    ensures i < LAST ==> Grid(i) < Grid(i + 1)
    ensures i == LAST ==> Grid(i) == 23_59_59_900 && Grid(i + 1) == Grid(MIDNIGHT) == 0
  {
    GridPoint(i);
    if i < LAST {
      GridPoint(i + 1);
      OrderIsLinear(Grid(i), Grid(i + 1));
    } else {
      DelinearParts(23, 59, 59, 900);
      assert GridLinear(LAST) == (23 * 3600 + 59 * 60 + 59) * 1000 + 900;
      assert Delinear(DAY) == 0 && Delinear(0) == 0;
    }
  }

  // ---------- where the lunch break is ----------

  // The linear form, from the parts of a clock time.
  lemma LinearOfParts(h: nat, m: nat, s: nat, ms: nat)
    requires h < 24 && m < 60 && s < 60 && ms < 1000
    ensures var t := h * 10_000_000 + m * 100_000 + s * 1000 + ms;
            IsTime(t) && Linear(t) == h * 3_600_000 + m * 60_000 + s * 1000 + ms
  {
    DelinearParts(h, m, s, ms);
    LinearDelinear((h * 3600 + m * 60 + s) * 1000 + ms);
  }

  lemma SessionLiterals()
    ensures IsTime(9_30_00_000) && Linear(9_30_00_000) == 34_200_000
    ensures IsTime(11_30_00_000) && Linear(11_30_00_000) == 41_400_000
    ensures IsTime(13_00_00_000) && Linear(13_00_00_000) == 46_800_000
  {
    LinearOfParts(9, 30, 0, 0);
    LinearOfParts(11, 30, 0, 0);
    LinearOfParts(13, 0, 0, 0);
  }

  // Trading time in clock literals: the milliseconds since 9:30 up to 11:30; one grid
  // step past two hours strictly inside the lunch break; and from 13:00 on that much
  // plus the milliseconds since 13:00.
  lemma TradingTime(t: nat)
    requires IsTime(t)
    ensures t <= 11_30_00_000 ==> AbsLinear(t) == Linear(t) - Linear(9_30_00_000)
    ensures 11_30_00_000 < t < 13_00_00_000 ==> AbsLinear(t) == 7_200_100
    ensures 13_00_00_000 <= t ==> AbsLinear(t) == 7_200_100 + (Linear(t) - Linear(13_00_00_000))
  {
    SessionLiterals();
    OrderIsLinear(t, 11_30_00_000);
    OrderIsLinear(11_30_00_000, t);
    OrderIsLinear(t, 13_00_00_000);
  }

  // The grid points around the open and the break, and the step across it.
  lemma GridAroundLunch()
    ensures Grid(0) == 9_30_00_000 && Grid(72_000) == 11_30_00_000 && Grid(72_001) == 13_00_00_000
    ensures Advance100ms(11_30_00_000) == 13_00_00_000 && Advance100ms(13_00_00_000) == 13_00_00_100
  {
    SessionLiterals();
    LinearOfParts(13, 0, 0, 100);
    DelinearLinear(9_30_00_000);
    DelinearLinear(11_30_00_000);
    DelinearLinear(13_00_00_000);
    DelinearLinear(13_00_00_100);
    GridAdvances(72_000);
    GridAdvances(72_001);
  }

  // Buckets on both sides of the break: 1 to 72000 in the morning, 72001 in the break
  // and at 13:00, and one more for every 100 ms begun after it.
  lemma SessionBuckets(t: nat)
    requires IsTime(t)
    ensures t <= 9_30_00_000 ==> Bucket(t) == 0
    ensures 9_30_00_000 < t <= 11_30_00_000 ==> Bucket(t) == (Linear(t) - 34_200_000 + 99) / 100
    ensures 11_30_00_000 < t <= 13_00_00_000 ==> Bucket(t) == 72_001
    ensures 13_00_00_000 < t ==> Bucket(t) == 72_001 + (Linear(t) - 46_800_000 + 99) / 100
  {
    SessionLiterals();
    TradingTime(t);
    OrderIsLinear(t, 9_30_00_000);
    OrderIsLinear(9_30_00_000, t);
    OrderIsLinear(13_00_00_000, t);
  }

  // n advances from t.
  function Advances(t: nat, n: nat): nat {
    if n == 0 then t else Advance100ms(Advances(t, n - 1))
  }

  lemma {:induction false} AdvancesOnGrid(i: int, n: nat) returns (k: int)
    requires MIDNIGHT <= i <= LAST
    ensures MIDNIGHT <= k <= LAST && Advances(Grid(i), n) == Grid(k)
    ensures i + n <= LAST ==> k == i + n
  {
    if n == 0 {
      k := i;
    } else {
      k := AdvancesOnGrid(i, n - 1);
      GridAdvances(k);
      GridIncreases(k);
      k := if k == LAST then MIDNIGHT else k + 1;
    }
  }

  // Catching up with time t from any grid point ends exactly when t is not past
  // the last grid point of the day.
  lemma CatchUpEnds(t: nat, i: int)
    requires IsTime(t) && MIDNIGHT <= i <= LAST
    ensures (exists n: nat :: t <= Advances(Grid(i), n)) <==> t <= 23_59_59_900
  {
    GridIncreases(LAST);
    if t <= 23_59_59_900 {
      var k := AdvancesOnGrid(i, LAST - i);
      assert t <= Advances(Grid(i), LAST - i);
    } else {
      forall n: nat ensures Advances(Grid(i), n) < t {
        var k := AdvancesOnGrid(i, n);
        PastGridPoint(t, k);
        PastGridPoint(t, LAST);
      }
    }
  }

  // A clock time is past a grid point exactly when its trading time is, lunch
  // break included.
  lemma PastGridPoint(t: nat, i: int)
    requires IsTime(t) && MIDNIGHT <= i <= LAST
    ensures t > Grid(i) <==> AbsLinear(t) > 100 * i
  {
    GridPoint(i);
    OrderIsLinear(Grid(i), t);
  }

  // The bucket of a time: the first grid point at or after it.
  function Bucket(t: nat): nat {
    var a := AbsLinear(t);
    if a <= 0 then 0 else (a + 99) / 100
  }

  lemma BucketMeaning(t: nat, i: nat)
    requires IsTime(t) && i <= LAST
    ensures t > Grid(i) <==> Bucket(t) > i
    ensures 0 < i ==> (Bucket(t) == i <==> 100 * (i - 1) < AbsLinear(t) <= 100 * i)
  {
    PastGridPoint(t, i);
  }

  lemma BucketMonotone(a: nat, b: nat)
    requires IsTime(a) && IsTime(b) && a <= b
    ensures Bucket(a) <= Bucket(b)
  {
    if a < b { OrderIsLinear(a, b); }
  }
}
