// The filter as the object the engine keeps: fields updated one by one and ring
// buffers overwritten in place.
module IIRObject {
  import opened IIRFilter

  class IIRState {
    var prevCumVolume: real
    var shortEma: real
    var longEma: real
    var bandEnergy: real
    var lowFreqEnergy: real
    var diffEnergy: real
    var windowBand100Sum: real
    var windowLow100Sum: real
    var windowDiff100Sum: real
    var windowBand500Sum: real
    var windowDiff500Sum: real
    var ring100Pos: nat
    var ring500Pos: nat
    var ring100Filled: bool
    var ring500Filled: bool
    var tickCount: nat
    const band2Ring100: array<real>
    const lowBand2Ring100: array<real>
    const diff2Ring100: array<real>
    const band2Ring500: array<real>
    const lowBand2Ring500: array<real>
    const diff2Ring500: array<real>

    ghost const Repr: set<object>

    ghost predicate Valid()
      reads this
    {
      && this in Repr && band2Ring100 in Repr && lowBand2Ring100 in Repr && diff2Ring100 in Repr
      && band2Ring500 in Repr && lowBand2Ring500 in Repr && diff2Ring500 in Repr
      && band2Ring100.Length == lowBand2Ring100.Length == diff2Ring100.Length == 100
      && band2Ring500.Length == lowBand2Ring500.Length == diff2Ring500.Length == 500
      && band2Ring100 != lowBand2Ring100 && band2Ring100 != diff2Ring100 && lowBand2Ring100 != diff2Ring100
      && band2Ring500 != lowBand2Ring500 && band2Ring500 != diff2Ring500 && lowBand2Ring500 != diff2Ring500
      && ring100Pos < 100 && ring500Pos < 500
    }

    function AsView(): (v: View)
      reads this, Repr
      requires Valid()
      ensures Shaped(v)
    {
      View(prevCumVolume, shortEma, longEma, bandEnergy, lowFreqEnergy, diffEnergy,
           Window(windowBand100Sum, band2Ring100[..]), Window(windowLow100Sum, lowBand2Ring100[..]),
           Window(windowDiff100Sum, diff2Ring100[..]), Window(windowBand500Sum, band2Ring500[..]),
           Window(windowDiff500Sum, diff2Ring500[..]), lowBand2Ring500[..],
           ring100Pos, ring500Pos, ring100Filled, ring500Filled, tickCount)
    }

    constructor ()
      ensures Valid() && AsView() == Zero()
      ensures fresh(Repr)
    {
      prevCumVolume, shortEma, longEma := 0.0, 0.0, 0.0;
      bandEnergy, lowFreqEnergy, diffEnergy := 0.0, 0.0, 0.0;
      windowBand100Sum, windowLow100Sum, windowDiff100Sum := 0.0, 0.0, 0.0;
      windowBand500Sum, windowDiff500Sum := 0.0, 0.0;
      ring100Pos, ring500Pos, ring100Filled, ring500Filled, tickCount := 0, 0, false, false, 0;
      band2Ring100 := new real[100](_ => 0.0);
      lowBand2Ring100 := new real[100](_ => 0.0);
      diff2Ring100 := new real[100](_ => 0.0);
      band2Ring500 := new real[500](_ => 0.0);
      lowBand2Ring500 := new real[500](_ => 0.0);
      diff2Ring500 := new real[500](_ => 0.0);
      Repr := {this, band2Ring100, lowBand2Ring100, diff2Ring100, band2Ring500, lowBand2Ring500, diff2Ring500};
    }

    // Slide the three 100-tick windows.
    method Push100(highBandSquare: real, lowBandSquare: real, diffSquare: real)
      requires Valid()
      modifies `windowBand100Sum, `windowLow100Sum, `windowDiff100Sum, `ring100Pos, `ring100Filled
      modifies band2Ring100, lowBand2Ring100, diff2Ring100
      ensures Valid()
      ensures Window(windowBand100Sum, band2Ring100[..]) ==
              Push(old(Window(windowBand100Sum, band2Ring100[..])), old(ring100Pos), highBandSquare)
      ensures Window(windowLow100Sum, lowBand2Ring100[..]) ==
              Push(old(Window(windowLow100Sum, lowBand2Ring100[..])), old(ring100Pos), lowBandSquare)
      ensures Window(windowDiff100Sum, diff2Ring100[..]) ==
              Push(old(Window(windowDiff100Sum, diff2Ring100[..])), old(ring100Pos), diffSquare)
      ensures ring100Pos == if old(ring100Pos) + 1 >= 100 then 0 else old(ring100Pos) + 1
      ensures ring100Filled == (old(ring100Filled) || old(ring100Pos) + 1 >= 100)
    {
      windowBand100Sum := windowBand100Sum + (highBandSquare - band2Ring100[ring100Pos]);
      windowLow100Sum := windowLow100Sum + (lowBandSquare - lowBand2Ring100[ring100Pos]);
      windowDiff100Sum := windowDiff100Sum + (diffSquare - diff2Ring100[ring100Pos]);
      band2Ring100[ring100Pos] := highBandSquare;
      lowBand2Ring100[ring100Pos] := lowBandSquare;
      diff2Ring100[ring100Pos] := diffSquare;
      ring100Pos := ring100Pos + 1;
      if ring100Pos >= 100 {
        ring100Filled := true;
        ring100Pos := 0;
      }
    }

    // Slide the 500-tick windows and the third 500-tick ring.
    method Push500(highBandSquare: real, lowBandSquare: real, diffSquare: real)
      requires Valid()
      modifies `windowBand500Sum, `windowDiff500Sum, `ring500Pos, `ring500Filled
      modifies band2Ring500, lowBand2Ring500, diff2Ring500
      ensures Valid()
      ensures Window(windowBand500Sum, band2Ring500[..]) ==
              Push(old(Window(windowBand500Sum, band2Ring500[..])), old(ring500Pos), highBandSquare)
      ensures Window(windowDiff500Sum, diff2Ring500[..]) ==
              Push(old(Window(windowDiff500Sum, diff2Ring500[..])), old(ring500Pos), diffSquare)
      ensures lowBand2Ring500[..] == old(lowBand2Ring500[..])[old(ring500Pos) := lowBandSquare]
      ensures ring500Pos == if old(ring500Pos) + 1 >= 500 then 0 else old(ring500Pos) + 1
      ensures ring500Filled == (old(ring500Filled) || old(ring500Pos) + 1 >= 500)
    {
      windowBand500Sum := windowBand500Sum + (highBandSquare - band2Ring500[ring500Pos]);
      windowDiff500Sum := windowDiff500Sum + (diffSquare - diff2Ring500[ring500Pos]);
      band2Ring500[ring500Pos] := highBandSquare;
      lowBand2Ring500[ring500Pos] := lowBandSquare;
      diff2Ring500[ring500Pos] := diffSquare;
      ring500Pos := ring500Pos + 1;
      if ring500Pos >= 500 {
        ring500Filled := true;
        ring500Pos := 0;
      }
    }

    // Update the averages and the whole-session energies.
    method Accumulate(diff: real) returns (highBandSquare: real, lowBandSquare: real, diffSquare: real)
      requires Valid()
      modifies `shortEma, `longEma, `bandEnergy, `lowFreqEnergy, `diffEnergy
      ensures shortEma == Mix(ALPHA_SHORT, diff, old(shortEma)) && longEma == Mix(ALPHA_LONG, diff, old(longEma))
      ensures highBandSquare == Sq(shortEma - longEma) && lowBandSquare == Sq(longEma) && diffSquare == Sq(diff)
      ensures Valid()
      ensures AsView() == old(AsView()).(
                shortEma := shortEma, longEma := longEma, bandEnergy := old(bandEnergy) + highBandSquare,
                lowEnergy := old(lowFreqEnergy) + lowBandSquare, diffEnergy := old(diffEnergy) + diffSquare)
    {
      shortEma := Mix(ALPHA_SHORT, diff, shortEma);
      longEma := Mix(ALPHA_LONG, diff, longEma);
      var highBand, lowBand := shortEma - longEma, longEma;
      diffSquare, highBandSquare, lowBandSquare := Sq(diff), Sq(highBand), Sq(lowBand);
      bandEnergy := bandEnergy + highBandSquare;
      lowFreqEnergy := lowFreqEnergy + lowBandSquare;
      diffEnergy := diffEnergy + diffSquare;
    }

    method AddVolumeTick(lastVolume: real)
      requires Valid()
      modifies Repr
      ensures Valid() && AsView() == Tick(old(AsView()), lastVolume)
    {
      var diff := if tickCount == 0 then 0.0 else lastVolume;
      var currCumVolume := prevCumVolume + diff;
      var highBandSquare, lowBandSquare, diffSquare := Accumulate(diff);
      Slide(highBandSquare, lowBandSquare, diffSquare);
      Count(currCumVolume);
    }

    method Count(currCumVolume: real)
      requires Valid()
      modifies `prevCumVolume, `tickCount
      ensures Valid() && AsView() == old(AsView()).(cumVolume := currCumVolume, ticks := old(tickCount) + 1)
    {
      prevCumVolume := currCumVolume;
      tickCount := tickCount + 1;
    }

    // Slide all windows.
    method Slide(highBandSquare: real, lowBandSquare: real, diffSquare: real)
      requires Valid()
      modifies `windowBand100Sum, `windowLow100Sum, `windowDiff100Sum, `ring100Pos, `ring100Filled
      modifies `windowBand500Sum, `windowDiff500Sum, `ring500Pos, `ring500Filled
      modifies band2Ring100, lowBand2Ring100, diff2Ring100, band2Ring500, lowBand2Ring500, diff2Ring500
      ensures Valid()
      ensures AsView() == Slid(old(AsView()), highBandSquare, lowBandSquare, diffSquare)
    {
      Push100(highBandSquare, lowBandSquare, diffSquare);
      Push500(highBandSquare, lowBandSquare, diffSquare);
    }


    method FinalCompute() returns (factor: CrowdInd)
      requires Valid() && diffEnergy >= 0.0 && windowDiff500Sum >= 0.0
      ensures factor == Report(AsView())
    {
      if tickCount < 10 {
        return CrowdInd(NaN, NaN, NaN, NaN);
      }
      var top20 := Val(bandEnergy / (diffEnergy + EPSILON));
      var bottom20 := Val(windowLow100Sum / (diffEnergy + EPSILON));
      var last500Top20 := if ring500Filled then Val(windowBand500Sum / (windowDiff500Sum + EPSILON)) else NaN;
      var last500Bottom20 :=
        if ring500Filled && ring100Filled then Val(windowDiff100Sum / (windowDiff500Sum + EPSILON)) else NaN;
      factor := CrowdInd(top20, bottom20, last500Top20, last500Bottom20);
    }

    // Structure assignment: every field and every ring cell.
    method CopyFrom(other: IIRState)
      requires Valid() && other.Valid() && Repr !! other.Repr
      modifies Repr
      ensures Valid() && AsView() == other.AsView() == old(other.AsView())
    {
      CopyRings100(other);
      CopyRings500(other);
      CopyAverages(other);
      CopySums(other);
      CopyPositions(other);
    }

    method CopyAverages(other: IIRState)
      requires other != this
      modifies `prevCumVolume, `shortEma, `longEma, `bandEnergy, `lowFreqEnergy, `diffEnergy, `tickCount
      ensures prevCumVolume == other.prevCumVolume && shortEma == other.shortEma && longEma == other.longEma
      ensures bandEnergy == other.bandEnergy && lowFreqEnergy == other.lowFreqEnergy && diffEnergy == other.diffEnergy
      ensures tickCount == other.tickCount
    {
      prevCumVolume, shortEma, longEma := other.prevCumVolume, other.shortEma, other.longEma;
      bandEnergy, lowFreqEnergy, diffEnergy := other.bandEnergy, other.lowFreqEnergy, other.diffEnergy;
      tickCount := other.tickCount;
    }

    method CopySums(other: IIRState)
      requires other != this
      modifies `windowBand100Sum, `windowLow100Sum, `windowDiff100Sum, `windowBand500Sum, `windowDiff500Sum
      ensures windowBand100Sum == other.windowBand100Sum && windowLow100Sum == other.windowLow100Sum
      ensures windowDiff100Sum == other.windowDiff100Sum && windowBand500Sum == other.windowBand500Sum
      ensures windowDiff500Sum == other.windowDiff500Sum
    {
      windowBand100Sum, windowLow100Sum, windowDiff100Sum :=
        other.windowBand100Sum, other.windowLow100Sum, other.windowDiff100Sum;
      windowBand500Sum, windowDiff500Sum := other.windowBand500Sum, other.windowDiff500Sum;
    }

    method CopyPositions(other: IIRState)
      requires other != this
      modifies `ring100Pos, `ring500Pos, `ring100Filled, `ring500Filled
      ensures ring100Pos == other.ring100Pos && ring500Pos == other.ring500Pos
      ensures ring100Filled == other.ring100Filled && ring500Filled == other.ring500Filled
    {
      ring100Pos, ring500Pos := other.ring100Pos, other.ring500Pos;
      ring100Filled, ring500Filled := other.ring100Filled, other.ring500Filled;
    }

    method CopyRings100(other: IIRState)
      requires Valid() && other.Valid() && Repr !! other.Repr
      modifies band2Ring100, lowBand2Ring100, diff2Ring100
      ensures band2Ring100[..] == other.band2Ring100[..] && lowBand2Ring100[..] == other.lowBand2Ring100[..]
      ensures diff2Ring100[..] == other.diff2Ring100[..]
    {
      CopyRing(band2Ring100, other.band2Ring100);
      CopyRing(lowBand2Ring100, other.lowBand2Ring100);
      CopyRing(diff2Ring100, other.diff2Ring100);
    }

    method CopyRings500(other: IIRState)
      requires Valid() && other.Valid() && Repr !! other.Repr
      modifies band2Ring500, lowBand2Ring500, diff2Ring500
      ensures band2Ring500[..] == other.band2Ring500[..] && lowBand2Ring500[..] == other.lowBand2Ring500[..]
      ensures diff2Ring500[..] == other.diff2Ring500[..]
    {
      CopyRing(band2Ring500, other.band2Ring500);
      CopyRing(lowBand2Ring500, other.lowBand2Ring500);
      CopyRing(diff2Ring500, other.diff2Ring500);
    }

    static method CopyRing(dst: array<real>, src: array<real>)
      requires dst.Length == src.Length && dst != src
      modifies dst
      ensures dst[..] == src[..]
    {
      forall i | 0 <= i < dst.Length {
        dst[i] := src[i];
      }
    }
  }
}
