/** The vendor constraint functions of `provision_utsc.py`. */
module UtscLimits {

  /** What a run programs: period, duration, output format, window function, bin count. */
  datatype Settings = Settings(repeatUs: int, freerunMs: int, outputFmt: int, window: int, numBins: int)

  function Max(a: int, b: int): int { if a >= b then a else b }

  function Clamp(low: int, x: int, high: int): int
    requires low <= high
  {
    if x < low then low else if x > high then high else x
  }

  // ---------------------------------------------------------------- Casa

  /** The least whole number of milliseconds, in microseconds, that keeps a run within 300 files. */
  function CasaMinRepeat(freerunMs: int): int { (freerunMs + 299) / 300 * 1000 }

  function CasaLimits(repeatUs: int, freerunMs: int): (int, int) {
    var freerun := Clamp(120000, freerunMs, 300000);
    (Max(Max(repeatUs, 100000), CasaMinRepeat(freerun)), freerun)
  }

  /** `apply_casa_constraints`: at most 300 files; a period is never lowered, and raised no more than needed. */
  method ApplyCasa(repeatUs: int, freerunMs: int) returns (repeat: int, freerun: int)
    ensures (repeat, freerun) == CasaLimits(repeatUs, freerunMs)
    ensures 120000 <= freerun <= 300000 && (120000 <= freerunMs <= 300000 ==> freerun == freerunMs)
    ensures repeat >= 100000 && freerun * 1000 <= 300 * repeat
    ensures repeat >= repeatUs
    ensures repeat == repeatUs || repeat == 100000
            || (repeat % 1000 == 0 && forall m :: m % 1000 == 0 && freerun * 1000 <= 300 * m ==> repeat <= m)
  {
    repeat, freerun := repeatUs, freerunMs;
    if repeat < 100000 {
      repeat := 100000;
    }
    if freerun < 120000 {
      freerun := 120000;
    }
    if freerun > 300000 {
      freerun := 300000;
    }
    var minRepeat := (freerun + 299) / 300 * 1000;
    CasaMinRepeatIsLeast(freerun);
    if repeat < minRepeat {
      repeat := minRepeat;
    }
  }

  lemma CasaMinRepeatIsLeast(freerunMs: int)
    ensures var r := CasaMinRepeat(freerunMs);
            r % 1000 == 0 && freerunMs * 1000 <= 300 * r
            && forall m :: m % 1000 == 0 && freerunMs * 1000 <= 300 * m ==> r <= m
  {
    var r := CasaMinRepeat(freerunMs);
    forall m | m % 1000 == 0 && freerunMs * 1000 <= 300 * m ensures r <= m {
      var k := m / 1000;
      assert m == 1000 * k;
      assert freerunMs <= 300 * k;
      assert (freerunMs + 299) / 300 <= k;
    }
  }

  lemma CasaIdempotent(repeatUs: int, freerunMs: int)
    ensures var l := CasaLimits(repeatUs, freerunMs); CasaLimits(l.0, l.1) == l
  {}

  // ---------------------------------------------------------------- E6000

  const VALID_BINS := [200, 400, 800, 1600, 3200]

  function Distance(a: int, b: int): (d: int)
    ensures d >= 0 && (d == a - b || d == b - a)
  {
    if a >= b then a - b else b - a
  }

  /** The midpoints between the valid counts decide. */
  function NearestBin(bins: int): int {
    if bins <= 300 then 200 else if bins <= 600 then 400 else if bins <= 1200 then 800 else if bins <= 2400 then 1600
        else 3200
  }

  /** The nearest valid bin count, the smaller of two equally near ones: `min(valid, key=...)`. */
  method NearestBins(bins: int) returns (nearest: int)
    ensures nearest == NearestBin(bins) && nearest in {200, 400, 800, 1600, 3200}
    ensures forall v :: v in {200, 400, 800, 1600, 3200} ==> Distance(bins, nearest) <= Distance(bins, v)
    ensures forall v :: v in {200, 400, 800, 1600, 3200} && v < nearest ==>
              Distance(bins, nearest) < Distance(bins, v)
    ensures bins in {200, 400, 800, 1600, 3200} ==> nearest == bins
  {
    nearest := VALID_BINS[0];
    for i := 1 to |VALID_BINS|
      invariant nearest in VALID_BINS[..i]
      invariant forall j :: 0 <= j < i ==> Distance(bins, nearest) <= Distance(bins, VALID_BINS[j])
      invariant forall j :: 0 <= j < i && VALID_BINS[j] < nearest ==>
                Distance(bins, nearest) < Distance(bins, VALID_BINS[j])
    {
      if Distance(bins, VALID_BINS[i]) < Distance(bins, nearest) {
        nearest := VALID_BINS[i];
      }
    }
    NearestIsUnique(bins, nearest);
  }

  lemma NearestIsUnique(bins: int, nearest: int)
    requires nearest in VALID_BINS
    requires forall j :: 0 <= j < |VALID_BINS| ==> Distance(bins, nearest) <= Distance(bins, VALID_BINS[j])
    requires forall j :: 0 <= j < |VALID_BINS| && VALID_BINS[j] < nearest ==>
               Distance(bins, nearest) < Distance(bins, VALID_BINS[j])
    ensures nearest == NearestBin(bins)
  {
    assert VALID_BINS[0] == 200 && VALID_BINS[1] == 400 && VALID_BINS[2] == 800;
    assert VALID_BINS[3] == 1600 && VALID_BINS[4] == 3200;
  }

  function E6000Repeat(repeatUs: int): int { Clamp(50001, repeatUs, 1000000) }

  function E6000Freerun(repeatUs: int, freerunMs: int): int {
    var positive := if freerunMs <= 0 then 60000 else freerunMs;
    var most := 250 * (repeatUs / 1000);
    var capped := if positive > 600000 then 600000 else positive;
    if capped > most then most else capped
  }

  function E6000Window(window: int, core: bool): int {
    if core || window < 2 || window > 5 then 2 else window
  }

  /** The E6000's values for given ones. */
  function E6000Limits(s: Settings, core: bool): Settings {
    var repeat := E6000Repeat(s.repeatUs);
    Settings(repeat, E6000Freerun(repeat, s.freerunMs), s.outputFmt, E6000Window(s.window, core),
             if s.outputFmt == 1 || s.numBins in VALID_BINS then s.numBins else NearestBin(s.numBins))
  }

  /**
  `apply_e6000_constraints`: at most 250 files, a valid bin count unless the output is TimeIQ, a supported window.
  */
  method ApplyE6000(repeatUs: int, freerunMs: int, outputFmt: int, window: int, core: bool, numBins: int)
    returns (repeat: int, freerun: int, fmt: int, win: int, bins: int)
    ensures Settings(repeat, freerun, fmt, win, bins)
         == E6000Limits(Settings(repeatUs, freerunMs, outputFmt, window, numBins), core)
    ensures fmt == outputFmt
    ensures 50001 <= repeat <= 1000000 && 0 < freerun <= 600000 && freerun * 1000 <= 250 * repeat
    ensures if core then win == 2 else 2 <= win <= 5 && (2 <= window <= 5 ==> win == window)
    ensures 50001 <= repeatUs <= 1000000 ==> repeat == repeatUs
    ensures freerunMs > 0 ==> freerun <= freerunMs && freerun in {freerunMs, 600000, 250 * (repeat / 1000)}
    ensures 0 < freerunMs <= 600000 && freerunMs <= 250 * (repeat / 1000) ==> freerun == freerunMs
    ensures fmt == 1 ==> bins == numBins
    ensures fmt != 1 ==> bins in {200, 400, 800, 1600, 3200}
                         && (numBins in {200, 400, 800, 1600, 3200} ==> bins == numBins)
    ensures fmt != 1 ==> forall v :: v in {200, 400, 800, 1600, 3200} ==>
              Distance(numBins, bins) < Distance(numBins, v)
                  || (Distance(numBins, bins) == Distance(numBins, v) && bins <= v)
  {
    repeat, freerun, fmt, win, bins := repeatUs, freerunMs, outputFmt, window, numBins;
    if repeat < 50001 {
      repeat := 50001;
    }
    if repeat > 1000000 {
      repeat := 1000000;
    }
    if freerun <= 0 {
      freerun := 60000;
    }
    if freerun > 600000 {
      freerun := 600000;
    }
    var most := 250 * (repeat / 1000);
    if freerun > most {
      freerun := most;
    }
    if fmt != 1 {
      var nearest := NearestBins(bins);
      if bins !in VALID_BINS {
        bins := nearest;
      }
    }
    if core && win != 2 {
      win := 2;
    } else if !core && !(win == 2 || win == 3 || win == 4 || win == 5) {
      win := 2;
    }
  }

  /** All five values. */
  lemma E6000Idempotent(s: Settings, core: bool)
    ensures E6000Limits(E6000Limits(s, core), core) == E6000Limits(s, core)
  {
    BinsStay(s.numBins);
  }

  lemma BinsStay(bins: int)
    ensures NearestBin(bins) in VALID_BINS
  {
    assert NearestBin(bins) in [VALID_BINS[0], VALID_BINS[1], VALID_BINS[2], VALID_BINS[3], VALID_BINS[4]];
  }

  // ---------------------------------------------------------------- Cisco

  function CiscoLimits(repeatUs: int, freerunMs: int, outputFmt: int): (int, int, int) {
    var freerun := if freerunMs <= 0 then 5000 else freerunMs;
    (if repeatUs > freerun * 1000 then freerun * 1000 else repeatUs, freerun,
     if outputFmt == 1 || outputFmt == 2 || outputFmt == 4 then outputFmt else 2)
  }

  /** `apply_cisco_constraints`: the period fits into the run, and the output format is a supported one. */
  method ApplyCisco(repeatUs: int, freerunMs: int, outputFmt: int) returns (repeat: int, freerun: int, fmt: int)
    ensures (repeat, freerun, fmt) == CiscoLimits(repeatUs, freerunMs, outputFmt)
    ensures freerun > 0 && repeat <= freerun * 1000 && repeat <= repeatUs && fmt in {1, 2, 4}
    ensures freerunMs > 0 ==> freerun == freerunMs
    ensures repeat == if repeatUs <= freerun * 1000 then repeatUs else freerun * 1000
    ensures outputFmt in {1, 2, 4} ==> fmt == outputFmt
  {
    repeat, freerun, fmt := repeatUs, freerunMs, outputFmt;
    if fmt !in {1, 2, 4} {
      fmt := 2;
    }
    if freerun <= 0 {
      freerun := 5000;
    }
    if repeat > freerun * 1000 {
      repeat := freerun * 1000;
    }
  }

  lemma CiscoIdempotent(repeatUs: int, freerunMs: int, outputFmt: int)
    ensures var l := CiscoLimits(repeatUs, freerunMs, outputFmt); CiscoLimits(l.0, l.1, l.2) == l
  {}
}
