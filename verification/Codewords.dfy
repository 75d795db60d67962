/** Codeword error rates of the downstream channels between two snapshots, with exact rational rates. */
module Codewords {
  import opened Wrappers

  /** One channel of a snapshot; a missing counter counts as zero. */
  datatype Channel = Channel(channelId: Option<int>, unerrored: Option<int>, corrected: Option<int>,
                             uncorrectable: Option<int>)

  function Count(c: Option<int>): int { if c.Some? then c.value else 0 }

  /** `DocsIfDownstreamCwErrorRateEntry` with its totals. */
  datatype RateEntry = RateEntry(index: int, channelId: int, codewords: int, errors: int, rate: real,
                                 codewordsPerSecond: real, errorsPerSecond: real)

  /** `a / b if b > 0 else 0.0` */
  function Ratio(a: int, b: int): real { if b > 0 then a as real / b as real else 0.0 }

  function PerSecond(n: int, elapsed: real): real { if elapsed > 0.0 then n as real / elapsed else 0.0 }

  // ---------------------------------------------------------------- the map by channel

  /** `_create_mapping`: the last channel with an id stands for it; channels without one are skipped. */
  function ById(channels: seq<Channel>): map<int, Channel> {
    if channels == [] then map[]
    else
      var c, front := channels[|channels| - 1], ById(channels[..|channels| - 1]);
      if c.channelId.None? then front else front[c.channelId.value := c]
  }

  method CreateMapping(channels: seq<Channel>) returns (m: map<int, Channel>)
    ensures m == ById(channels)
  {
    m := map[];
    for i := 0 to |channels|
      invariant m == ById(channels[..i])
    {
      assert channels[..i + 1][..i] == channels[..i];
      if channels[i].channelId.None? {
        continue;
      }
      m := m[channels[i].channelId.value := channels[i]];
    }
    assert channels[..|channels|] == channels;
  }

  /** An id is in the map iff a channel has it, and it stands for the last such channel. */
  lemma {:induction false} ByIdIsLast(channels: seq<Channel>, id: int) returns (i: nat)
    ensures id !in ById(channels) ==> forall j :: 0 <= j < |channels| ==> channels[j].channelId != Some(id)
    ensures id in ById(channels) ==>
              i < |channels| && ById(channels)[id] == channels[i] && channels[i].channelId == Some(id)
              && forall j :: i < j < |channels| ==> channels[j].channelId != Some(id)
  {
    i := 0;
    if channels != [] {
      var n := |channels| - 1;
      i := ByIdIsLast(channels[..n], id);
      if channels[n].channelId == Some(id) {
        i := n;
      }
    }
  }

  // ---------------------------------------------------------------- entries

  /** The entry of one channel. */
  function EntryOf(index: int, id: int, a: Channel, b: Channel, elapsed: real): RateEntry {
    var errors := Count(b.uncorrectable) - Count(a.uncorrectable);
    var codewords := Count(b.unerrored) - Count(a.unerrored) + (Count(b.corrected) - Count(a.corrected)) + errors;
    RateEntry(index, id, codewords, errors, Ratio(errors, codewords), PerSecond(codewords, elapsed),
              PerSecond(errors, elapsed))
  }

  /** How far a counter has gone up, or down. */
  function Delta(before: Option<int>, after: Option<int>): int {
    (if after.Some? then after.value else 0) - (if before.Some? then before.value else 0)
  }

  /** `q` is the quotient, or zero where there is nothing to divide by. */
  predicate IsQuotient(q: real, n: real, d: real) { if d > 0.0 then q * d == n else q == 0.0 }

  /** What an entry says of the two snapshots of its channel. */
  predicate Measures(e: RateEntry, a: Channel, b: Channel, elapsed: real) {
    && e.errors == Delta(a.uncorrectable, b.uncorrectable)
    && e.codewords == Delta(a.unerrored, b.unerrored) + Delta(a.corrected, b.corrected)
                      + Delta(a.uncorrectable, b.uncorrectable)
    && IsQuotient(e.rate, e.errors as real, e.codewords as real)
    && IsQuotient(e.codewordsPerSecond, e.codewords as real, elapsed)
    && IsQuotient(e.errorsPerSecond, e.errors as real, elapsed)
  }

  lemma EntryMeasures(index: int, id: int, a: Channel, b: Channel, elapsed: real)
    ensures var e := EntryOf(index, id, a, b, elapsed);
            Measures(e, a, b, elapsed) && e.index == index && e.channelId == id
  {}

  /** The pairs of the index stack whose channel is in both snapshots, in order. */
  function Kept(stack: seq<(int, int)>, m1: map<int, Channel>, m2: map<int, Channel>): seq<(int, int)> {
    if stack == [] then []
    else
      var last := stack[|stack| - 1];
      Kept(stack[..|stack| - 1], m1, m2) + (if last.1 in m1 && last.1 in m2 then [last] else [])
  }

  /** Exactly the positions of the stack whose channel is in both snapshots are kept, each once and in order. */
  lemma {:induction false} KeptInBoth(stack: seq<(int, int)>, m1: map<int, Channel>, m2: map<int, Channel>)
    returns (at: seq<nat>)
    ensures |at| == |Kept(stack, m1, m2)| && (forall i, j :: 0 <= i < j < |at| ==> at[i] < at[j])
    ensures forall i :: 0 <= i < |at| ==> at[i] < |stack| && Kept(stack, m1, m2)[i] == stack[at[i]]
    ensures forall k: nat :: k in at <==> k < |stack| && stack[k].1 in m1 && stack[k].1 in m2
  {
    at := [];
    if stack != [] {
      var n := |stack| - 1;
      at := KeptInBoth(stack[..n], m1, m2);
      if stack[n].1 in m1 && stack[n].1 in m2 {
        at := at + [n];
      }
    }
  }

  /** `_build_entries`: one entry for each kept pair, in the order of the index stack. */
  method BuildEntries(entries1: seq<Channel>, entries2: seq<Channel>, stack: seq<(int, int)>, elapsed: real)
    returns (r: seq<RateEntry>)
    ensures entries1 == [] || entries2 == [] ==> r == []
    ensures var kept := Kept(stack, ById(entries1), ById(entries2));
            entries1 != [] && entries2 != [] ==>
              |r| == |kept| && forall i :: 0 <= i < |r| ==>
                kept[i].1 in ById(entries1) && kept[i].1 in ById(entries2)
                && r[i].index == kept[i].0 && r[i].channelId == kept[i].1
                && Measures(r[i], ById(entries1)[kept[i].1], ById(entries2)[kept[i].1], elapsed)
                && r[i] == EntryOf(kept[i].0, kept[i].1, ById(entries1)[kept[i].1], ById(entries2)[kept[i].1], elapsed)
    ensures (forall id :: id in ById(entries1) && id in ById(entries2)
               ==> NonDecreasing(ById(entries1)[id], ById(entries2)[id])) ==>
              forall i :: 0 <= i < |r| ==> Sound(r[i])
  {
    r := [];
    if entries1 == [] || entries2 == [] {
      return;
    }
    var m1 := CreateMapping(entries1);
    var m2 := CreateMapping(entries2);
    for i := 0 to |stack|
      invariant |r| == |Kept(stack[..i], m1, m2)|
      invariant forall j :: 0 <= j < |r| ==>
                  var p := Kept(stack[..i], m1, m2)[j];
                  p.1 in m1 && p.1 in m2 && r[j] == EntryOf(p.0, p.1, m1[p.1], m2[p.1], elapsed)
    {
      assert stack[..i + 1][..i] == stack[..i];
      var (index, id) := stack[i];
      if id !in m1 || id !in m2 {
        continue;
      }
      r := r + [EntryOf(index, id, m1[id], m2[id], elapsed)];
    }
    assert stack[..|stack|] == stack;
    forall i | 0 <= i < |r|
      ensures var p := Kept(stack, m1, m2)[i];
              r[i].index == p.0 && r[i].channelId == p.1 && Measures(r[i], m1[p.1], m2[p.1], elapsed)
    {
      var p := Kept(stack, m1, m2)[i];
      EntryMeasures(p.0, p.1, m1[p.1], m2[p.1], elapsed);
    }
  }

  // ---------------------------------------------------------------- the aggregate

  function SumErrors(r: seq<RateEntry>): int { if r == [] then 0 else SumErrors(r[..|r| - 1]) + r[|r| - 1].errors }

  function SumCodewords(r: seq<RateEntry>): int {
    if r == [] then 0 else SumCodewords(r[..|r| - 1]) + r[|r| - 1].codewords
  }

  /** Each entry counts once, wherever it stands. */
  lemma {:induction false} SumsAdd(r: seq<RateEntry>, e: RateEntry, s: seq<RateEntry>)
    ensures SumErrors([]) == 0 && SumErrors(r + [e] + s) == SumErrors(r) + e.errors + SumErrors(s)
    ensures SumCodewords([]) == 0 && SumCodewords(r + [e] + s) == SumCodewords(r) + e.codewords + SumCodewords(s)
  {
    var all := r + [e] + s;
    if s == [] {
      assert all[..|all| - 1] == r;
    } else {
      SumsAdd(r, e, s[..|s| - 1]);
      assert all[..|all| - 1] == r + [e] + s[..|s| - 1];
    }
  }

  /** `_compute_aggregate_rate` */
  method AggregateRate(r: seq<RateEntry>) returns (rate: real)
    ensures rate == Ratio(SumErrors(r), SumCodewords(r))
    ensures IsQuotient(rate, SumErrors(r) as real, SumCodewords(r) as real)
  {
    var errors, codewords := 0, 0;
    for i := 0 to |r|
      invariant errors == SumErrors(r[..i]) && codewords == SumCodewords(r[..i])
    {
      assert r[..i + 1][..i] == r[..i];
      errors, codewords := errors + r[i].errors, codewords + r[i].codewords;
    }
    assert r[..|r|] == r;
    return Ratio(errors, codewords);
  }

  // ---------------------------------------------------------------- bounds

  /** No counter of the channel went down. */
  predicate NonDecreasing(a: Channel, b: Channel) {
    Count(a.unerrored) <= Count(b.unerrored) && Count(a.corrected) <= Count(b.corrected)
    && Count(a.uncorrectable) <= Count(b.uncorrectable)
  }

  /** Errors are some of the codewords. */
  predicate Sound(e: RateEntry) { 0 <= e.errors <= e.codewords && e.rate == Ratio(e.errors, e.codewords) }

  lemma NonDecreasingSound(index: int, id: int, a: Channel, b: Channel, elapsed: real)
    requires NonDecreasing(a, b)
    ensures Sound(EntryOf(index, id, a, b, elapsed))
  {}

  /** A rate is a proportion exactly if there is no traffic or the errors are some of the codewords. */
  lemma RatioInUnit(a: int, b: int)
    ensures 0.0 <= Ratio(a, b) <= 1.0 <==> b <= 0 || 0 <= a <= b
  {
    if b > 0 {
      RatioBound(a, b, 1.0);
      RatioBound(a, b, 0.0);
      assert 1.0 * b as real == b as real;
    }
  }

  /** For positive b, a/b compares to x as a does to x*b. */
  lemma RatioBound(a: int, b: int, x: real)
    requires b > 0
    ensures Ratio(a, b) <= x <==> a as real <= x * b as real
    ensures Ratio(a, b) >= x <==> a as real >= x * b as real
  {
    var q := Ratio(a, b);
    assert q * b as real == a as real;
    Monotone(q, x, b as real);
    Monotone(x, q, b as real);
  }

  lemma Monotone(p: real, q: real, b: real)
    requires b > 0.0
    ensures p <= q <==> p * b <= q * b
  {
    assert (q - p) * b == q * b - p * b;
    if q > p {
      assert (q - p) * b > 0.0;
    } else if q < p {
      assert (p - q) * b > 0.0;
    }
  }

  lemma {:induction false} SumsSound(r: seq<RateEntry>)
    requires forall i :: 0 <= i < |r| ==> Sound(r[i])
    ensures 0 <= SumErrors(r) <= SumCodewords(r)
    ensures SumCodewords(r) > 0 <==> exists i :: 0 <= i < |r| && r[i].codewords > 0
  {
    if r != [] {
      var front := r[..|r| - 1];
      SumsSound(front);
      if i :| 0 <= i < |r| && r[i].codewords > 0 {
        assert i < |front| ==> front[i].codewords > 0;
      }
      if i :| 0 <= i < |front| && front[i].codewords > 0 {
        assert r[i].codewords > 0;
      }
    }
  }

  /** With non-decreasing counters every rate and the aggregate are proportions. */
  lemma RatesInUnit(r: seq<RateEntry>)
    requires forall i :: 0 <= i < |r| ==> Sound(r[i])
    ensures forall i :: 0 <= i < |r| ==> 0.0 <= r[i].rate <= 1.0
    ensures 0.0 <= Ratio(SumErrors(r), SumCodewords(r)) <= 1.0
  {
    forall i | 0 <= i < |r| ensures 0.0 <= r[i].rate <= 1.0 {
      RatioInUnit(r[i].errors, r[i].codewords);
    }
    SumsSound(r);
    RatioInUnit(SumErrors(r), SumCodewords(r));
  }

  lemma EntryBetween(e: RateEntry, low: real, high: real)
    requires Sound(e) && (e.codewords > 0 ==> low <= e.rate <= high)
    ensures low * e.codewords as real <= e.errors as real <= high * e.codewords as real
  {
    if e.codewords > 0 {
      RatioBound(e.errors, e.codewords, low);
      RatioBound(e.errors, e.codewords, high);
    }
  }

  /** Bounds on the rates of the channels with traffic are bounds on the sums. */
  lemma {:induction false} SumsBetween(r: seq<RateEntry>, low: real, high: real)
    requires forall i :: 0 <= i < |r| ==> Sound(r[i])
    requires forall i :: 0 <= i < |r| && r[i].codewords > 0 ==> low <= r[i].rate <= high
    ensures low * SumCodewords(r) as real <= SumErrors(r) as real <= high * SumCodewords(r) as real
  {
    hide Sound;
    if r != [] {
      var front, e := r[..|r| - 1], r[|r| - 1];
      SumsBetween(front, low, high);
      EntryBetween(e, low, high);
      Distribute(low, SumCodewords(front), e.codewords);
      Distribute(high, SumCodewords(front), e.codewords);
    }
  }

  lemma Distribute(x: real, a: int, b: int)
    ensures x * (a + b) as real == x * a as real + x * b as real
  {}

  /**
  The mediant inequality: the aggregate lies between the least and the greatest rate of the channels with traffic.
  */
  lemma AggregateBetweenRates(r: seq<RateEntry>, low: real, high: real)
    requires forall i :: 0 <= i < |r| ==> Sound(r[i])
    requires exists i :: 0 <= i < |r| && r[i].codewords > 0
    requires forall i :: 0 <= i < |r| && r[i].codewords > 0 ==> low <= r[i].rate <= high
    ensures low <= Ratio(SumErrors(r), SumCodewords(r)) <= high
  {
    hide Ratio, Sound, SumErrors, SumCodewords;
    SumsSound(r);
    SumsBetween(r, low, high);
    RatioBound(SumErrors(r), SumCodewords(r), low);
    RatioBound(SumErrors(r), SumCodewords(r), high);
  }

  /**
  Exactly when the rate of two snapshots is a proportion: there is no traffic, or neither the uncorrectables nor the
  sum of the other two counters went down.
  */
  lemma EntryInUnitIff(index: int, id: int, a: Channel, b: Channel, elapsed: real)
    ensures var e := EntryOf(index, id, a, b, elapsed);
            var good := Count(b.unerrored) - Count(a.unerrored) + (Count(b.corrected) - Count(a.corrected));
            && (0.0 <= e.rate <= 1.0 <==> e.codewords <= 0 || (e.errors >= 0 && good >= 0))
            && (e.codewords > 0 && e.errors < 0 ==> e.rate < 0.0)
            && (e.codewords > 0 && good < 0 ==> e.rate > 1.0)
            && (e.codewords <= 0 ==> e.rate == 0.0)
  {
    var e := EntryOf(index, id, a, b, elapsed);
    RatioInUnit(e.errors, e.codewords);
    if e.codewords > 0 {
      RatioBound(e.errors, e.codewords, 0.0);
      RatioBound(e.errors, e.codewords, 1.0);
      assert 1.0 * e.codewords as real == e.codewords as real;
    }
  }
}
