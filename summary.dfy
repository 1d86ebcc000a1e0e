/** The two summary records the statistics fill: BoxStats, a box summary
    of a sample sequence, and Histogram, a fixed-bin accumulator. Their
    implementation header is not part of this model: BoxStats gives meaning
    to count, min, max and mean, and takes its median and quartiles from a
    caller-supplied rule; Histogram records its range, its bin count and
    the samples added to it, without binning them. */
module Summary {

  datatype BoxStats = BoxStats(
    count: nat,
    min: real,
    max: real,
    mean: real,
    median: real,
    firstQuartile: real,
    thirdQuartile: real)

  /** A default-constructed BoxStats: every field zero. Callers must not
      read it as a statistic. */
  const EmptyStats: BoxStats := BoxStats(0, 0.0, 0.0, 0.0, 0.0, 0.0, 0.0)

  datatype Quartiles = Quartiles(firstQuartile: real, median: real, thirdQuartile: real)

  /** How BoxStats ranks its samples for median and quartiles. */
  type QuartileRule = seq<real> -> Quartiles

  function Minimum(s: seq<real>): (m: real)
    requires |s| > 0
    ensures m in s && forall x :: x in s ==> m <= x
  {
    if |s| == 1 then s[0]
    else
      var init, last := s[..|s| - 1], s[|s| - 1];
      var m := Minimum(init);
      assert forall x :: x in s ==> x in init || x == last;
      if last < m then last else m
  }

  function Maximum(s: seq<real>): (m: real)
    requires |s| > 0
    ensures m in s && forall x :: x in s ==> x <= m
  {
    if |s| == 1 then s[0]
    else
      var init, last := s[..|s| - 1], s[|s| - 1];
      var m := Maximum(init);
      assert forall x :: x in s ==> x in init || x == last;
      if m < last then last else m
  }

  function Total(s: seq<real>): real
  {
    if s == [] then 0.0 else Total(s[..|s| - 1]) + s[|s| - 1]
  }

  /** BoxStats built from a non-empty sample sequence. */
  function Summarize(samples: seq<real>, rule: QuartileRule): (b: BoxStats)
    requires |samples| > 0
    ensures b.count == |samples|
    ensures b.min in samples && b.max in samples
    ensures forall x :: x in samples ==> b.min <= x <= b.max
  {
    var q := rule(samples);
    BoxStats(|samples|, Minimum(samples), Maximum(samples),
             Total(samples) / (|samples| as real),
             q.median, q.firstQuartile, q.thirdQuartile)
  }

  /** The statistics a routine leaves in its output: the default record
      when no sample survived, the summary of the samples otherwise. */
  function StatsOf(samples: seq<real>, rule: QuartileRule): (b: BoxStats)
    ensures b.count == |samples|
    ensures b == EmptyStats <==> samples == []
    ensures samples != [] ==> b.min in samples && b.max in samples
    ensures forall x :: x in samples ==> b.min <= x <= b.max
  {
    if samples == [] then EmptyStats else Summarize(samples, rule)
  }

  /** An optional output: None where the caller passes a null `out_histogram`. */
  datatype Option<T> = None | Some(value: T)

  datatype Histogram = Histogram(low: real, high: real, nbBins: int, added: seq<real>)

  /** A default-constructed Histogram: no bins, nothing added. */
  const EmptyHistogram: Histogram := Histogram(0.0, 0.0, 0, [])

  function Add(h: Histogram, samples: seq<real>): Histogram
  {
    h.(added := h.added + samples)
  }

  /** The smallest integer not below x (std::ceil on an exact value). */
  function Ceil(x: real): (c: int)
    ensures x <= c as real < x + 1.0
  {
    -((-x).Floor)
  }
}
