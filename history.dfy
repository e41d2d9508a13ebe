/** The rolling history of the last Capacity samples, kept as three parallel
    lists (gas, temperature, humidity) that grow by one entry per request and
    drop their oldest entry together once they exceed Capacity. */
module History {
  import opened Sensors

  /** Number of samples the history keeps. */
  const Capacity: nat := 50

  function Min(a: nat, b: nat): nat
  {
    if a < b then a else b
  }

  /** One append followed by the eviction of the oldest entry when the list
      has grown past Capacity: the step each of the three lists takes per
      request. */
  function Push<T>(s: seq<T>, x: T): (r: seq<T>)
    ensures |s| <= Capacity ==> |r| == Min(|s| + 1, Capacity)
    ensures r != [] && r[|r| - 1] == x
    ensures |s| < Capacity ==> r[..|s|] == s
    ensures |s| == Capacity ==> r[..|s| - 1] == s[1..]
  {
    var t := s + [x];
    if |t| > Capacity then t[1..] else t
  }

  /** Below capacity a push only appends; at capacity it also drops the
      oldest entry, keeping the length at Capacity. */
  lemma PushShape<T>(s: seq<T>, x: T)
    requires |s| <= Capacity
    ensures |s| < Capacity ==> Push(s, x) == s + [x]
    ensures |s| == Capacity ==> Push(s, x) == s[1..] + [x] && |Push(s, x)| == Capacity
  {
  }

  /** The last Min(|xs|, Capacity) values of xs, in their original order. */
  function Window<T>(xs: seq<T>): (r: seq<T>)
    ensures |r| == Min(|xs|, Capacity)
  {
    if |xs| <= Capacity then xs else xs[|xs| - Capacity..]
  }

  /** Until Capacity values have been submitted, nothing is evicted. */
  lemma WindowBelowCapacity<T>(xs: seq<T>)
    requires |xs| <= Capacity
    ensures Window(xs) == xs
  {
  }

  /** A window keeps only submitted values, so a bound on every gas
      percentage submitted holds for every retained one. */
  lemma WindowRange(gs: seq<int>)
    requires forall i :: 0 <= i < |gs| ==> 0 <= gs[i] <= 100
    ensures forall i :: 0 <= i < |Window(gs)| ==> 0 <= Window(gs)[i] <= 100
  {
  }

  /** Pushing a value onto the window of a submission gives the window of
      the submission extended by that value. */
  lemma WindowStep<T>(xs: seq<T>, x: T)
    ensures Window(xs + [x]) == Push(Window(xs), x)
  {
  }

  /** What Append does to one list, in terms of the list's submissions. */
  lemma AppendStep<T>(log: seq<T>, s: seq<T>, x: T, s': seq<T>)
    requires s == Window(log)
    requires s' == if |s| + 1 > Capacity then (s + [x])[1..] else s + [x]
    ensures s' == Window(log + [x]) == Push(s, x)
    ensures |s| < Capacity ==> s' == s + [x]
    ensures |s| == Capacity ==> s' == s[1..] + [x]
  {
    WindowStep(log, x);
    PushShape(s, x);
  }

  /** The list obtained by pushing the values of xs, in order, onto an
      initially empty list: the request loop run from an empty history. */
  function Replay<T>(xs: seq<T>): (r: seq<T>)
    ensures |r| == Min(|xs|, Capacity)
  {
    if xs == [] then [] else Push(Replay(xs[..|xs| - 1]), xs[|xs| - 1])
  }

  /** After any sequence of submissions, one push each starting from empty,
      the list holds exactly the last Min(|xs|, Capacity) of them, in
      submission order. */
  lemma {:induction false} ReplayIsWindow<T>(xs: seq<T>)
    ensures Replay(xs) == Window(xs)
    ensures Replay(xs) == xs[|xs| - Min(|xs|, Capacity)..]
  {
    if xs != [] {
      var init, last := xs[..|xs| - 1], xs[|xs| - 1];
      assert xs == init + [last];
      ReplayIsWindow(init);
      WindowStep(init, last);
    }
  }

  /** The chart's x-axis labels for a history of n samples: 0, 1, ..., n - 1. */
  function Range(n: nat): (r: seq<nat>)
    ensures |r| == n
    ensures forall i :: 0 <= i < n ==> r[i] == i
  {
    if n == 0 then [] else Range(n - 1) + [n - 1]
  }

  class Store {
    var gas: seq<int>
    var temperature: seq<Option<int>>
    var humidity: seq<Option<int>>

    // Every value ever submitted to each list, oldest first.
    ghost var gasLog: seq<int>
    ghost var temperatureLog: seq<Option<int>>
    ghost var humidityLog: seq<Option<int>>

    /** Each list is the window of its own submissions, and the three lists
        received the same number of submissions. */
    ghost predicate Valid()
      reads this
      ensures Valid() ==> |gas| == |temperature| == |humidity| <= Capacity
    {
      && |gasLog| == |temperatureLog| == |humidityLog|
      && gas == Window(gasLog)
      && temperature == Window(temperatureLog)
      && humidity == Window(humidityLog)
    }

    constructor ()
      ensures Valid()
      ensures gas == [] && temperature == [] && humidity == []
      ensures gasLog == [] && temperatureLog == [] && humidityLog == []
    {
      gas, temperature, humidity := [], [], [];
      gasLog, temperatureLog, humidityLog := [], [], [];
    }

    /** Appends one sample to each list, then drops the oldest entry of all
        three when the gas list has grown past Capacity. */
    method Append(g: int, t: Option<int>, h: Option<int>)
      requires Valid()
      modifies this
      ensures Valid()
      ensures gasLog == old(gasLog) + [g]
      ensures temperatureLog == old(temperatureLog) + [t]
      ensures humidityLog == old(humidityLog) + [h]
      ensures gas == Push(old(gas), g)
      ensures temperature == Push(old(temperature), t)
      ensures humidity == Push(old(humidity), h)
      ensures |old(gas)| < Capacity ==>
        gas == old(gas) + [g] && temperature == old(temperature) + [t] && humidity == old(humidity) + [h]
      ensures |old(gas)| == Capacity ==>
        && gas == old(gas)[1..] + [g]
        && temperature == old(temperature)[1..] + [t]
        && humidity == old(humidity)[1..] + [h]
    {
      var gas', temperature', humidity' := gas + [g], temperature + [t], humidity + [h];
      if |gas'| > Capacity {
        gas', temperature', humidity' := gas'[1..], temperature'[1..], humidity'[1..];
      }
      AppendStep(gasLog, gas, g, gas');
      AppendStep(temperatureLog, temperature, t, temperature');
      AppendStep(humidityLog, humidity, h, humidity');
      assert |gasLog + [g]| == |temperatureLog + [t]| == |humidityLog + [h]|;
      gas, temperature, humidity := gas', temperature', humidity';
      gasLog, temperatureLog, humidityLog := gasLog + [g], temperatureLog + [t], humidityLog + [h];
    }

    /** The labels of the three charts: one index per retained sample. */
    function Labels(): (r: seq<nat>)
      reads this
      ensures |r| == |gas|
      ensures forall i :: 0 <= i < |r| ==> r[i] == i
    {
      Range(|gas|)
    }
  }
}
