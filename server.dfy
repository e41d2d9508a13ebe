/** The per-request cycle of the web server: sample gas, drive the LEDs,
    sample the climate, record the sample, and render the page from the
    latest values and the history. Sockets and the HTML text are not
    modelled; the page is the data the HTML embeds. */
module Server {
  import opened Sensors
  import opened Indicators
  import opened History

  /** What the rendered page shows: the latest readings and the three
      index-labelled charts. */
  datatype Page = Page(
    gas: int,
    temperature: Option<int>,
    humidity: Option<int>,
    labels: seq<nat>,
    gasSeries: seq<int>,
    temperatureSeries: seq<Option<int>>,
    humiditySeries: seq<Option<int>>)

  /** One accepted request: the readings are taken in the order the server
      takes them (gas, LEDs, climate), the sample is recorded, and the page
      shows the values just sampled on top of the updated history. */
  method Cycle(store: Store, leds: Leds, raw: int, climate: Climate) returns (page: Page)
    requires 0 <= raw <= RawMax
    requires store.Valid()
    modifies store, leds
    ensures store.Valid()
    ensures page.gas == Scale(raw)
    ensures (page.temperature, page.humidity) == ReadClimate(climate)
    ensures leds.red <==> Alarm(page.gas)
    ensures leds.ExactlyOne()
    ensures store.gasLog == old(store.gasLog) + [page.gas]
    ensures store.temperatureLog == old(store.temperatureLog) + [page.temperature]
    ensures store.humidityLog == old(store.humidityLog) + [page.humidity]
    ensures page.gasSeries == store.gas
    ensures page.temperatureSeries == store.temperature
    ensures page.humiditySeries == store.humidity
    ensures page.labels == store.Labels()
    ensures |page.labels| == |page.gasSeries| == |page.temperatureSeries| == |page.humiditySeries| <= Capacity
    ensures page.gasSeries[|page.gasSeries| - 1] == page.gas
    ensures page.temperatureSeries[|page.temperatureSeries| - 1] == page.temperature
    ensures page.humiditySeries[|page.humiditySeries| - 1] == page.humidity
  {
    var gas := Scale(raw);
    leds.Update(gas);
    var (temperature, humidity) := ReadClimate(climate);
    store.Append(gas, temperature, humidity);
    page := Page(gas, temperature, humidity, store.Labels(), store.gas, store.temperature, store.humidity);
  }

  /** The gas percentages of a stream of raw readings: every entry is a
      percentage in 0..100. */
  function Gases(raws: seq<int>): (gs: seq<int>)
    requires forall i :: 0 <= i < |raws| ==> 0 <= raws[i] <= RawMax
    ensures |gs| == |raws|
    ensures forall i :: 0 <= i < |raws| ==> gs[i] == Scale(raws[i])
    ensures forall i :: 0 <= i < |gs| ==> 0 <= gs[i] <= 100
  {
    seq(|raws|, i requires 0 <= i < |raws| => Scale(raws[i]))
  }

  /** The temperature and humidity entries recorded for a stream of climate
      outcomes: both absent exactly where the sensor faulted. */
  function Climates(cs: seq<Climate>): (pairs: (seq<Option<int>>, seq<Option<int>>))
    ensures |pairs.0| == |pairs.1| == |cs|
    ensures forall i :: 0 <= i < |cs| ==> (pairs.0[i], pairs.1[i]) == ReadClimate(cs[i])
    ensures forall i :: 0 <= i < |cs| ==> (pairs.0[i].None? <==> cs[i].Fault?)
  {
    (seq(|cs|, i requires 0 <= i < |cs| => ReadClimate(cs[i]).0),
     seq(|cs|, i requires 0 <= i < |cs| => ReadClimate(cs[i]).1))
  }

  /** Extending a log that holds a prefix of xs by the next element of xs. */
  lemma LogStep<T>(log0: seq<T>, xs: seq<T>, i: nat)
    requires i < |xs|
    ensures log0 + xs[..i] + [xs[i]] == log0 + xs[..i + 1]
  {
    assert xs[..i + 1] == xs[..i] + [xs[i]];
  }

  /** The server's accept loop over a finite stream of requests, one raw gas
      reading and one climate outcome per request. */
  method Serve(store: Store, leds: Leds, raws: seq<int>, climates: seq<Climate>)
    requires |raws| == |climates|
    requires forall i :: 0 <= i < |raws| ==> 0 <= raws[i] <= RawMax
    requires store.Valid()
    modifies store, leds
    ensures store.Valid()
    ensures store.gasLog == old(store.gasLog) + Gases(raws)
    ensures store.temperatureLog == old(store.temperatureLog) + Climates(climates).0
    ensures store.humidityLog == old(store.humidityLog) + Climates(climates).1
    ensures raws != [] ==> leds.ExactlyOne() && (leds.red <==> Alarm(Gases(raws)[|raws| - 1]))
    ensures raws == [] ==> leds.red == old(leds.red) && leds.green == old(leds.green)
  {
    ghost var gases, log0 := Gases(raws), store.gasLog;
    ghost var (temperatures, humidities) := Climates(climates);
    ghost var tlog0, hlog0 := store.temperatureLog, store.humidityLog;
    var i := 0;
    while i < |raws|
      invariant 0 <= i <= |raws|
      invariant store.Valid()
      invariant store.gasLog == log0 + gases[..i]
      invariant store.temperatureLog == tlog0 + temperatures[..i]
      invariant store.humidityLog == hlog0 + humidities[..i]
      invariant i > 0 ==> leds.ExactlyOne() && (leds.red <==> Alarm(gases[i - 1]))
      invariant i == 0 ==> leds.red == old(leds.red) && leds.green == old(leds.green)
    {
      LogStep(log0, gases, i);
      LogStep(tlog0, temperatures, i);
      LogStep(hlog0, humidities, i);
      var page := Cycle(store, leds, raws[i], climates[i]);
      assert page.gas == gases[i];
      assert page.temperature == temperatures[i] && page.humidity == humidities[i];
      i := i + 1;
    }
    assert gases[..i] == gases;
    assert temperatures[..i] == temperatures;
    assert humidities[..i] == humidities;
  }

  /** Starting from an empty history, after any stream of k requests the gas
      history, whether obtained by k single appends or as the Store's window
      of its log, holds the last Min(k, Capacity) percentages in request
      order. */
  lemma {:induction false} ServedHistory(raws: seq<int>)
    requires forall i :: 0 <= i < |raws| ==> 0 <= raws[i] <= RawMax
    ensures Replay(Gases(raws)) == Window(Gases(raws))
    ensures |Window(Gases(raws))| == Min(|raws|, Capacity)
    ensures Window(Gases(raws)) == Gases(raws)[|raws| - Min(|raws|, Capacity)..]
  {
    ReplayIsWindow(Gases(raws));
  }

  /** A list kept by the Store that started empty and received the stream xs
      holds the last Min(|xs|, Capacity) entries of xs, in order. */
  lemma FromEmpty<T>(xs: seq<T>, log: seq<T>, s: seq<T>)
    requires log == [] + xs
    requires s == Window(log)
    ensures s == xs[|xs| - Min(|xs|, Capacity)..]
  {
    assert log == xs;
    ReplayIsWindow(xs);
  }

  /** A fresh history served a stream of k requests: each of the three lists
      holds the last Min(k, Capacity) entries of its stream in request order,
      every gas entry is in 0..100, and the labels are 0 .. length - 1. */
  method ServeFromEmpty(raws: seq<int>, climates: seq<Climate>) returns (store: Store, leds: Leds)
    requires |raws| == |climates|
    requires forall i :: 0 <= i < |raws| ==> 0 <= raws[i] <= RawMax
    ensures fresh(store) && fresh(leds)
    ensures store.Valid()
    ensures store.gas == Gases(raws)[|raws| - Min(|raws|, Capacity)..]
    ensures store.temperature == Climates(climates).0[|raws| - Min(|raws|, Capacity)..]
    ensures store.humidity == Climates(climates).1[|raws| - Min(|raws|, Capacity)..]
    ensures forall i :: 0 <= i < |store.gas| ==> 0 <= store.gas[i] <= 100
    ensures store.Labels() == Range(Min(|raws|, Capacity))
  {
    store := new Store();
    leds := new Leds();
    Serve(store, leds, raws, climates);
    FromEmpty(Gases(raws), store.gasLog, store.gas);
    FromEmpty(Climates(climates).0, store.temperatureLog, store.temperature);
    FromEmpty(Climates(climates).1, store.humidityLog, store.humidity);
    WindowRange(Gases(raws));
  }

  /** Sixty requests leave exactly the last fifty samples, in order. */
  lemma SixtyRequests<T>(xs: seq<T>)
    requires |xs| == 60
    ensures |Replay(xs)| == 50
    ensures Replay(xs) == xs[10..]
  {
    ReplayIsWindow(xs);
  }

  /** The raw readings used below scale to 10 %, 80 % and 40 %. */
  lemma SampleReadings()
    ensures Gases([6554, 52428, 26214]) == [10, 80, 40]
  {
    assert Scale(6554) == 10 && Scale(52428) == 80 && Scale(26214) == 40;
  }

  /** Three requests reading 10 %, 80 % and 40 % with a working climate
      sensor: the history is [10, 80, 40], the labels [0, 1, 2], and the
      last reading leaves the alarm off. */
  method ThreeRequests()
  {
    var store := new Store();
    var leds := new Leds();
    var raws := [6554, 52428, 26214];
    Serve(store, leds, raws, [Ok(21, 40), Ok(22, 41), Ok(22, 42)]);
    SampleReadings();
    assert store.gasLog == [10, 80, 40];
    WindowBelowCapacity(store.gasLog);
    assert store.gas == [10, 80, 40];
    var labels := store.Labels();
    assert |labels| == 3 && labels[0] == 0 && labels[1] == 1 && labels[2] == 2;
    assert !leds.red && leds.green;
  }

  /** A climate fault leaves both values absent but still records the gas
      sample and drives the LEDs. */
  method FaultyClimate()
  {
    var store := new Store();
    var leds := new Leds();
    var page := Cycle(store, leds, RawMax, Fault);
    assert page.gas == 100 && leds.red;
    assert page.temperature == None && page.humidity == None;
    assert page.gasSeries == [100] && page.humiditySeries == [None];
  }

  /** The threshold is inclusive, and scaling truncates: 99.6 % reads as 99. */
  method Boundaries()
  {
    var leds := new Leds();
    leds.Update(69);
    assert leds.green && !leds.red;
    leds.Update(70);
    assert leds.red && !leds.green;
    assert Scale(65273) == 99;
  }
}
