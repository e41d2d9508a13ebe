# Environmental monitor: sample-and-update cycle

A Dafny model of the core of `monitor_ambiental.py`. This is a MicroPython
program for a Raspberry Pi Pico. It reads an MQ-2 gas sensor through the ADC
and a DHT11 temperature/humidity sensor. It lights a red or a green LED from
the gas reading. It keeps the last 50 readings of each quantity in three
parallel lists and serves them to a browser as an auto-refreshing chart page.
Each HTTP request that the server accepts triggers one sample-and-update cycle.

The model has four modules, one per part of the cycle:

- `Sensors` (`sensors.dfy`): `leer_gas` becomes `Scale`. It maps the raw
  16-bit ADC reading to an integer percentage. `leer_dht` becomes
  `ReadClimate`. It turns a measurement outcome (`Climate = Ok(t, h) | Fault`)
  into the (temperature, humidity) pair, with both values absent on a fault.
- `Indicators` (`indicators.dfy`): `controlar_leds` becomes the class `Leds`.
  It has `red`/`green` fields and an `Update(gas)` method with the inclusive
  threshold at 70.
- `History` (`history.dfy`): `historico_gas`, `historico_temperatura` and
  `historico_humedad` become the class `Store`. It holds three sequences that
  `Append` extends and trims in place. Ghost logs record every value ever
  submitted. The invariant `Valid()` says that each list is the `Window`
  (the last 50 values) of its own log. The chart labels
  `range(len(historico_gas))` become `Store.Labels()`. The pure functions
  `Push` (one append-then-evict step) and `Replay` (k such steps from empty)
  give an independent reference for the list contents. `ReplayIsWindow`
  proves that the two agree.
- `Server` (`server.dfy`): the body of the `while True` loop in
  `servidor_web` becomes `Cycle`. It reads gas, drives the LEDs, reads the
  climate and appends, in the source's order. It returns a `Page`: the data
  the HTML embeds. `Serve` runs `Cycle` over a finite stream of requests.
  Three client methods (`ThreeRequests`, `FaultyClimate`, `Boundaries`) show
  what callers can prove from these contracts alone.

Hardware reads are inputs. The raw ADC value is a parameter of `Scale` and
`Cycle`. The DHT11 outcome is a `Climate` parameter. The LED pins are the two
bool fields of `Leds`.

Two modelling notes:

- The source computes `int((lectura/65535)*100)` in floating point. The
  model uses exact integer division `(raw * 100) / 65535`. For a non-negative
  reading, Python's `int()` truncation, the floor and Dafny's `/` all agree on
  the exact quotient. The floating-point result has the same integer part
  as the exact quotient for every 16-bit reading. When raw·100/65535 is not
  a whole number it lies at least 1/65535 (about 1.5e-5) away from one,
  more than the error of the two rounded single-precision operations
  (at most about 1.2e-5 on values up to 100). There are six readings where it is
  a whole number: 0, 13107, 26214, 39321, 52428 and 65535. At each of them
  the floating-point product is not below that whole number (at 39321 it is
  60.0000038 in single precision), so `int()` returns the whole number.
- The comment beside `leer_gas` speaks of a 0-1023 range. The expression
  yields 0..100, and the model follows the expression.

## Model

| member | source | states |
|---|---|---|
| `Sensors.Scale` | monitor_ambiental.py:32-35 | for every raw reading in 0..65535 the percentage is in 0..100; it is the truncated quotient (pct·65535 ≤ raw·100 < (pct+1)·65535); raw 0 gives 0 and raw 65535 gives 100 |
| `Sensors.ScaleMonotone` | monitor_ambiental.py:35 | a larger raw reading never gives a smaller percentage |
| `Sensors.ReadClimate` | monitor_ambiental.py:38-46 | temperature and humidity are absent together, exactly when the measurement faulted; after a successful measurement both measured values are passed on |
| `Indicators.Leds.constructor` | monitor_ambiental.py:28-29 | both LED outputs start dark |
| `Indicators.Leds.Update` | monitor_ambiental.py:49-55 | red is on iff gas ≥ 70, green is on iff gas < 70, so exactly one of the two is on after any update |
| `History.Push` | monitor_ambiental.py:84-92 | one append-then-evict step on a list of at most 50: the new value is last, the length grows by one up to 50, below 50 the old list is kept as a prefix, and at 50 the old list without its first entry is kept as a prefix |
| `History.PushShape` | monitor_ambiental.py:84-92 | below 50 entries a step is `old + [x]`; at 50 it is `old[1..] + [x]` and the length stays 50 |
| `History.Window` | monitor_ambiental.py:88-92 | the retained window of a submission has length min(k, 50) |
| `History.WindowBelowCapacity` | monitor_ambiental.py:88-92 | while at most 50 values were submitted, nothing is evicted |
| `History.WindowRange` | monitor_ambiental.py:88-92 | eviction only drops values, so a 0..100 bound on every submitted gas percentage holds for every retained one |
| `History.WindowStep` | monitor_ambiental.py:84-92 | one append-then-evict step on the window of a submission gives the window of the extended submission |
| `History.AppendStep` | monitor_ambiental.py:84-92 | what `Append` does to one list is the step `Push` and moves the window of its log forward by the new value |
| `History.Replay` | monitor_ambiental.py:84-92 | after k append-then-evict steps from empty a list has length min(k, 50) |
| `History.ReplayIsWindow` | monitor_ambiental.py:84-92 | after k steps from empty the list equals the last min(k, 50) submitted values in submission order |
| `History.Range` | monitor_ambiental.py:116 | the labels for n samples are exactly 0, 1, …, n−1 |
| `History.Store.Valid` | monitor_ambiental.py:84-92 | the invariant implies that the three lists have equal length and that this length is at most 50 |
| `History.Store.constructor` | monitor_ambiental.py:59-61 | the three lists and their logs start empty, and the invariant holds |
| `History.Store.Append` | monitor_ambiental.py:84-92 | each log gains the new value; each list becomes `old + [x]` below 50 entries and `old[1..] + [x]` at 50; the invariant (equal lengths ≤ 50, each list the last 50 of its log) is kept |
| `History.Store.Labels` | monitor_ambiental.py:116 | one label per retained sample, label i equal to i |
| `Server.Cycle` | monitor_ambiental.py:79-107 | one request: the displayed gas is the scaled reading and the displayed temperature/humidity are the climate result; the LEDs follow the threshold; each log gains the sample; the page's series are the updated lists, the labels are 0..len−1, and the last entry of each series is the value just sampled |
| `Server.Gases` | monitor_ambiental.py:79 | the percentages of a stream of raw readings, one per reading, each in 0..100 |
| `Server.Climates` | monitor_ambiental.py:81 | the recorded temperature/humidity entries of a stream of climate outcomes, both absent exactly where the sensor faulted |
| `Server.Serve` | monitor_ambiental.py:71-92 | after a stream of requests the three logs are extended by the stream's samples in order, the invariant holds, and the LEDs reflect the last gas reading, and an empty stream leaves the LEDs unchanged |
| `Server.FromEmpty` | monitor_ambiental.py:84-92 | a list that started empty and received a stream of values holds the last min(k, 50) of them in order |
| `Server.ServeFromEmpty` | monitor_ambiental.py:59-116 | a fresh history served k requests holds, in each of its three lists, exactly the last min(k, 50) entries of that list's stream in request order (gas percentages, temperatures, humidities); every gas entry is in 0..100; the labels are 0..len−1 |
| `Server.ServedHistory` | monitor_ambiental.py:84-92 | from an empty history, k requests leave the last min(k, 50) gas percentages in request order |
| `Server.SixtyRequests` | monitor_ambiental.py:88-92 | after 60 submissions the list has length 50 and equals the last 50 in order |
| `Server.SampleReadings` | monitor_ambiental.py:35 | the raw readings 6554, 52428 and 26214 scale to 10, 80 and 40 |

## Left out

- Wi-Fi association (`conectar_wifi`, monitor_ambiental.py:13-19): network I/O with a busy wait and no timeout.
- Socket set-up, accept, receive, send and close (monitor_ambiental.py:65-76, 162-166): network I/O. The request bytes are never parsed, so there is nothing to verify there.
- The `uasyncio` wrapper and entry point (monitor_ambiental.py:169-174): a runtime convention with no concurrency in it.
- The hardware drivers `machine.ADC.read_u16`, `dht.DHT11.measure` and `machine.Pin.on/off`: foreign calls. They are modelled as the raw-reading parameter, the `Climate` parameter and the `Leds` fields.
- The HTML and JavaScript text, and Python's `str()` rendering of lists and `None` (monitor_ambiental.py:95-159): presentation only. `Page` carries the values the text embeds.
- `print` logging (monitor_ambiental.py:19, 45, 69, 73, 76).
- Sensors.Scale: it computes the exact integer quotient rather than the floating-point evaluation of `(lectura/65535)*100`; the two agree on every 16-bit reading (see the modelling note above), but that agreement is argued, not proved in Dafny.
- Sensors.ReadClimate: only the two outcomes of `leer_dht` are modelled, a successful measurement and an `OSError` (monitor_ambiental.py:44). Any other exception raised by the DHT11 driver is not caught by the source and ends the serving loop after the LEDs were set (monitor_ambiental.py:80) and before the sample is appended (monitor_ambiental.py:84-86), leaving the client socket open; the model has no such outcome, and every `Cycle` completes.
- Server.Serve: it models a finite stream of requests, whereas the source loops forever.
- Indicators.Leds.constructor: the source never sets the LEDs before the first request, and both starting dark is an assumption about the pins' reset state.
