/**
 * The bounds-alerting core of climatecore.py: a table of per-sensor bounds,
 * upserted from configuration messages, and the batch loop that checks each
 * fetched reading against that table, builds one alert per out-of-bounds
 * reading and acknowledges the messages it handled.
 *
 * The broker is not modelled: a fetched batch is an input sequence, the alerts
 * handed to `nc.publish` and the acknowledged message indices are outputs. JSON
 * decoding and pydantic validation are abstracted into what they decide about
 * a message.
 */
module ClimateCore {
  import opened Wrappers
  import opened Records

  // ---------------------------------------------------------------------------
  // Sensor messages and the batch loop
  // ---------------------------------------------------------------------------

  /** What the batch loop finds a fetched sensor message to be. */
  datatype SensorMessage =
    | NotJson                  // json.loads raises, before the try block
    | NotKeywords              // JSON, but `SensorData(timestamp=…, **data)` raises TypeError
    | Invalid                  // JSON that pydantic rejects (ValidationError)
    | Reading(data: SensorData)

  /** A message whose exception escapes the batch loop (only ValidationError is caught). */
  predicate Fatal(m: SensorMessage) {
    m.NotJson? || m.NotKeywords?
  }

  /** The result of one `sub.fetch`: a timeout, or a batch of messages. */
  datatype Fetch = TimedOut | Fetched(msgs: seq<SensorMessage>)

  /** An alert handed to the publisher, with the subject it is sent to. */
  datatype Publication = Publication(subject: string, alert: Alert)

  /**
   * What one fetched batch amounts to: the alerts actually published (the
   * gathered tasks), the indices of the acknowledged messages, and whether an
   * exception escaped the loop, which ends the engine.
   */
  datatype BatchOutcome = BatchOutcome(published: seq<Publication>, acked: seq<nat>, crashed: bool)

  /** The state of the loop over a batch: the alert tasks built so far, the acks, and whether it raised. */
  datatype Progress = Progress(built: seq<Publication>, acked: seq<nat>, crashed: bool)

  /** The bounds test: strictly below the minimum or strictly above the maximum. */
  predicate OutOfBounds(b: Bounds, v: real) {
    v < b.min || v > b.max
  }

  /** The subject an alert for sensor `name` goes to. */
  function AlertSubject(prefix: string, name: string): string {
    prefix + "." + name
  }

  /** Whether a message is a reading of a configured sensor that lies outside its bounds. */
  predicate Alerting(table: map<string, Bounds>, m: SensorMessage) {
    m.Reading? && m.data.name in table && OutOfBounds(table[m.data.name], m.data.value)
  }

  /** The alert one message yields on its own. */
  function AlertFor(table: map<string, Bounds>, prefix: string, m: SensorMessage): (p: Option<Publication>)
    ensures p.Some? <==> (m.Reading? && m.data.name in table &&
                          (m.data.value < table[m.data.name].min || m.data.value > table[m.data.name].max))
    ensures p.Some? ==> p.value.subject == prefix + "." + m.data.name
    ensures p.Some? ==> p.value.alert.message == OutOfBoundsMessage
    ensures p.Some? ==> p.value.alert.sensorData == m.data && p.value.alert.sensorBounds == table[m.data.name]
  {
    match m
    case Reading(d) =>
      if d.name in table && OutOfBounds(table[d.name], d.value)
      then Some(Publication(AlertSubject(prefix, d.name), NewAlert(d, table[d.name])))
      else None
    case _ => None
  }

  function AsSeq(o: Option<Publication>): seq<Publication> {
    if o.Some? then [o.value] else []
  }

  /** One iteration of the loop, for message `m` at index `i` of the batch. */
  function Step(table: map<string, Bounds>, prefix: string, p: Progress, i: nat, m: SensorMessage): (r: Progress)
    ensures r.built == p.built + AsSeq(AlertFor(table, prefix, m))
    ensures r.acked == p.acked + (if m.NotJson? then [] else [i])
    ensures r.crashed == (p.crashed || Fatal(m))
  {
    match m
    case NotJson => p.(crashed := true)
    case NotKeywords => Progress(p.built, p.acked + [i], true)
    case Invalid => p.(acked := p.acked + [i])
    case Reading(_) => Progress(p.built + AsSeq(AlertFor(table, prefix, m)), p.acked + [i], p.crashed)
  }

  /** The loop run over `msgs` in order, stopping at the first message that raises. */
  function Run(table: map<string, Bounds>, prefix: string, msgs: seq<SensorMessage>): (r: Progress)
    ensures |r.built| <= |r.acked| <= |msgs|
    ensures !r.crashed ==> |r.acked| == |msgs|
    decreases |msgs|
  {
    if msgs == [] then Progress([], [], false)
    else
      var p := Run(table, prefix, msgs[..|msgs| - 1]);
      if p.crashed then p else Step(table, prefix, p, |msgs| - 1, msgs[|msgs| - 1])
  }

  /** A whole poll cycle: nothing on a timeout; otherwise the gathered alerts, unless the loop raised. */
  function Evaluate(table: map<string, Bounds>, prefix: string, fetch: Fetch): BatchOutcome {
    match fetch
    case TimedOut => BatchOutcome([], [], false)
    case Fetched(msgs) =>
      var p := Run(table, prefix, msgs);
      BatchOutcome(if p.crashed then [] else p.built, p.acked, p.crashed)
  }

  /** No message before index `j` raised, so the loop reached message `j`. */
  ghost predicate Reached(msgs: seq<SensorMessage>, j: int) {
    forall k :: 0 <= k < j && k < |msgs| ==> !Fatal(msgs[k])
  }

  /** The indices of the messages that alert, in order. */
  function AlertingIndices(table: map<string, Bounds>, msgs: seq<SensorMessage>): (ix: seq<nat>)
    ensures forall k :: 0 <= k < |ix| ==> ix[k] < |msgs| && Alerting(table, msgs[ix[k]])
    decreases |msgs|
  {
    if msgs == [] then []
    else AlertingIndices(table, msgs[..|msgs| - 1])
         + (if Alerting(table, msgs[|msgs| - 1]) then [|msgs| - 1] else [])
  }

  function Shift(s: seq<nat>, d: nat): seq<nat> {
    seq(|s|, k requires 0 <= k < |s| => s[k] + d)
  }

  // ---------------------------------------------------------------------------
  // Configuration messages
  // ---------------------------------------------------------------------------

  /** What `SensorBounds(sensor=k, **bounds)` does with one entry of a config message. */
  datatype BoundsEntry =
    | Accepted(min: real, max: real)  // validates
    | Rejected                        // pydantic.ValidationError
    | Unpackable                      // `**bounds` raises TypeError: not an object, or it has a "sensor" key

  /** A config message: unreadable (not JSON, or JSON without `.items()`), or its entries in document order. */
  datatype ConfigMessage = Unreadable | ConfigObject(entries: seq<(string, BoundsEntry)>)

  /** How the upsert loop over the entries ended. */
  datatype Halt = Running | Aborted | Raised

  datatype Upsert = Upsert(table: map<string, Bounds>, halt: Halt)

  /** The listener's response to a message: acked, or the exception escaped and the listener task ended. */
  datatype ConfigOutcome = Acked | Crashed | Undelivered

  datatype ConfigResult = ConfigResult(table: map<string, Bounds>, outcome: ConfigOutcome)

  /** Every entry of the table holds the bounds of the sensor it is keyed by. */
  ghost predicate Keyed(table: map<string, Bounds>) {
    forall k :: k in table ==> table[k].sensor == k
  }

  /** The upsert loop over `entries` in order, stopping at the first entry that fails. */
  function UpsertEntries(table: map<string, Bounds>, entries: seq<(string, BoundsEntry)>): (u: Upsert)
    ensures table.Keys <= u.table.Keys
    ensures u.halt == Running ==> (forall i :: 0 <= i < |entries| ==> entries[i].1.Accepted?)
    decreases |entries|
  {
    if entries == [] then Upsert(table, Running)
    else
      var u := UpsertEntries(table, entries[..|entries| - 1]);
      var (k, e) := entries[|entries| - 1];
      if u.halt != Running then u
      else match e
        case Accepted(lo, hi) => Upsert(u.table[k := Bounds(k, lo, hi)], Running)
        case Rejected => u.(halt := Aborted)
        case Unpackable => u.(halt := Raised)
  }

  /** One config message applied to the table by a live listener. */
  function ConfigStep(table: map<string, Bounds>, msg: ConfigMessage): ConfigResult {
    match msg
    case Unreadable => ConfigResult(table, Crashed)
    case ConfigObject(entries) =>
      var u := UpsertEntries(table, entries);
      ConfigResult(u.table, if u.halt == Raised then Crashed else Acked)
  }

  // ---------------------------------------------------------------------------
  // The engine state: the bounds table shared by the listener and the loop
  // ---------------------------------------------------------------------------

  class ClimateCore {
    const alertsPrefix: string
    /** `config.sensor_bounds` */
    var sensorBounds: map<string, Bounds>
    /** Whether the config listener task is still running. */
    var listening: bool

    ghost predicate Valid()
      reads this
    {
      Keyed(sensorBounds)
    }

    constructor (alertsPrefix: string)
      ensures Valid()
      ensures this.alertsPrefix == alertsPrefix && sensorBounds == map[] && listening
    {
      this.alertsPrefix := alertsPrefix;
      sensorBounds := map[];
      listening := true;
    }

    /** The config listener's handling of one received message. */
    method ApplyConfig(msg: ConfigMessage) returns (outcome: ConfigOutcome)
      requires Valid()
      modifies this
      ensures Valid()
      ensures old(listening) ==> sensorBounds == ConfigStep(old(sensorBounds), msg).table
      ensures old(listening) ==> outcome == ConfigStep(old(sensorBounds), msg).outcome
      ensures old(listening) ==> listening == (outcome == Acked)
      ensures !old(listening) ==> outcome == Undelivered && sensorBounds == old(sensorBounds) && !listening
      ensures old(sensorBounds).Keys <= sensorBounds.Keys
    {
      if !listening {
        return Undelivered;
      }
      match msg
      case Unreadable =>
        listening := false;
        outcome := Crashed;
      case ConfigObject(entries) =>
        var i := 0;
        var halt := Running;
        while i < |entries| && halt == Running
          invariant 0 <= i <= |entries|
          decreases |entries| - i
          invariant Upsert(sensorBounds, halt) == UpsertEntries(old(sensorBounds), entries[..i])
          invariant Keyed(sensorBounds)
          invariant listening
          invariant old(sensorBounds).Keys <= sensorBounds.Keys
        {
          assert entries[..i + 1][..i] == entries[..i];
          var (sensor, entry) := entries[i];
          match entry {
            case Accepted(lo, hi) =>
              sensorBounds := sensorBounds[sensor := Bounds(sensor, lo, hi)];
            case Rejected =>
              halt := Aborted;
            case Unpackable =>
              halt := Raised;
          }
          i := i + 1;
        }
        if halt == Running {
          assert entries[..i] == entries;
        } else {
          UpsertHaltStops(old(sensorBounds), entries, i);
        }
        if halt == Raised {
          listening := false;
          outcome := Crashed;
        } else {
          outcome := Acked;
        }
        assert ConfigStep(old(sensorBounds), msg) == ConfigResult(sensorBounds, outcome);
    }

    /** One poll cycle of the main loop over the fetched batch. */
    method ProcessBatch(fetch: Fetch) returns (outcome: BatchOutcome)
      requires Valid()
      ensures outcome == Evaluate(sensorBounds, alertsPrefix, fetch)
      ensures forall k :: 0 <= k < |outcome.published| ==>
                && outcome.published[k].alert.sensorBounds.sensor == outcome.published[k].alert.sensorData.name
                && outcome.published[k].subject == alertsPrefix + "." + outcome.published[k].alert.sensorData.name
    {
      match fetch
      case TimedOut =>
        outcome := BatchOutcome([], [], false);
      case Fetched(msgs) =>
        var alertTasks: seq<Publication> := [];
        var acks: seq<nat> := [];
        var crashed := false;
        var i := 0;
        while i < |msgs| && !crashed
          invariant 0 <= i <= |msgs|
          decreases |msgs| - i
          invariant Progress(alertTasks, acks, crashed) == Run(sensorBounds, alertsPrefix, msgs[..i])
        {
          assert msgs[..i + 1][..i] == msgs[..i];
          match msgs[i] {
            case NotJson =>
              crashed := true;
            case NotKeywords =>
              acks := acks + [i];
              crashed := true;
            case Invalid =>
              acks := acks + [i];
            case Reading(data) =>
              if data.name in sensorBounds {
                var bounds := sensorBounds[data.name];
                if data.value < bounds.min || data.value > bounds.max {
                  var alert := NewAlert(data, bounds);
                  alertTasks := alertTasks + [Publication(alertsPrefix + "." + data.name, alert)];
                }
              }
              acks := acks + [i];
          }
          i := i + 1;
        }
        if crashed {
          RunCrashStops(sensorBounds, alertsPrefix, msgs, i);
        } else {
          assert msgs[..i] == msgs;
        }
        outcome := BatchOutcome(if crashed then [] else alertTasks, acks, crashed);
        BuiltAlertsKeyed(sensorBounds, alertsPrefix, msgs);
    }
  }

  // ---------------------------------------------------------------------------
  // Properties of the batch loop
  // ---------------------------------------------------------------------------

  /**
   * Over a table keyed by sensor name, every alert built carries the bounds of
   * the sensor that produced the reading, and goes to that sensor's subject.
   */
  lemma {:induction false} BuiltAlertsKeyed(table: map<string, Bounds>, prefix: string, msgs: seq<SensorMessage>)
    requires Keyed(table)
    ensures forall k :: 0 <= k < |Run(table, prefix, msgs).built| ==>
              && Run(table, prefix, msgs).built[k].alert.sensorBounds.sensor == Run(table, prefix, msgs).built[k].alert.sensorData.name
              && Run(table, prefix, msgs).built[k].subject == prefix + "." + Run(table, prefix, msgs).built[k].alert.sensorData.name
    decreases |msgs|
  {
    if msgs != [] {
      BuiltAlertsKeyed(table, prefix, msgs[..|msgs| - 1]);
    }
  }

  /** Once the loop has raised, the later messages change nothing. */
  lemma {:induction false} RunCrashStops(table: map<string, Bounds>, prefix: string, msgs: seq<SensorMessage>, i: nat)
    requires i <= |msgs|
    requires Run(table, prefix, msgs[..i]).crashed
    ensures Run(table, prefix, msgs) == Run(table, prefix, msgs[..i])
    decreases |msgs| - i
  {
    if i < |msgs| {
      assert msgs[..i + 1][..i] == msgs[..i];
      RunCrashStops(table, prefix, msgs, i + 1);
    } else {
      assert msgs[..i] == msgs;
    }
  }

  /** The acked indices are message indices, each at most once, in increasing order. */
  lemma {:induction false} AckedIncreasing(table: map<string, Bounds>, prefix: string, msgs: seq<SensorMessage>)
    ensures forall k :: 0 <= k < |Run(table, prefix, msgs).acked| ==> Run(table, prefix, msgs).acked[k] < |msgs|
    ensures forall k, l :: 0 <= k < l < |Run(table, prefix, msgs).acked| ==>
              Run(table, prefix, msgs).acked[k] < Run(table, prefix, msgs).acked[l]
    decreases |msgs|
  {
    if msgs != [] {
      var n := |msgs| - 1;
      AckedIncreasing(table, prefix, msgs[..n]);
      var q := Run(table, prefix, msgs[..n]);
      var p := Run(table, prefix, msgs);
      if p.acked != q.acked {
        assert p.acked == q.acked + [n];
      }
    }
  }

  /** The loop raises exactly when some message of the batch raises. */
  lemma {:induction false} CrashedIffFatal(table: map<string, Bounds>, prefix: string, msgs: seq<SensorMessage>)
    ensures Run(table, prefix, msgs).crashed <==> exists j :: 0 <= j < |msgs| && Fatal(msgs[j])
    decreases |msgs|
  {
    if msgs != [] {
      var n := |msgs| - 1;
      CrashedIffFatal(table, prefix, msgs[..n]);
      if exists j :: 0 <= j < n && Fatal(msgs[..n][j]) {
        var w :| 0 <= w < n && Fatal(msgs[..n][w]);
        assert Fatal(msgs[w]);
      }
      if exists j :: 0 <= j < |msgs| && Fatal(msgs[j]) {
        var w :| 0 <= w < |msgs| && Fatal(msgs[w]);
        if w < n {
          assert Fatal(msgs[..n][w]);
        }
      }
    }
  }

  /**
   * Acknowledgements: a message is acked exactly when the loop reaches it (no
   * earlier message raised) and it is JSON; a non-JSON payload raises outside
   * the try, before the `finally` that acks.
   */
  lemma {:induction false} AckedExactly(table: map<string, Bounds>, prefix: string, msgs: seq<SensorMessage>)
    ensures var p := Run(table, prefix, msgs);
      forall j :: 0 <= j < |msgs| ==> (j in p.acked <==> Reached(msgs, j) && !msgs[j].NotJson?)
    decreases |msgs|
  {
    if msgs != [] {
      var n := |msgs| - 1;
      var init := msgs[..n];
      AckedExactly(table, prefix, init);
      AckedIncreasing(table, prefix, init);
      CrashedIffFatal(table, prefix, init);
      var q := Run(table, prefix, init);
      assert forall j :: 0 <= j < n ==> init[j] == msgs[j];
      assert forall j :: 0 <= j < n ==> (Reached(init, j) <==> Reached(msgs, j));
      assert n !in q.acked;
      if q.crashed {
        var w :| 0 <= w < n && Fatal(init[w]);
        assert !Reached(msgs, n);
      } else {
        assert Reached(msgs, n);
      }
    }
  }

  /** A batch in which nothing raises acks every message, one after another. */
  lemma {:induction false} CleanBatchAcksAll(table: map<string, Bounds>, prefix: string, msgs: seq<SensorMessage>)
    requires forall j :: 0 <= j < |msgs| ==> !Fatal(msgs[j])
    ensures !Run(table, prefix, msgs).crashed
    ensures |Run(table, prefix, msgs).acked| == |msgs|
    ensures forall k :: 0 <= k < |msgs| ==> Run(table, prefix, msgs).acked[k] == k
    decreases |msgs|
  {
    if msgs != [] {
      var n := |msgs| - 1;
      assert forall j :: 0 <= j < n ==> msgs[..n][j] == msgs[j];
      CleanBatchAcksAll(table, prefix, msgs[..n]);
    }
  }

  /** `AlertingIndices` lists every alerting message, in increasing order. */
  lemma {:induction false} AlertingIndicesExact(table: map<string, Bounds>, msgs: seq<SensorMessage>)
    ensures var ix := AlertingIndices(table, msgs);
      && (forall k, l :: 0 <= k < l < |ix| ==> ix[k] < ix[l])
      && (forall j :: 0 <= j < |msgs| && Alerting(table, msgs[j]) ==> j in ix)
    decreases |msgs|
  {
    if msgs != [] {
      var n := |msgs| - 1;
      var init := msgs[..n];
      AlertingIndicesExact(table, init);
      var ix := AlertingIndices(table, init);
      assert AlertingIndices(table, msgs) == ix + (if Alerting(table, msgs[n]) then [n] else []);
      forall j | 0 <= j < n && Alerting(table, msgs[j])
        ensures j in ix
      {
        assert init[j] == msgs[j];
      }
    }
  }

  /**
   * Up to the first message that raises, the loop builds one alert for each
   * alerting message and nothing else, in message order.
   */
  lemma {:induction false} BuiltMatchesAlerting(table: map<string, Bounds>, prefix: string, msgs: seq<SensorMessage>)
    requires !Run(table, prefix, msgs).crashed
    ensures var p, ix := Run(table, prefix, msgs), AlertingIndices(table, msgs);
      && |p.built| == |ix|
      && forall k :: 0 <= k < |ix| ==> AlertFor(table, prefix, msgs[ix[k]]) == Some(p.built[k])
    decreases |msgs|
  {
    if msgs != [] {
      var n := |msgs| - 1;
      assert forall j :: 0 <= j < n ==> msgs[..n][j] == msgs[j];
      BuiltMatchesAlerting(table, prefix, msgs[..n]);
    }
  }

  /**
   * A poll cycle publishes, in message order, exactly one alert per reading
   * outside its sensor's bounds; each goes to `<prefix>.<name>` and carries the
   * reading and the bounds it was tested against. No alert is published when
   * the loop raised on the way.
   */
  lemma PublishedInMessageOrder(table: map<string, Bounds>, prefix: string, msgs: seq<SensorMessage>)
    ensures var r, ix := Evaluate(table, prefix, Fetched(msgs)), AlertingIndices(table, msgs);
      && (r.crashed ==> r.published == [])
      && (!r.crashed ==> |r.published| == |ix|)
      && (!r.crashed ==> forall k :: 0 <= k < |ix| ==>
            (var d := msgs[ix[k]].data;
             && r.published[k].subject == prefix + "." + d.name
             && r.published[k].alert == Alert(OutOfBoundsMessage, d, table[d.name])
             && (d.value < table[d.name].min || d.value > table[d.name].max)))
  {
    if !Run(table, prefix, msgs).crashed {
      BuiltMatchesAlerting(table, prefix, msgs);
      AlertingIndicesExact(table, msgs);
    }
  }

  /**
   * Two batches' messages handled as one batch give the first batch's alerts
   * and acks followed by the second's, as long as the first does not raise.
   */
  lemma {:induction false} RunAppend(table: map<string, Bounds>, prefix: string, a: seq<SensorMessage>, b: seq<SensorMessage>)
    requires !Run(table, prefix, a).crashed
    ensures var pa, pb := Run(table, prefix, a), Run(table, prefix, b);
      Run(table, prefix, a + b) == Progress(pa.built + pb.built, pa.acked + Shift(pb.acked, |a|), pb.crashed)
    decreases |b|
  {
    if b == [] {
      assert a + b == a;
    } else {
      var n := |b| - 1;
      assert (a + b)[..|a + b| - 1] == a + b[..n];
      assert (a + b)[|a + b| - 1] == b[n];
      RunAppend(table, prefix, a, b[..n]);
      var pa, pb' := Run(table, prefix, a), Run(table, prefix, b[..n]);
      if !pb'.crashed {
        StepShifted(table, prefix, pa, pb', n, |a|, b[n]);
      }
    }
  }

  /** One step on a progress shifted behind an earlier, finished prefix is that step shifted. */
  lemma StepShifted(table: map<string, Bounds>, prefix: string, pa: Progress, p: Progress, i: nat, d: nat, m: SensorMessage)
    ensures var s := Step(table, prefix, p, i, m);
      Step(table, prefix, Progress(pa.built + p.built, pa.acked + Shift(p.acked, d), p.crashed), d + i, m)
      == Progress(pa.built + s.built, pa.acked + Shift(s.acked, d), s.crashed)
  {
    assert Shift(p.acked + [i], d) == Shift(p.acked, d) + [d + i];
    assert pa.built + p.built + AsSeq(AlertFor(table, prefix, m)) == pa.built + (p.built + AsSeq(AlertFor(table, prefix, m)));
  }

  /**
   * No hysteresis: a reading outside its bounds alerts every time it arrives,
   * even straight after an identical one.
   */
  lemma RepeatedReadingAlertsAgain(table: map<string, Bounds>, prefix: string, msgs: seq<SensorMessage>, m: SensorMessage)
    requires forall j :: 0 <= j < |msgs| ==> !Fatal(msgs[j])
    requires Alerting(table, m)
    ensures var before, after := Evaluate(table, prefix, Fetched(msgs)), Evaluate(table, prefix, Fetched(msgs + [m, m]));
      && !after.crashed
      && after.published == before.published + [AlertFor(table, prefix, m).value, AlertFor(table, prefix, m).value]
  {
    CleanBatchAcksAll(table, prefix, msgs);
    RunAppend(table, prefix, msgs, [m, m]);
    assert [m, m][..1] == [m];
    assert [m][..0] == [];
    var one := Run(table, prefix, [m]);
    assert Run(table, prefix, []) == Progress([], [], false);
    assert one == Step(table, prefix, Progress([], [], false), 0, m);
    assert one == Progress(AsSeq(AlertFor(table, prefix, m)), [0], false);
    assert Run(table, prefix, [m, m]).built == [AlertFor(table, prefix, m).value, AlertFor(table, prefix, m).value];
  }

  /** A reading of a sensor without bounds is acked and alerts nothing (line 120's `continue` still runs `finally`). */
  lemma UnknownSensorAckedWithoutAlert(table: map<string, Bounds>, prefix: string, msgs: seq<SensorMessage>, d: SensorData)
    requires forall j :: 0 <= j < |msgs| ==> !Fatal(msgs[j])
    requires d.name !in table
    ensures var before, after := Evaluate(table, prefix, Fetched(msgs)), Evaluate(table, prefix, Fetched(msgs + [Reading(d)]));
      && !after.crashed
      && after.published == before.published
      && after.acked == before.acked + [|msgs|]
  {
    CleanBatchAcksAll(table, prefix, msgs);
    assert (msgs + [Reading(d)])[..|msgs|] == msgs;
  }

  /** A timeout or an empty batch publishes nothing and acks nothing. */
  lemma IdleCycle(table: map<string, Bounds>, prefix: string)
    ensures Evaluate(table, prefix, TimedOut) == BatchOutcome([], [], false)
    ensures Evaluate(table, prefix, Fetched([])) == BatchOutcome([], [], false)
  {
  }

  /** Readings on either bound, and inside, are in bounds. */
  lemma BoundsAreInclusive(b: Bounds, v: real)
    ensures !OutOfBounds(b, v) <==> b.min <= v <= b.max
    ensures !OutOfBounds(b, b.min) || b.min > b.max
    ensures !OutOfBounds(b, b.max) || b.min > b.max
  {
  }

  /** Bounds with `min > max` put every reading out of bounds. */
  lemma InvertedBoundsAlwaysAlert(table: map<string, Bounds>, prefix: string, d: SensorData)
    requires d.name in table && table[d.name].min > table[d.name].max
    ensures AlertFor(table, prefix, Reading(d)).Some?
  {
  }

  // ---------------------------------------------------------------------------
  // Properties of the config listener
  // ---------------------------------------------------------------------------

  /** Once an entry has failed, the later entries change nothing. */
  lemma {:induction false} UpsertHaltStops(table: map<string, Bounds>, entries: seq<(string, BoundsEntry)>, i: nat)
    requires i <= |entries|
    requires UpsertEntries(table, entries[..i]).halt != Running
    ensures UpsertEntries(table, entries) == UpsertEntries(table, entries[..i])
    decreases |entries| - i
  {
    if i < |entries| {
      assert entries[..i + 1][..i] == entries[..i];
      UpsertHaltStops(table, entries, i + 1);
    } else {
      assert entries[..i] == entries;
    }
  }

  /** Sensors a config message does not list keep their bounds, or stay absent. */
  lemma {:induction false} UpsertKeepsUnlisted(table: map<string, Bounds>, entries: seq<(string, BoundsEntry)>, k: string)
    requires forall i :: 0 <= i < |entries| ==> entries[i].0 != k
    ensures var t := UpsertEntries(table, entries).table;
      (k in t <==> k in table) && (k in table ==> t[k] == table[k])
    decreases |entries|
  {
    if entries != [] {
      var n := |entries| - 1;
      assert forall i :: 0 <= i < n ==> entries[..n][i] == entries[i];
      UpsertKeepsUnlisted(table, entries[..n], k);
    }
  }

  /** Upserts keep the table keyed by sensor name and never drop a sensor. */
  lemma {:induction false} UpsertKeepsKeyed(table: map<string, Bounds>, entries: seq<(string, BoundsEntry)>)
    requires Keyed(table)
    ensures Keyed(UpsertEntries(table, entries).table)
    ensures table.Keys <= UpsertEntries(table, entries).table.Keys
    decreases |entries|
  {
    if entries != [] {
      UpsertKeepsKeyed(table, entries[..|entries| - 1]);
    }
  }

  /**
   * An accepted entry that the loop reaches sets its sensor's bounds, with
   * `sensor` equal to the key, unless a later entry for the same sensor
   * overrides it (last write wins).
   */
  lemma {:induction false} UpsertAppliesReached(table: map<string, Bounds>, entries: seq<(string, BoundsEntry)>, i: nat)
    requires i < |entries| && entries[i].1.Accepted?
    requires forall j :: 0 <= j < i ==> entries[j].1.Accepted?
    requires forall j :: i < j < |entries| ==> entries[j].0 != entries[i].0
    ensures var k, t := entries[i].0, UpsertEntries(table, entries).table;
      k in t && t[k] == Bounds(k, entries[i].1.min, entries[i].1.max)
  {
    var k := entries[i].0;
    UpsertAllAccepted(table, entries[..i]);
    assert entries[..i + 1][..i] == entries[..i];
    var rest := entries[i + 1..];
    assert entries == entries[..i + 1] + rest;
    UpsertSplit(table, entries[..i + 1], rest, k);
  }

  /** A run of accepted entries does not halt. */
  lemma {:induction false} UpsertAllAccepted(table: map<string, Bounds>, entries: seq<(string, BoundsEntry)>)
    requires forall j :: 0 <= j < |entries| ==> entries[j].1.Accepted?
    ensures UpsertEntries(table, entries).halt == Running
    decreases |entries|
  {
    if entries != [] {
      var n := |entries| - 1;
      assert forall j :: 0 <= j < n ==> entries[..n][j] == entries[j];
      UpsertAllAccepted(table, entries[..n]);
    }
  }

  /** Entries after a prefix do not touch a sensor they do not list. */
  lemma {:induction false} UpsertSplit(table: map<string, Bounds>, a: seq<(string, BoundsEntry)>, b: seq<(string, BoundsEntry)>, k: string)
    requires forall j :: 0 <= j < |b| ==> b[j].0 != k
    ensures var ta, t := UpsertEntries(table, a).table, UpsertEntries(table, a + b).table;
      (k in t <==> k in ta) && (k in ta ==> t[k] == ta[k])
    decreases |b|
  {
    if b == [] {
      assert a + b == a;
    } else {
      var n := |b| - 1;
      assert (a + b)[..|a + b| - 1] == a + b[..n];
      assert (a + b)[|a + b| - 1] == b[n];
      assert forall j :: 0 <= j < n ==> b[..n][j] == b[j];
      UpsertSplit(table, a, b[..n], k);
    }
  }

  /**
   * The first entry that fails validation aborts the rest of the message; the
   * entries before it stay applied, and the message is still acked. An entry
   * whose unpacking raises ends the listener instead.
   */
  lemma {:induction false} FirstFailureStops(table: map<string, Bounds>, entries: seq<(string, BoundsEntry)>, i: nat)
    requires i < |entries| && !entries[i].1.Accepted?
    requires forall j :: 0 <= j < i ==> entries[j].1.Accepted?
    ensures var r := ConfigStep(table, ConfigObject(entries));
      && r.table == UpsertEntries(table, entries[..i]).table
      && (r.outcome == Acked <==> entries[i].1.Rejected?)
  {
    UpsertAllAccepted(table, entries[..i]);
    assert entries[..i + 1][..i] == entries[..i];
    UpsertHaltStops(table, entries, i + 1);
  }

  /** A config message without a failing entry is applied in full and acked. */
  lemma CleanConfigAcked(table: map<string, Bounds>, entries: seq<(string, BoundsEntry)>)
    requires forall j :: 0 <= j < |entries| ==> entries[j].1.Accepted?
    ensures ConfigStep(table, ConfigObject(entries)).outcome == Acked
  {
    UpsertAllAccepted(table, entries);
  }
}
