# ClimateCore: a Dafny model of the bounds-alerting core and its LLM consumers

ClimateCore watches environmental sensor readings that arrive as messages on a
NATS JetStream stream.

- **The engine** (`climatecore.py`) does two things. First, it keeps a table of
  per-sensor bounds, which a configuration listener upserts from config
  messages. Second, it repeatedly fetches a batch of readings and checks each
  reading against the table. It publishes one alert, to
  `<prefix>.<sensor name>`, for each reading strictly outside its bounds, and
  acknowledges the messages it handled.
- **The stream helper** (`stream.py`) reads and writes the other streams. At
  construction it derives a durable consumer name. It publishes one record to
  its subject. It fetches a batch, keeps the messages its record model
  validates, in order, and acknowledges exactly those.
- **Two LLM consumers** read the alerts:
  - `alerts.py` asks for an alert colour and validates the reply as a `Colour`;
  - `actuator.py` asks for a suggested action. It returns a fixed "no action"
    answer for an empty reply or one starting with `[ ]`. Otherwise it
    validates the reply as an `Action`. For a non-empty action it publishes a
    notification, a memory entry and the action itself.

  Before validating, both cut the reply down to the stretch from its first `{`
  to its last `}`.

The engine has no hysteresis and no recovery event. It alerts on every
out-of-bounds reading, again and again (`RepeatedReadingAlertsAgain`), and it
never emits a "back to normal" event when a reading returns within bounds.

Modules:

- `Wrappers`: `Option` and `Result`.
- `Records`: `SensorData`, `Bounds` and `Alert`.
- `ClimateCore`: the `ClimateCore` class, which holds the bounds table and
  whether the config listener is alive. Its methods are `ApplyConfig` (the
  listener's upsert loop) and `ProcessBatch` (one poll cycle of the batch
  loop). Each is proved against a specification function (`ConfigStep`,
  `Evaluate`), and the lemmas are about those functions.
- `StreamHelper`: the `Stream` class, with its constructor, `Publish` and
  `GetMessages`.
- `LlmReply`: the brace extraction and the "no action" test. Each regular
  expression is written as a matcher that works like the regex engine (lazy
  and greedy repetition, backtracking). Contracts and lemmas state the match
  in terms of positions.
- `AlertColours`: the hex-colour validator, the `Colour` record's constraints
  and `load_alert_colour` after the LLM call.
- `Actuator`: `load_action` after the LLM call, the `Action` to
  `Notification`/`Memory` mapping, and the publish-only-if-non-empty decision.

Exceptions are modelled as outcomes.

- In the batch loop, `json.loads` (climatecore.py:114) sits outside the `try`,
  so a payload that is not JSON raises before any ack. The call
  `SensorData(timestamp=…, **data)` (line 117) is inside the `try`, but on a
  JSON value that is not keyword arguments it raises `TypeError`. The
  `except` catches only `pydantic.ValidationError`, so that error gets past
  it: `finally` acks the message, and then the exception continues. Both
  exceptions escape the `while True`, which catches only
  `asyncio.TimeoutError`, and the engine stops. The alert coroutines collected
  so far are never gathered, so nothing of that batch is published. The model
  records this as `crashed`.
- In the config listener, the only caught exception is
  `pydantic.ValidationError`. It aborts the rest of the message, and the
  message is still acked. Any other error ends the listener task without an
  ack: a non-JSON message, JSON without `.items()`, or an entry that cannot be
  unpacked as keywords. The model records this as `listening`.

## Model

| member | source | states |
|---|---|---|
| ClimateCore.AlertFor | climatecore.py:118-133 | a message yields an alert iff it is a reading of a configured sensor with value < min or value > max; the alert goes to `prefix + "." + name`, has the default message and carries the reading and the bounds used |
| ClimateCore.AlertingIndices | climatecore.py:124-125 | the indices it lists are indices of readings that are out of their sensor's bounds |
| ClimateCore.ClimateCore.constructor | climatecore.py:43-87 | the engine starts with an empty bounds table (the `sensor_bounds` default at line 43) and a live config listener (the task started at line 87) |
| ClimateCore.ClimateCore.ApplyConfig | climatecore.py:59-72 | the listener's handling of one message: the new table and outcome are those of `ConfigStep`; the listener stays alive iff the message is acked; after the listener has died nothing is delivered and the table is unchanged; the table stays keyed by sensor name and never loses a sensor |
| ClimateCore.ClimateCore.ProcessBatch | climatecore.py:108-140 | one poll cycle returns exactly `Evaluate` of the current table on the fetched batch (alerts published, messages acked, whether the loop raised); over the keyed table, every published alert carries the bounds of its reading's sensor and goes to `prefix.name` |
| ClimateCore.Step | climatecore.py:113-137 | one message appends its alert (if any) to the built alerts, is acked unless it is not JSON, and raises iff it is not JSON or not keyword arguments |
| ClimateCore.Run | climatecore.py:112-137 | the loop over a batch builds no more alerts than acks and acks no more than the batch; if it does not raise, every message is acked |
| ClimateCore.BuiltAlertsKeyed | climatecore.py:64-65 | over a table keyed by sensor name (as the listener fills it), every alert built carries the bounds whose `sensor` is the reading's name, and goes to `prefix.name` |
| ClimateCore.RunCrashStops | climatecore.py:112-117 | once a message has raised, the rest of the batch is not processed |
| ClimateCore.AckedIncreasing | climatecore.py:136-137 | acked indices are message indices, each acked at most once, in increasing order |
| ClimateCore.CrashedIffFatal | climatecore.py:114-117 | the batch loop raises iff some message is not JSON or not keyword arguments |
| ClimateCore.AckedExactly | climatecore.py:114-137 | a message is acked iff no earlier message raised and it is JSON (invalid readings, unknown sensors and even the keyword-argument failure are acked by `finally`) |
| ClimateCore.CleanBatchAcksAll | climatecore.py:112-137 | when no message raises, every message is acked, in order |
| ClimateCore.AlertingIndicesExact | climatecore.py:125 | `AlertingIndices` is increasing and contains every alerting message |
| ClimateCore.BuiltMatchesAlerting | climatecore.py:124-133 | up to the first raise, exactly one alert is built per alerting message, in message order |
| ClimateCore.PublishedInMessageOrder | climatecore.py:125-140 | a cycle publishes nothing if the loop raised; otherwise exactly one alert per out-of-bounds reading, in message order, each to `prefix.name` with that reading and its bounds |
| ClimateCore.RunAppend | climatecore.py:112-137 | when the first sequence of messages does not raise, processing the two back to back equals processing their concatenation: alerts concatenate and the acks of the second are shifted by the length of the first |
| ClimateCore.RepeatedReadingAlertsAgain | climatecore.py:125-133 | there is no hysteresis: the same out-of-bounds reading delivered twice publishes two identical alerts |
| ClimateCore.UnknownSensorAckedWithoutAlert | climatecore.py:118-137 | a reading of a sensor without bounds publishes nothing but is still acked |
| ClimateCore.IdleCycle | climatecore.py:108-143 | a fetch timeout or an empty batch publishes and acks nothing and does not end the engine |
| ClimateCore.BoundsAreInclusive | climatecore.py:125 | a reading is in bounds iff min <= value <= max; a value equal to either bound never alerts (unless min > max) |
| ClimateCore.InvertedBoundsAlwaysAlert | climatecore.py:125 | with min > max every reading of that sensor alerts |
| ClimateCore.UpsertEntries | climatecore.py:59-68 | the upsert loop over a message's entries never removes a sensor, and runs to the end only if every entry validated |
| ClimateCore.UpsertHaltStops | climatecore.py:63-68 | after an entry fails, the later entries of the message change nothing |
| ClimateCore.UpsertKeepsUnlisted | climatecore.py:63-65 | a sensor the message does not list keeps its bounds or stays absent |
| ClimateCore.UpsertKeepsKeyed | climatecore.py:64-65 | each table entry's `sensor` equals its key, and upserts never remove a sensor |
| ClimateCore.UpsertAppliesReached | climatecore.py:63-65 | an accepted entry reached by the loop sets that sensor's bounds to its min and max with `sensor` = key, unless a later entry for the same sensor overrides it (last write wins) |
| ClimateCore.UpsertAllAccepted | climatecore.py:63-66 | a message whose entries all validate is applied without halting |
| ClimateCore.UpsertSplit | climatecore.py:63-65 | later entries do not touch a sensor they do not name |
| ClimateCore.FirstFailureStops | climatecore.py:63-72 | at the first failing entry the table is what the entries before it made; the message is acked iff that entry failed validation rather than unpacking |
| ClimateCore.CleanConfigAcked | climatecore.py:59-72 | a config message whose entries all validate is acked |
| StreamHelper.DeriveConsumer | stream.py:28-31 | as written: EPHEMERAL gives no durable consumer, no or an empty name gives `"<stream>_consumer"`, and `self.consumer` is left unassigned iff a non-empty name other than EPHEMERAL is supplied |
| StreamHelper.DeriveConsumerIntended | stream.py:28-31 | the corrected derivation: `self.consumer` is always assigned; EPHEMERAL gives no durable consumer, no or an empty name gives `"<stream>_consumer"`, a supplied name is the durable consumer |
| StreamHelper.FetchGuard | stream.py:45-50 | `get_messages` can fetch iff the stream name is truthy and `self.consumer` was assigned; a missing stream is reported first, and an unassigned consumer on a named stream gives the attribute error |
| StreamHelper.Publishing | stream.py:33-42 | publishing fails with the subject error iff the subject is `None` or empty; otherwise one message goes to the subject with the record, serialised as JSON iff a model was given |
| StreamHelper.Stream.constructor | stream.py:14-31 | stores the arguments; EPHEMERAL gives no durable consumer; no or an empty consumer gives `"<stream>_consumer"` (`"None_consumer"` without a stream); a supplied name becomes the durable consumer (the corrected derivation, see Findings) |
| StreamHelper.Stream.Publish | stream.py:33-42 | the publish is exactly `Publishing` of the stream's subject, model and record |
| StreamHelper.Stream.GetMessages | stream.py:44-82 | fails iff the guard fails, with the guard's error; a timeout or an empty batch gives nothing; otherwise the result keeps exactly the messages that validate (all of them without a model), in fetch order, and acks exactly those |
| StreamHelper.KeptIsUnique | stream.py:60-73 | the result of the filter/ack loop is fully determined by the batch |
| StreamHelper.AcksMatchItems | stream.py:60-73 | one ack per returned item, and no more items than fetched messages |
| StreamHelper.NoModelKeepsAll | stream.py:63-73 | without a model every message is returned as its text and acked, in order |
| StreamHelper.NamedConsumerBreaksFetch | stream.py:28-31 | as written, `self.consumer` is left unassigned iff a non-empty name other than EPHEMERAL is supplied, and then a fetch on a named stream fails |
| StreamHelper.AlertColoursConsumerIsLost | alerts.py:190-206 | the consumer name alerts.py builds, on its alerts stream, makes `get_messages` fail as the code is written |
| StreamHelper.IntendedConsumerKeepsName | stream.py:28-31 | with the corrected derivation a supplied name is the durable consumer and any named stream can fetch |
| StreamHelper.DerivationsAgreeOnDefaults | stream.py:28-31 | the corrected derivation differs from the written one only for a supplied name |
| LlmReply.GreedyClose | alerts.py:137 | greedy `.*}` inside a range finds the last `}` of the range, or fails iff there is none |
| LlmReply.LazyOpen | alerts.py:137 | lazy `.*?` then `{.*}` matches at the first `{` that has a `}` somewhere after it, ending at the last `}`; it fails iff no `{` precedes a `}` |
| LlmReply.ExtractBraces | alerts.py:137 | the rewrite returns the reply from its first `{` through its last `}` when a `}` follows the first `{`, and the reply unchanged otherwise |
| LlmReply.ExtractBracesIdempotent | alerts.py:137 | cleaning a cleaned reply changes nothing |
| LlmReply.ExtractBracesIsSubstring | alerts.py:137 | the cleaned reply is a contiguous substring of the reply |
| LlmReply.ExtractBracesShape | actuator.py:76 | when the reply has a brace pair, the cleaned reply starts with `{` and ends with `}` |
| LlmReply.SkipSpace | actuator.py:71 | `\s*` stops at the first non-whitespace position (or the end) and everything it skipped is whitespace |
| LlmReply.IsNoActionReply | actuator.py:71 | the reply is "no action" iff it is empty or starts with `[`, then only whitespace, then `]`, with anything after it |
| AlertColours.HexRun | alerts.py:26 | `[0-9a-fA-F]{n}` at position i holds iff the n characters from i exist and are all hex digits |
| AlertColours.IsValidHexColour | alerts.py:25-28 | a colour is accepted iff it is `#` and six hex digits, optionally followed by one newline that `$` admits; it is returned unchanged, and a rejection carries "Invalid hex colour: " and the colour |
| AlertColours.ValidateColour | alerts.py:30-34 | a `Colour` validates iff the colour is present and valid, the brightness, if given, is in 1..100, and a reason is present; brightness defaults to 50 and state to ""; a failure names exactly the failing fields, in declaration order |
| AlertColours.ValidatedColourWellFormed | alerts.py:30-34 | every validated `Colour` has a valid hex colour and a brightness in 1..100 |
| AlertColours.SampleColourValidates | alerts.py:36-41 | the sample shown to the LLM (its colour, brightness, reason and rule-laden state string) validates to itself; a reply without brightness or state gets 50 and "" |
| AlertColours.LoadAlertColour | alerts.py:136-141 | the cleaned reply is decoded and validated: not a JSON object gives that error; otherwise the result succeeds iff the fields validate, a success is exactly the `Colour` built from the decoded fields, a failure reports exactly the fields that failed, and any colour returned is well formed |
| Actuator.LoadAction | actuator.py:69-80 | an empty reply, or one starting with `[`, whitespace and `]`, gives `Action("", "No action suggested")`; any other reply is validated from its first `{` through its last `}` when it has a brace pair, and as a whole otherwise |
| Actuator.NotificationFor | actuator.py:170 | the notification's title is the action and its message the reason |
| Actuator.MemoryFor | actuator.py:172 | the memory message is the action, then ": ", then the reason, stamped with the current time |
| Actuator.Outbox | actuator.py:156-174 | the three publishes are attempted iff the action text is non-empty; each one is sent iff its subject is non-empty (an empty subject makes `publish` raise), and sends the notification, the memory or the action as JSON to that subject |
| Actuator.Decide | actuator.py:153-177 | after the reply: a validation failure, or silence (logging the reason) iff the action text is empty, or the outbox of the action |
| Actuator.NoActionReplyPublishesNothing | actuator.py:71-73 | a "no action" reply publishes nothing and logs "No action suggested", whatever validation would have said |
| Actuator.PublishedOnlyForAnAction | actuator.py:156-177 | the three publishes are attempted iff the reply is not a "no action" reply and its cleaned text validates to an action with non-empty text |
| Actuator.SomethingSentIff | actuator.py:101-174 | something is actually sent iff the reply is not a "no action" reply, its cleaned text validates to an action with non-empty text, and at least one of the three subjects is non-empty |
| Actuator.LoadActionOfCleanedReply | actuator.py:71-80 | for a reply that is not "no action", `load_action` of the cleaned reply equals `load_action` of the reply |
| Actuator.IndentedEmptyListIsValidated | actuator.py:71 | `re.match` anchors at the start: `" []"` goes to validation, while `"[ ] no action"` is a no-action reply |
| Actuator.NotificationRecoversAction | actuator.py:170 | the action can be read back from its notification |
| Actuator.MemoryMessageSplits | actuator.py:172 | when the action holds no colon, the memory message splits back into action and reason at its first colon |
| Actuator.MemoryMessageIsAmbiguous | actuator.py:172 | with a colon in the action, two different actions leave the same memory message |

## Left out

- NATS I/O is not modelled: the connection, `pull_subscribe`, `fetch`, `ack`, `publish` and consumer deletion. Fetched batches are inputs. Acks are index sequences and publishes are values.
- ClimateCore.ClimateCore.ProcessBatch does not model the task that runs the listener concurrently, `asyncio.gather`, or the 0.1-second poll that waits for a non-empty table before the loop starts (climatecore.py:87-92). One cycle tests every reading of its batch against one table. In the source the listener can upsert the table at each `await msg.ack()` (line 137), in the middle of a batch. So two readings of one batch may be tested against different bounds, and the model does not capture that.
- LLM calls, prompt construction (`current_state_prompt`, both `construct_prompt`) and the `@retry` decorator are left out. They are foreign, nondeterministic and depend on the clock. The model covers one reply and what follows from it.
- The state file (`save_state`/`load_state`), argparse and logging setup are I/O and command-line handling. They are not modelled.
- The time-budgeted reload loop of alerts.py (lines 188-229) depends on the wall clock. Only the consumer name it passes to `Stream` is used (`AlertColoursConsumerIsLost`).
- JSON decoding and pydantic validation are abstracted. A decoder function, or a per-message classification, says what they decide.
  - AlertColours.LoadAlertColour: a field of the wrong JSON type (for example a number as `reason`) is folded into the decoder giving no object, so it is not reported as a failing field.
  - For a config message, JSON objects with duplicate keys are taken as already reduced to their last occurrence.
- Floating-point values are modelled as `real`, which the code only compares. NaN is not represented. In the source a NaN reading, or a NaN bound, never alerts, because both comparisons at climatecore.py:125 are false. `BoundsAreInclusive` holds only for non-NaN values. Infinities are not represented either. They compare like values beyond every real.
- StreamHelper.Stream.GetMessages does not model a payload that fails UTF-8 decoding (`msg.data.decode()` raising). It also does not model the subscription's `durable=` argument, which only reaches the broker.
- The `Memory` timestamp (`datetime.now`) is the parameter `now`. The reading's timestamp, taken from message metadata, is an integer.
- The early exit of actuator.py when no alerts are fetched (lines 127-130) is not modelled. Neither is its reading of the memory stream. Both are I/O around the decision.
- models.py duplicates the records of climatecore.py. They are defined once, in `Records`, with `Memory` and `Notification` in `Actuator`.
- A hysteresis or recovery ("back to normal") event is not modelled. No code implements one.
- Actuator.Outbox treats the three publishes as independent results. Under `asyncio.gather`, one failing publish raises in `main`, and the model does not say which of the other publishes were already sent.

## Findings

| source | as written | input that shows it | evidently intended | confidence | as-written member | corrected member |
|---|---|---|---|---|---|---|
| stream.py:28-31 | a consumer name that is non-empty and not EPHEMERAL is never stored in `self.consumer`, so `get_messages` raises `AttributeError` at line 50 | `Stream(stream="alerts_climatecore", consumer="alert_colours_consumer_20250101000000")`, as alerts.py:196-202 builds it, then `get_messages` | the supplied name becomes the durable consumer | not executed | StreamHelper.NamedConsumerBreaksFetch | StreamHelper.IntendedConsumerKeepsName |
