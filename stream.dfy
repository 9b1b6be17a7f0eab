/**
 * The stream helper of stream.py: a `Stream` object that names its consumer
 * when it is created, publishes one record to its subject, and fetches a batch
 * from its stream, keeps the messages that validate against its model, in
 * fetch order, and acknowledges exactly those.
 *
 * The connection, the pull subscription and the broker calls are not
 * modelled: a fetch is an input (a timeout or a batch of delivered messages),
 * a publish and the acknowledgements are outputs. What `model_validate_json`
 * makes of a payload is carried by the delivered message itself.
 */
module StreamHelper {
  import opened Wrappers

  /** `Stream.EPHEMERAL`: the consumer name that asks for an ephemeral consumer. */
  const Ephemeral: string := "___ephemeral___"

  /** `self.consumer`: never assigned, assigned `None` (ephemeral), or a durable name. */
  datatype ConsumerSlot = Unset | NoDurable | Durable(name: string)

  /** The exceptions the helper raises itself. */
  datatype StreamError =
    | SubjectRequired    // ValueError("Subject is required to publish messages")
    | StreamRequired     // ValueError("Stream is required to fetch messages")
    | ConsumerMissing    // AttributeError: `self.consumer` was never assigned

  /** Python truthiness of an optional string: neither `None` nor `""`. */
  predicate Truthy(s: Option<string>) {
    s.Some? && s.value != ""
  }

  /** `f"{s}"` for an optional string: `None` formats as "None". */
  function Format(s: Option<string>): string {
    if s.Some? then s.value else "None"
  }

  /** The consumer `Stream.__init__` sets up, as the code is written: a non-empty name other than EPHEMERAL is dropped. */
  function DeriveConsumer(stream: Option<string>, consumer: Option<string>): (c: ConsumerSlot)
    ensures c == NoDurable <==> consumer == Some(Ephemeral)
    ensures !Truthy(consumer) ==> c == Durable(Format(stream) + "_consumer")
    ensures c.Unset? <==> Truthy(consumer) && consumer != Some(Ephemeral)
  {
    if consumer == Some(Ephemeral) then NoDurable
    else if !Truthy(consumer) then Durable(Format(stream) + "_consumer")
    else Unset
  }

  /** The consumer `Stream.__init__` evidently means to set up: a supplied name is used as the durable name. */
  function DeriveConsumerIntended(stream: Option<string>, consumer: Option<string>): (c: ConsumerSlot)
    ensures !c.Unset?
    ensures c == NoDurable <==> consumer == Some(Ephemeral)
    ensures !Truthy(consumer) ==> c == Durable(Format(stream) + "_consumer")
    ensures Truthy(consumer) && consumer != Some(Ephemeral) ==> c == Durable(consumer.value)
  {
    if consumer == Some(Ephemeral) then NoDurable
    else if !Truthy(consumer) then Durable(Format(stream) + "_consumer")
    else Durable(consumer.value)
  }

  /** The checks `get_messages` makes before it fetches: a stream name, then the `self.consumer` attribute. */
  function FetchGuard(stream: Option<string>, consumer: ConsumerSlot): (e: Option<StreamError>)
    ensures e == None <==> Truthy(stream) && !consumer.Unset?
    ensures !Truthy(stream) ==> e == Some(StreamRequired)
    ensures Truthy(stream) && consumer.Unset? ==> e == Some(ConsumerMissing)
  {
    if !Truthy(stream) then Some(StreamRequired)
    else if consumer.Unset? then Some(ConsumerMissing)
    else None
  }

  /** A payload as `publish` serialises it: the model's JSON dump, or `str(data)` when there is no model. */
  datatype Body<T> = Body(data: T, asJson: bool)

  datatype Publication<T> = Publication(subject: string, body: Body<T>)

  /** What `publish(data)` sends, or the error it raises. */
  function Publishing<T>(subject: Option<string>, hasModel: bool, data: T): (r: Result<Publication<T>, StreamError>)
    ensures r.Failure? <==> (subject == None || subject == Some(""))
    ensures r.Failure? ==> r.error == SubjectRequired
    ensures r.Success? ==> r.value.subject == subject.value && r.value.body.data == data
    ensures r.Success? ==> r.value.body.asJson == hasModel
  {
    if !Truthy(subject) then Failure(SubjectRequired)
    else Success(Publication(subject.value, Body(data, hasModel)))
  }

  /** A fetched message: its decoded text, and what the stream's model (if any) validates it to. */
  datatype Delivered<T> = Delivered(text: string, record: Option<T>)

  /** The result of `psub.fetch`: a timeout, or a batch. */
  datatype Fetch<T> = TimedOut | Batch(msgs: seq<Delivered<T>>)

  /** An element of the returned list: the validated record, or the raw text when there is no model. */
  datatype Item<T> = Record(record: T) | RawText(text: string)

  /** The returned list and the indices of the messages acknowledged. */
  datatype Messages<T> = Messages(items: seq<Item<T>>, acked: seq<nat>)

  /** A message is kept when there is no model or the model validates it. */
  predicate Validates<T>(hasModel: bool, d: Delivered<T>) {
    !hasModel || d.record.Some?
  }

  function ItemOf<T>(hasModel: bool, d: Delivered<T>): Item<T> {
    if hasModel && d.record.Some? then Record(d.record.value) else RawText(d.text)
  }

  ghost predicate Increasing(s: seq<nat>) {
    forall k, l :: 0 <= k < l < |s| ==> s[k] < s[l]
  }

  /**
   * `m` keeps exactly the messages of `msgs` that validate, in fetch order, and
   * acknowledges exactly those: the k-th item comes from the k-th acked message.
   */
  ghost predicate Kept<T>(hasModel: bool, msgs: seq<Delivered<T>>, m: Messages<T>) {
    && |m.acked| == |m.items|
    && Increasing(m.acked)
    && (forall k :: 0 <= k < |m.acked| ==> m.acked[k] < |msgs| && m.items[k] == ItemOf(hasModel, msgs[m.acked[k]]))
    && (forall j :: 0 <= j < |msgs| ==> (j in m.acked <==> Validates(hasModel, msgs[j])))
  }

  class Stream<T> {
    const stream: Option<string>
    const subject: Option<string>
    /** Whether a pydantic model was given. */
    const hasModel: bool
    const timeout: int
    /**
     * `self.consumer`, derived the way `__init__` evidently means to: a
     * supplied name becomes the durable consumer (see `DeriveConsumer` for the
     * code as written, which leaves it unassigned).
     */
    const consumer: ConsumerSlot

    constructor (stream: Option<string> := None, subject: Option<string> := None,
                 consumer: Option<string> := None, hasModel: bool := false, timeout: int := 1)
      ensures this.stream == stream && this.subject == subject
      ensures this.hasModel == hasModel && this.timeout == timeout
      ensures consumer == Some(Ephemeral) ==> this.consumer == NoDurable
      ensures consumer == None || consumer == Some("") ==> this.consumer == Durable(Format(stream) + "_consumer")
      ensures Truthy(consumer) && consumer != Some(Ephemeral) ==> this.consumer == Durable(consumer.value)
      ensures this.consumer == DeriveConsumerIntended(stream, consumer)
    {
      this.stream := stream;
      this.subject := subject;
      this.hasModel := hasModel;
      this.timeout := timeout;
      if consumer == Some(Ephemeral) {
        this.consumer := NoDurable;
      } else if !Truthy(consumer) {
        this.consumer := Durable(Format(stream) + "_consumer");
      } else {
        this.consumer := Durable(consumer.value);
      }
    }

    /** `publish(data)`: the guard on the subject, then one message to it. */
    method Publish(data: T) returns (r: Result<Publication<T>, StreamError>)
      ensures r == Publishing(subject, hasModel, data)
    {
      if !Truthy(subject) {
        return Failure(SubjectRequired);
      }
      r := Success(Publication(subject.value, Body(data, hasModel)));
    }

    /** `get_messages`: the guards, one fetch, then the validate/filter/ack loop. */
    method GetMessages(fetch: Fetch<T>) returns (r: Result<Messages<T>, StreamError>)
      ensures r.Failure? <==> (!Truthy(stream) || consumer.Unset?)
      ensures r.Failure? ==> Some(r.error) == FetchGuard(stream, consumer)
      ensures r.Success? && fetch.TimedOut? ==> r.value == Messages([], [])
      ensures r.Success? && fetch.Batch? ==> Kept(hasModel, fetch.msgs, r.value)
    {
      var guard := FetchGuard(stream, consumer);
      if guard.Some? {
        return Failure(guard.value);
      }
      var response: seq<Item<T>> := [];
      match fetch {
        case TimedOut =>
          r := Success(Messages(response, []));
        case Batch(msgs) =>
          if |msgs| == 0 {
            return Success(Messages(response, []));
          }
          var acks: seq<nat> := [];
          var i := 0;
          while i < |msgs|
            invariant 0 <= i <= |msgs|
            invariant |acks| == |response|
            invariant Increasing(acks)
            invariant forall k :: 0 <= k < |acks| ==> acks[k] < i && response[k] == ItemOf(hasModel, msgs[acks[k]])
            invariant forall j :: 0 <= j < i ==> (j in acks <==> Validates(hasModel, msgs[j]))
          {
            var msg := msgs[i];
            if hasModel {
              if msg.record.None? {
                i := i + 1;
                continue;
              }
              response := response + [Record(msg.record.value)];
            } else {
              response := response + [RawText(msg.text)];
            }
            acks := acks + [i];
            i := i + 1;
          }
          r := Success(Messages(response, acks));
      }
    }
  }

  // ---------------------------------------------------------------------------
  // Properties
  // ---------------------------------------------------------------------------

  /** Two strictly increasing sequences with the same elements are equal. */
  lemma {:induction false} IncreasingUnique(a: seq<nat>, b: seq<nat>)
    requires Increasing(a) && Increasing(b)
    requires forall x :: x in a <==> x in b
    ensures a == b
    decreases |a|
  {
    if a != [] {
      assert a[0] in a;
    }
    if b != [] {
      assert b[0] in b;
    }
    if a != [] && b != [] {
      assert a[0] in b;
      assert b[0] in a;
      assert a[0] == b[0];
      forall x
        ensures x in a[1..] <==> x in b[1..]
      {
        assert x in a[1..] <==> x in a && x != a[0];
        assert x in b[1..] <==> x in b && x != b[0];
      }
      IncreasingUnique(a[1..], b[1..]);
      assert a == [a[0]] + a[1..];
      assert b == [b[0]] + b[1..];
    }
  }

  /** `Kept` pins the result down: only one list and one set of acks meets it. */
  lemma KeptIsUnique<T>(hasModel: bool, msgs: seq<Delivered<T>>, m1: Messages<T>, m2: Messages<T>)
    requires Kept(hasModel, msgs, m1) && Kept(hasModel, msgs, m2)
    ensures m1 == m2
  {
    forall x
      ensures x in m1.acked <==> x in m2.acked
    {
      if x in m1.acked {
        var k :| 0 <= k < |m1.acked| && m1.acked[k] == x;
      }
      if x in m2.acked {
        var k :| 0 <= k < |m2.acked| && m2.acked[k] == x;
      }
    }
    IncreasingUnique(m1.acked, m2.acked);
  }

  /** Strictly increasing indices below `n`: at most `n` of them. */
  lemma {:induction false} IncreasingBounded(s: seq<nat>, n: nat)
    requires Increasing(s)
    requires forall k :: 0 <= k < |s| ==> s[k] < n
    ensures |s| <= n
    decreases |s|
  {
    if s != [] {
      var last := |s| - 1;
      assert forall k :: 0 <= k < last ==> s[..last][k] < s[last];
      IncreasingBounded(s[..last], s[last]);
    }
  }

  /** As many acks as returned items, and no more than were fetched. */
  lemma AcksMatchItems<T>(hasModel: bool, msgs: seq<Delivered<T>>, m: Messages<T>)
    requires Kept(hasModel, msgs, m)
    ensures |m.acked| == |m.items| <= |msgs|
  {
    IncreasingBounded(m.acked, |msgs|);
  }

  /** Without a model nothing is dropped: every message is returned as its text and acked. */
  lemma {:induction false} NoModelKeepsAll<T>(msgs: seq<Delivered<T>>, m: Messages<T>)
    requires Kept(false, msgs, m)
    ensures |m.items| == |msgs|
    ensures forall k :: 0 <= k < |msgs| ==> m.acked[k] == k && m.items[k] == RawText(msgs[k].text)
  {
    var all := seq(|msgs|, k requires 0 <= k < |msgs| => k as nat);
    forall x
      ensures x in m.acked <==> x in all
    {
      if x in m.acked {
        var k :| 0 <= k < |m.acked| && m.acked[k] == x;
        assert all[x] == x;
      }
      if x in all {
        var k :| 0 <= k < |all| && all[k] == x;
      }
    }
    IncreasingUnique(m.acked, all);
  }

  /**
   * As written, a supplied consumer name other than EPHEMERAL is never stored,
   * so every later fetch on a named stream fails on the missing attribute.
   */
  lemma NamedConsumerBreaksFetch(stream: Option<string>, consumer: Option<string>)
    requires Truthy(stream)
    ensures DeriveConsumer(stream, consumer).Unset? <==> Truthy(consumer) && consumer != Some(Ephemeral)
    ensures Truthy(consumer) && consumer != Some(Ephemeral) ==>
              FetchGuard(stream, DeriveConsumer(stream, consumer)) == Some(ConsumerMissing)
  {
  }

  /** The name alerts.py builds for its consumer, on the stream it reads, makes `get_messages` raise. */
  lemma AlertColoursConsumerIsLost()
    ensures var stream := Some("alerts_climatecore");
      FetchGuard(stream, DeriveConsumer(stream, Some("alert_colours_consumer_20250101000000"))) == Some(ConsumerMissing)
  {
  }

  /** With the intended derivation a supplied name becomes the durable consumer, and a named stream can always fetch. */
  lemma IntendedConsumerKeepsName(stream: Option<string>, consumer: Option<string>)
    ensures Truthy(consumer) && consumer != Some(Ephemeral) ==>
              DeriveConsumerIntended(stream, consumer) == Durable(consumer.value)
    ensures Truthy(stream) ==> FetchGuard(stream, DeriveConsumerIntended(stream, consumer)) == None
  {
  }

  /** The two derivations agree for every consumer argument except a supplied name. */
  lemma DerivationsAgreeOnDefaults(stream: Option<string>, consumer: Option<string>)
    requires !Truthy(consumer) || consumer == Some(Ephemeral)
    ensures DeriveConsumer(stream, consumer) == DeriveConsumerIntended(stream, consumer)
  {
  }
}
