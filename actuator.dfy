/**
 * The decision half of actuator.py: turning one LLM reply into an `Action`
 * (`load_action`), and what `main` publishes for that action: a
 * `Notification`, a `Memory` and the action itself, and only when the action
 * text is non-empty.
 *
 * The LLM call and the JSON/pydantic validation are abstracted: `decode`
 * stands for `Action.model_validate_json`, giving `None` where it raises
 * `ValidationError`. The wall clock that stamps a `Memory` is the parameter
 * `now`.
 */
module Actuator {
  import opened Wrappers
  import opened LlmReply
  import StreamHelper

  datatype Action = Action(action: string, reason: string)

  const NoActionReason: string := "No action suggested"

  /** What `load_action` returns for a "no action" reply. */
  const NoAction: Action := Action("", NoActionReason)

  datatype Notification = Notification(title: string, message: string)

  datatype Memory = Memory(message: string, timestamp: int)

  /**
   * `load_action` after the LLM call: the no-action answer for an empty or
   * `[ ... ]` reply, otherwise the reply cut down to its outer braces and
   * validated. `None` is the `ValidationError` the validation raises.
   */
  function LoadAction(reply: string, decode: string -> Option<Action>): (r: Option<Action>)
    ensures reply == [] ==> r == Some(NoAction)
    ensures (|reply| > 0 && reply[0] == '[' && exists k :: 1 <= k < |reply| && reply[k] == ']' && forall m :: 1 <= m < k ==> IsSpace(reply[m]))
              ==> r == Some(NoAction)
    ensures !IsNoActionReply(reply) && HasBracePair(reply) ==>
              r == decode(reply[FirstIndex(reply, '{').value..LastIndex(reply, '}').value + 1])
    ensures !IsNoActionReply(reply) && !HasBracePair(reply) ==> r == decode(reply)
  {
    if IsNoActionReply(reply) then Some(NoAction)
    else decode(ExtractBraces(reply))
  }

  /** The notification sent for an action: its title is the action, its message the reason. */
  function NotificationFor(a: Action): (n: Notification)
    ensures n.title == a.action && n.message == a.reason
  {
    Notification(a.action, a.reason)
  }

  /** The memory saved for an action: `"<action>: <reason>"`, stamped with the current time. */
  function MemoryFor(a: Action, now: int): (m: Memory)
    ensures |m.message| == |a.action| + 2 + |a.reason|
    ensures m.message[..|a.action|] == a.action
    ensures m.message[|a.action|..|a.action| + 2] == ": "
    ensures m.message[|a.action| + 2..] == a.reason
    ensures m.timestamp == now
  {
    Memory(a.action + ": " + a.reason, now)
  }

  /** The three publishes `main` gathers, each either sent or failed with the error it raises. */
  datatype Sends = Sends(
    notification: Result<StreamHelper.Publication<Notification>, StreamHelper.StreamError>,
    memory: Result<StreamHelper.Publication<Memory>, StreamHelper.StreamError>,
    upstream: Result<StreamHelper.Publication<Action>, StreamHelper.StreamError>)

  /**
   * The publish-only-if-non-empty decision. For a non-empty action, the
   * notification stream (subject `actionsSubject`), the memory stream
   * (subject `memorySubject`) and the upstream stream (subject
   * `upstreamSubject`) each publish through their model's JSON dump.
   */
  function Outbox(a: Action, actionsSubject: string, memorySubject: string, upstreamSubject: string, now: int): (r: Option<Sends>)
    ensures r.None? <==> a.action == ""
    ensures r.Some? ==> (r.value.notification.Success? <==> actionsSubject != "")
    ensures r.Some? ==> (r.value.memory.Success? <==> memorySubject != "")
    ensures r.Some? ==> (r.value.upstream.Success? <==> upstreamSubject != "")
    ensures r.Some? && r.value.notification.Success? ==>
              r.value.notification.value == StreamHelper.Publication(actionsSubject, StreamHelper.Body(Notification(a.action, a.reason), true))
    ensures r.Some? && r.value.memory.Success? ==>
              r.value.memory.value == StreamHelper.Publication(memorySubject, StreamHelper.Body(Memory(a.action + ": " + a.reason, now), true))
    ensures r.Some? && r.value.upstream.Success? ==>
              r.value.upstream.value == StreamHelper.Publication(upstreamSubject, StreamHelper.Body(a, true))
  {
    if a.action == "" then None
    else Some(Sends(
      StreamHelper.Publishing(Some(actionsSubject), true, NotificationFor(a)),
      StreamHelper.Publishing(Some(memorySubject), true, MemoryFor(a, now)),
      StreamHelper.Publishing(Some(upstreamSubject), true, a)))
  }

  /** What one run of `main` does once it has the LLM's reply. */
  datatype Decision = ValidationFailed | Quiet(reason: string) | Published(sends: Sends)

  function Decide(reply: string, decode: string -> Option<Action>,
                  actionsSubject: string, memorySubject: string, upstreamSubject: string, now: int): (d: Decision)
    ensures d.ValidationFailed? <==> LoadAction(reply, decode).None?
    ensures d.Quiet? <==> LoadAction(reply, decode).Some? && LoadAction(reply, decode).value.action == ""
    ensures d.Quiet? ==> d.reason == LoadAction(reply, decode).value.reason
    ensures d.Published? ==> Outbox(LoadAction(reply, decode).value, actionsSubject, memorySubject, upstreamSubject, now) == Some(d.sends)
  {
    match LoadAction(reply, decode)
    case None => ValidationFailed
    case Some(a) =>
      match Outbox(a, actionsSubject, memorySubject, upstreamSubject, now)
      case None => Quiet(a.reason)
      case Some(s) => Published(s)
  }

  /** A "no action" reply publishes nothing and logs the fixed reason, whatever the validator would say. */
  lemma NoActionReplyPublishesNothing(reply: string, decode: string -> Option<Action>,
                                      actionsSubject: string, memorySubject: string, upstreamSubject: string, now: int)
    requires IsNoActionReply(reply)
    ensures Decide(reply, decode, actionsSubject, memorySubject, upstreamSubject, now) == Quiet(NoActionReason)
  {
  }

  /** The three publishes are attempted iff the reply is not a "no action" reply and validates to a non-empty action. */
  lemma PublishedOnlyForAnAction(reply: string, decode: string -> Option<Action>,
                                 actionsSubject: string, memorySubject: string, upstreamSubject: string, now: int)
    ensures Decide(reply, decode, actionsSubject, memorySubject, upstreamSubject, now).Published?
            <==> !IsNoActionReply(reply) && decode(ExtractBraces(reply)).Some? && decode(ExtractBraces(reply)).value.action != ""
  {
  }

  /** Whether any of the three publishes goes out. */
  predicate AnySent(s: Sends) {
    s.notification.Success? || s.memory.Success? || s.upstream.Success?
  }

  /**
   * Something actually goes out iff the reply validates to a non-empty action
   * and at least one of the three subjects is non-empty; an empty subject
   * makes that stream's `publish` raise instead.
   */
  lemma SomethingSentIff(reply: string, decode: string -> Option<Action>,
                         actionsSubject: string, memorySubject: string, upstreamSubject: string, now: int)
    ensures var d := Decide(reply, decode, actionsSubject, memorySubject, upstreamSubject, now);
      (d.Published? && AnySent(d.sends))
      <==> && !IsNoActionReply(reply)
           && decode(ExtractBraces(reply)).Some?
           && decode(ExtractBraces(reply)).value.action != ""
           && (actionsSubject != "" || memorySubject != "" || upstreamSubject != "")
  {
  }

  /**
   * Cleaning a reply that is not a "no action" reply does not change what
   * `load_action` makes of it: a cleaned reply starts with `{`, so it is not
   * a "no action" reply either, and cleaning it again changes nothing.
   */
  lemma {:induction false} LoadActionOfCleanedReply(reply: string, decode: string -> Option<Action>)
    requires !IsNoActionReply(reply)
    ensures LoadAction(ExtractBraces(reply), decode) == LoadAction(reply, decode)
  {
    ExtractBracesIdempotent(reply);
    if HasBracePair(reply) {
      ExtractBracesShape(reply);
      assert !IsNoActionReply(ExtractBraces(reply));
    }
  }

  /** `re.match` anchors at the very start: an empty list after leading whitespace is not a "no action" reply. */
  lemma IndentedEmptyListIsValidated(decode: string -> Option<Action>)
    ensures LoadAction(" []", decode) == decode(" []")
    ensures LoadAction("[ ] no action", decode) == Some(NoAction)
  {
    assert !IsNoActionReply(" []");
    assert !HasBracePair(" []") by {
      assert FirstIndex(" []", '{').None?;
    }
    assert IsNoActionReply("[ ] no action") by {
      assert "[ ] no action"[2] == ']';
    }
  }

  /** The notification sent for an action gives back the action it was built from. */
  lemma NotificationRecoversAction(a: Action)
    ensures Action(NotificationFor(a).title, NotificationFor(a).message) == a
  {
  }

  /** When the action holds no colon, its memory message splits back into the action and the reason at the first colon. */
  lemma {:induction false} MemoryMessageSplits(a: Action, now: int)
    requires forall k :: 0 <= k < |a.action| ==> a.action[k] != ':'
    ensures FirstIndex(MemoryFor(a, now).message, ':') == Some(|a.action|)
    ensures MemoryFor(a, now).message[|a.action| + 2..] == a.reason
  {
    var msg := MemoryFor(a, now).message;
    assert msg[|a.action|] == ':';
    assert forall k :: 0 <= k < |a.action| ==> msg[k] == a.action[k];
    FirstIndexIsFirst(msg, ':', |a.action|);
  }

  /** Any position holding `c` with no `c` before it is where `FirstIndex` finds `c`. */
  lemma {:induction false} FirstIndexIsFirst(s: string, c: char, i: nat)
    requires i < |s| && s[i] == c
    requires forall k :: 0 <= k < i ==> s[k] != c
    ensures FirstIndex(s, c) == Some(i)
  {
    if s[0] != c {
      assert i > 0;
      FirstIndexIsFirst(s[1..], c, i - 1);
    }
  }

  /** With a colon in the action two different actions leave the same memory. */
  lemma MemoryMessageIsAmbiguous(now: int)
    ensures Action("a: b", "c") != Action("a", "b: c")
    ensures MemoryFor(Action("a: b", "c"), now) == MemoryFor(Action("a", "b: c"), now)
  {
  }
}
