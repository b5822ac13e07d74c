/** The talk bot (`runTalkBot`): make sure the conversation topic exists, reply
    to what is unread in it, then re-check it on every notification about it. */
module TalkBot {
  import opened WobbleTypes
  import Contacts
  import Replies

  /** The fixed id of the conversation topic, shared between runs. */
  const TalkTopicId: string := "c68c1a28-7c5a-11e2-844f-68a86d44bfa4"

  /** The service message that the bootstrap reads as "the topic does not exist yet". */
  const IllegalAccess: string := "Illegal Access!"

  /** The error classification of the bootstrap. */
  predicate MeansTopicMissing(e: ApiError)
  {
    e.WobbleApiError? && e.message == IllegalAccess
  }

  /** What the client answers during the bootstrap: the error of `GetTopic`
      (None when the fetch succeeded), the error of `CreateTopic`, and the
      result of `GetContacts`. What `AddContact`, `AddTopicReader` and
      `EditPost` return is ignored by the bot. */
  datatype BootstrapInputs = BootstrapInputs(
    getTopic: Option<ApiError>,
    createTopic: Option<ApiError>,
    contacts: Result<seq<User>, ApiError>)

  /** The bootstrap of `runTalkBot` on topic `topicId` with peer `otherUser`.
      A run that does not die ends `Finished`; the caller goes on. */
  function BootstrapRun(topicId: string, otherUser: string, b: BootstrapInputs): (r: Run)
    ensures r.outcome == Finished || r.outcome.Fatal?
    ensures |r.calls| > 0 && r.calls[0] == GetTopic(topicId)
    // A topic that can be fetched is left alone.
    ensures b.getTopic.None? ==> r == Run([GetTopic(topicId)], Finished)
    // Any fetch error other than "Illegal Access!" is fatal at once.
    ensures b.getTopic.Some? && !MeansTopicMissing(b.getTopic.value) ==>
              r == Run([GetTopic(topicId)], Fatal(TopicUnavailable))
    // A missing topic is created first; if that fails nothing else happens.
    ensures b.getTopic.Some? && MeansTopicMissing(b.getTopic.value) ==>
              |r.calls| >= 2 && r.calls[1] == CreateTopic(topicId) &&
              (b.createTopic.Some? <==> r.outcome == Fatal(TopicCreationFailed)) &&
              (b.createTopic.Some? ==> |r.calls| == 2)
    // Once created, the peer is added and looked up; a lookup below 1 is fatal
    // and then neither the reader nor the greeting is added.
    ensures b.getTopic.Some? && MeansTopicMissing(b.getTopic.value) && b.createTopic.None? ==>
              var id := Contacts.ContactId(b.contacts, otherUser);
              |r.calls| >= 4 &&
              r.calls[..4] == [GetTopic(topicId), CreateTopic(topicId), AddContact(otherUser), GetContacts] &&
              (id <= 0 ==> r == Run(r.calls[..4], Fatal(ContactNotFound(id)))) &&
              (id > 0 ==> r.outcome == Finished &&
                          r.calls[4..] == [AddTopicReader(topicId, id), EditPost(topicId, "1", "Hi " + otherUser, 1)])
    // A bootstrap that dies never grants access nor edits the root post.
    ensures r.outcome.Fatal? ==>
              forall k :: 0 <= k < |r.calls| ==> !r.calls[k].AddTopicReader? && !r.calls[k].EditPost?
  {
    match b.getTopic
    case None => Run([GetTopic(topicId)], Finished)
    case Some(err) =>
      if !MeansTopicMissing(err) then Run([GetTopic(topicId)], Fatal(TopicUnavailable))
      else if b.createTopic.Some? then Run([GetTopic(topicId), CreateTopic(topicId)], Fatal(TopicCreationFailed))
      else
        var provisioned := [GetTopic(topicId), CreateTopic(topicId), AddContact(otherUser), GetContacts];
        var id := Contacts.ContactId(b.contacts, otherUser);
        if id <= 0 then Run(provisioned, Fatal(ContactNotFound(id)))
        else Run(provisioned + [AddTopicReader(topicId, id), EditPost(topicId, "1", "Hi " + otherUser, 1)], Finished)
  }

  /** One item taken from the notification stream: a notification, with what
      the client would answer if the topic is re-checked for it, or an error. */
  datatype Delivery = Delivered(n: Notification, view: Replies.TopicView) | StreamError(e: ApiError)

  /** Handling one delivery `e`, where `rest` is what handling the later
      deliveries would do: a stream error is fatal, a notification about
      another topic is skipped, one about `topicId` re-checks the topic, and a
      check that dies ends the loop. */
  function Handle(topicId: string, currentUserId: int, e: Delivery, rest: Run): Run
  {
    match e
    case StreamError(_) => Run([GetNextNotification], Fatal(StreamFailed))
    case Delivered(n, v) =>
      if n.topicId != topicId then Prepend([GetNextNotification], rest)
      else
        var check := Replies.CheckTopicRun(topicId, currentUserId, v);
        if check.outcome.Fatal? then Prepend([GetNextNotification], check)
        else Prepend([GetNextNotification] + check.calls, rest)
  }

  /** The notification loop over the deliveries `events`, in delivery order.
      It ends `Listening` when every delivery was handled and the loop waits
      for the next one. */
  function DispatchRun(topicId: string, currentUserId: int, events: seq<Delivery>): (r: Run)
    ensures r.outcome == Listening || r.outcome.Fatal?
    decreases |events|
  {
    if events == [] then Run([], Listening)
    else Handle(topicId, currentUserId, events[0], DispatchRun(topicId, currentUserId, events[1..]))
  }

  /** What `runTalkBot` does once the topic exists: read the current user's
      id, check the topic once, subscribe, then run the notification loop,
      each step dying on failure. */
  function AfterBootstrap(currentUserId: Result<int, ApiError>, initial: Replies.TopicView,
                          events: seq<Delivery>): Run
  {
    match currentUserId
    case Failure(_) => Run([GetCurrentUserId], Fatal(CurrentUserIdUnavailable))
    case Success(me) =>
      var first := Replies.CheckTopicRun(TalkTopicId, me, initial);
      if first.outcome.Fatal? then Prepend([GetCurrentUserId], first)
      else Prepend([GetCurrentUserId] + first.calls + [SubscribeNotifications], DispatchRun(TalkTopicId, me, events))
  }

  /** The whole of `runTalkBot` with peer `otherUser`: the bootstrap and,
      unless it died, the rest. */
  function TalkBotRun(otherUser: string, b: BootstrapInputs, currentUserId: Result<int, ApiError>,
                      initial: Replies.TopicView, events: seq<Delivery>): Run
  {
    var boot := BootstrapRun(TalkTopicId, otherUser, b);
    if boot.outcome.Fatal? then boot
    else Prepend(boot.calls, AfterBootstrap(currentUserId, initial, events))
  }

  /** One step of the loop: handling `events[i..]` is handling `events[i]`,
      then, unless that died, `events[i + 1..]`. */
  lemma DispatchStep(topicId: string, currentUserId: int, events: seq<Delivery>, i: nat)
    requires i < |events|
    ensures DispatchRun(topicId, currentUserId, events[i..]) ==
            Handle(topicId, currentUserId, events[i], DispatchRun(topicId, currentUserId, events[i + 1..]))
  {
    assert events[i..][0] == events[i] && events[i..][1..] == events[i + 1..];
  }

  /** The `for {}` loop of `runTalkBot` over the deliveries `events`. */
  method NotificationLoop(topicId: string, currentUserId: int, events: seq<Delivery>)
    returns (calls: seq<Call>, outcome: Outcome)
    ensures Run(calls, outcome) == DispatchRun(topicId, currentUserId, events)
  {
    calls := [];
    var i := 0;
    while i < |events|
      invariant 0 <= i <= |events|
      invariant Prepend(calls, DispatchRun(topicId, currentUserId, events[i..])) ==
                DispatchRun(topicId, currentUserId, events)
    {
      DispatchStep(topicId, currentUserId, events, i);
      var step := [GetNextNotification];
      match events[i]
      case StreamError(_) =>
        return calls + step, Fatal(StreamFailed);
      case Delivered(n, v) =>
        if n.topicId == topicId {
          var checkCalls, checkOutcome := Replies.CheckTopic(topicId, currentUserId, v);
          step := step + checkCalls;
          if checkOutcome.Fatal? {
            return calls + step, checkOutcome;
          }
        }
      PrependPrepend(calls, step, DispatchRun(topicId, currentUserId, events[i + 1..]));
      calls := calls + step;
      i := i + 1;
    }
    assert events[i..] == [];
    outcome := Listening;
  }

  /** The bootstrap steps of `runTalkBot` (the `if err != nil` block after the
      first `GetTopic`), given what the client answers. */
  method Bootstrap(topicId: string, otherUser: string, b: BootstrapInputs)
    returns (calls: seq<Call>, outcome: Outcome)
    ensures Run(calls, outcome) == BootstrapRun(topicId, otherUser, b)
  {
    calls := [GetTopic(topicId)];
    if b.getTopic.Some? {
      if !MeansTopicMissing(b.getTopic.value) {
        return calls, Fatal(TopicUnavailable);
      }
      calls := calls + [CreateTopic(topicId)];
      if b.createTopic.Some? {
        return calls, Fatal(TopicCreationFailed);
      }
      calls := calls + [AddContact(otherUser), GetContacts];
      var otherUserId := Contacts.FindContactByEmail(b.contacts, otherUser);
      if otherUserId <= 0 {
        return calls, Fatal(ContactNotFound(otherUserId));
      }
      calls := calls + [AddTopicReader(topicId, otherUserId), EditPost(topicId, "1", "Hi " + otherUser, 1)];
    }
    outcome := Finished;
  }

  /** `runTalkBot`, given what the client answers along the way. */
  method RunTalkBot(otherUser: string, b: BootstrapInputs, currentUserId: Result<int, ApiError>,
                    initial: Replies.TopicView, events: seq<Delivery>)
    returns (calls: seq<Call>, outcome: Outcome)
    ensures Run(calls, outcome) == TalkBotRun(otherUser, b, currentUserId, initial, events)
  {
    var talkTopicId := TalkTopicId;
    var bootOutcome;
    calls, bootOutcome := Bootstrap(talkTopicId, otherUser, b);
    if bootOutcome.Fatal? {
      return calls, bootOutcome;
    }
    var rest := [GetCurrentUserId];
    if currentUserId.Failure? {
      return calls + rest, Fatal(CurrentUserIdUnavailable);
    }
    var me := currentUserId.value;
    var checkCalls, checkOutcome := Replies.CheckTopic(talkTopicId, me, initial);
    rest := rest + checkCalls;
    if checkOutcome.Fatal? {
      return calls + rest, checkOutcome;
    }
    rest := rest + [SubscribeNotifications];
    var loopCalls, loopOutcome := NotificationLoop(talkTopicId, me, events);
    calls, outcome := calls + (rest + loopCalls), loopOutcome;
  }

  /** Handling `a` then `b` is handling `a + b`, unless handling `a` already
      died: deliveries are consumed strictly in order and nothing is
      dispatched after a fatal one. */
  lemma {:induction false} DispatchAppend(topicId: string, currentUserId: int, a: seq<Delivery>, b: seq<Delivery>)
    ensures DispatchRun(topicId, currentUserId, a + b) ==
            if DispatchRun(topicId, currentUserId, a).outcome.Fatal? then DispatchRun(topicId, currentUserId, a)
            else Prepend(DispatchRun(topicId, currentUserId, a).calls, DispatchRun(topicId, currentUserId, b))
    decreases |a|
  {
    if a == [] {
      assert a + b == b;
    } else {
      var ab := a + b;
      assert ab[0] == a[0] && ab[1..] == a[1..] + b;
      var tail := DispatchRun(topicId, currentUserId, a[1..]);
      match a[0]
      case StreamError(_) =>
      case Delivered(n, v) =>
        if n.topicId != topicId {
          DispatchAppend(topicId, currentUserId, a[1..], b);
          assert DispatchRun(topicId, currentUserId, ab) ==
                 Prepend([GetNextNotification], DispatchRun(topicId, currentUserId, a[1..] + b));
          assert DispatchRun(topicId, currentUserId, a) == Prepend([GetNextNotification], tail);
        } else {
          var check := Replies.CheckTopicRun(topicId, currentUserId, v);
          if !check.outcome.Fatal? {
            DispatchAppend(topicId, currentUserId, a[1..], b);
            assert DispatchRun(topicId, currentUserId, ab) ==
                   Prepend([GetNextNotification] + check.calls, DispatchRun(topicId, currentUserId, a[1..] + b));
            assert DispatchRun(topicId, currentUserId, a) == Prepend([GetNextNotification] + check.calls, tail);
          }
        }
    }
  }

  /** A stream error ends the loop fatally: the deliveries after it are never
      taken from the stream. */
  lemma DispatchStopsAtStreamError(topicId: string, currentUserId: int, before: seq<Delivery>, e: ApiError, after: seq<Delivery>)
    requires DispatchRun(topicId, currentUserId, before).outcome == Listening
    ensures DispatchRun(topicId, currentUserId, before + [StreamError(e)] + after) ==
            Run(DispatchRun(topicId, currentUserId, before).calls + [GetNextNotification], Fatal(StreamFailed))
  {
    assert before + [StreamError(e)] + after == before + ([StreamError(e)] + after);
    DispatchAppend(topicId, currentUserId, before, [StreamError(e)] + after);
  }

  /** The number of deliveries that are notifications about `topicId`. */
  function Matching(events: seq<Delivery>, topicId: string): nat
  {
    if events == [] then 0
    else (if events[0].Delivered? && events[0].n.topicId == topicId then 1 else 0) + Matching(events[1..], topicId)
  }

  /** The number of `GetNextNotification` calls in a call log. */
  function Receives(calls: seq<Call>): nat
  {
    if calls == [] then 0
    else (if calls[0] == GetNextNotification then 1 else 0) + Receives(calls[1..])
  }

  lemma {:induction false} ReceivesAppend(a: seq<Call>, b: seq<Call>)
    ensures Receives(a + b) == Receives(a) + Receives(b)
  {
    if a == [] {
      assert a + b == b;
    } else {
      assert (a + b)[1..] == a[1..] + b;
      ReceivesAppend(a[1..], b);
    }
  }

  lemma {:induction false} ReceivesNone(calls: seq<Call>)
    requires forall k :: 0 <= k < |calls| ==> calls[k] != GetNextNotification
    ensures Receives(calls) == 0
  {
    if calls != [] {
      ReceivesNone(calls[1..]);
    }
  }

  /** Over a loop that is still listening, every delivery was taken from the
      stream once, and the topic was fetched (that is, `checkTopic` ran)
      exactly once per notification about the watched topic and for no other. */
  lemma {:induction false} DispatchChecksEachMatching(topicId: string, currentUserId: int, events: seq<Delivery>)
    requires DispatchRun(topicId, currentUserId, events).outcome == Listening
    ensures Receives(DispatchRun(topicId, currentUserId, events).calls) == |events|
    ensures Fetches(DispatchRun(topicId, currentUserId, events).calls) == Matching(events, topicId)
    decreases |events|
  {
    if events != [] {
      var rest := DispatchRun(topicId, currentUserId, events[1..]);
      var ev := events[0];
      assert ev.Delivered?;
      var step := if ev.n.topicId == topicId
                  then Replies.CheckTopicRun(topicId, currentUserId, ev.view).calls
                  else [];
      assert DispatchRun(topicId, currentUserId, events).calls == [GetNextNotification] + step + rest.calls;
      DispatchChecksEachMatching(topicId, currentUserId, events[1..]);
      if ev.n.topicId == topicId {
        CheckFetchesOnce(topicId, currentUserId, ev.view);
      }
      FetchesAppend([GetNextNotification], step);
      FetchesAppend([GetNextNotification] + step, rest.calls);
      ReceivesAppend([GetNextNotification], step);
      ReceivesAppend([GetNextNotification] + step, rest.calls);
    }
  }

  /** A check that does not die fetches the topic once and never reads the
      notification stream. */
  lemma CheckFetchesOnce(topicId: string, currentUserId: int, v: Replies.TopicView)
    requires Replies.CheckTopicRun(topicId, currentUserId, v).outcome == Finished
    ensures Receives(Replies.CheckTopicRun(topicId, currentUserId, v).calls) == 0
    ensures Fetches(Replies.CheckTopicRun(topicId, currentUserId, v).calls) == 1
  {
    var topic := v.fetched.value;
    var plan := Replies.ReplyPlan(topicId, topic.posts, currentUserId, v.attempts);
    assert Replies.CheckTopicRun(topicId, currentUserId, v).calls == [GetTopic(topicId)] + plan;
    Replies.ReplyPlanFetchesNothing(topicId, topic.posts, currentUserId, v.attempts);
    Replies.ReplyPlanOnlyEligible(topicId, topic.posts, currentUserId, v.attempts);
    forall k | 0 <= k < |plan| ensures plan[k] != GetNextNotification {
      assert plan[k] in plan;
    }
    ReceivesNone(plan);
    FetchesAppend([GetTopic(topicId)], plan);
    ReceivesAppend([GetTopic(topicId)], plan);
  }

  /** No call of `calls` creates a topic, adds a contact or grants read access. */
  predicate NoProvisioning(calls: seq<Call>)
  {
    forall k :: 0 <= k < |calls| ==>
      !calls[k].CreateTopic? && !calls[k].AddContact? && !calls[k].AddTopicReader?
  }

  lemma NoProvisioningAppend(a: seq<Call>, b: seq<Call>)
    requires NoProvisioning(a) && NoProvisioning(b)
    ensures NoProvisioning(a + b)
  {
    forall k | 0 <= k < |a + b|
      ensures !(a + b)[k].CreateTopic? && !(a + b)[k].AddContact? && !(a + b)[k].AddTopicReader?
    {
      if k < |a| { assert (a + b)[k] == a[k]; } else { assert (a + b)[k] == b[k - |a|]; }
    }
  }

  /** Checking the topic never provisions anything. */
  lemma CheckTopicProvisionsNothing(topicId: string, currentUserId: int, v: Replies.TopicView)
    ensures NoProvisioning(Replies.CheckTopicRun(topicId, currentUserId, v).calls)
  {
    if v.fetched.Success? {
      var posts := v.fetched.value.posts;
      var plan := Replies.ReplyPlan(topicId, posts, currentUserId, v.attempts);
      Replies.ReplyPlanOnlyEligible(topicId, posts, currentUserId, v.attempts);
      forall k | 0 <= k < |plan|
        ensures !plan[k].CreateTopic? && !plan[k].AddContact? && !plan[k].AddTopicReader?
      {
        assert plan[k] in plan;
      }
      NoProvisioningAppend([GetTopic(topicId)], plan);
    }
  }

  /** Neither does the notification loop. */
  lemma {:induction false} DispatchProvisionsNothing(topicId: string, currentUserId: int, events: seq<Delivery>)
    ensures NoProvisioning(DispatchRun(topicId, currentUserId, events).calls)
    decreases |events|
  {
    if events != [] {
      DispatchProvisionsNothing(topicId, currentUserId, events[1..]);
      var rest := DispatchRun(topicId, currentUserId, events[1..]).calls;
      match events[0]
      case StreamError(_) =>
      case Delivered(n, v) =>
        if n.topicId == topicId {
          var check := Replies.CheckTopicRun(topicId, currentUserId, v);
          CheckTopicProvisionsNothing(topicId, currentUserId, v);
          NoProvisioningAppend([GetNextNotification], check.calls);
          NoProvisioningAppend([GetNextNotification] + check.calls, rest);
        } else {
          NoProvisioningAppend([GetNextNotification], rest);
        }
    }
  }

  /** After the bootstrap nothing is provisioned any more. */
  lemma AfterBootstrapProvisionsNothing(currentUserId: Result<int, ApiError>, initial: Replies.TopicView,
                                        events: seq<Delivery>)
    ensures NoProvisioning(AfterBootstrap(currentUserId, initial, events).calls)
  {
    if currentUserId.Success? {
      var me := currentUserId.value;
      var first := Replies.CheckTopicRun(TalkTopicId, me, initial);
      CheckTopicProvisionsNothing(TalkTopicId, me, initial);
      NoProvisioningAppend([GetCurrentUserId], first.calls);
      if !first.outcome.Fatal? {
        DispatchProvisionsNothing(TalkTopicId, me, events);
        NoProvisioningAppend([GetCurrentUserId] + first.calls, [SubscribeNotifications]);
        NoProvisioningAppend([GetCurrentUserId] + first.calls + [SubscribeNotifications],
                             DispatchRun(TalkTopicId, me, events).calls);
      }
    }
  }

  /** A talk topic that can already be fetched is never created again, nor
      is the peer added or granted access: after the one `GetTopic` the bot
      goes straight on to reading the current user's id. */
  lemma ExistingTopicIsLeftAlone(otherUser: string, b: BootstrapInputs, currentUserId: Result<int, ApiError>,
                                 initial: Replies.TopicView, events: seq<Delivery>)
    requires b.getTopic.None?
    ensures var r := TalkBotRun(otherUser, b, currentUserId, initial, events);
            |r.calls| >= 2 && r.calls[..2] == [GetTopic(TalkTopicId), GetCurrentUserId] &&
            NoProvisioning(r.calls)
  {
    var rest := AfterBootstrap(currentUserId, initial, events);
    assert BootstrapRun(TalkTopicId, otherUser, b) == Run([GetTopic(TalkTopicId)], Finished);
    assert TalkBotRun(otherUser, b, currentUserId, initial, events) == Prepend([GetTopic(TalkTopicId)], rest);
    assert rest.calls[0] == GetCurrentUserId;
    AfterBootstrapProvisionsNothing(currentUserId, initial, events);
    NoProvisioningAppend([GetTopic(TalkTopicId)], rest.calls);
  }
}
