/** The values the bot exchanges with the messaging-service client (the `api`
    package), and the log of client calls that every bot routine produces.

    The client itself is not modelled: what each of its operations returns is
    an input of the routine that calls it, and what the routine does is the
    ordered sequence of `Call`s it issues plus the `Outcome` it ends with. */
module WobbleTypes {

  datatype Option<+T> = None | Some(value: T)

  datatype Result<+T, +E> = Success(value: T) | Failure(error: E)

  /** An error value returned by the client. `WobbleApiError(m)` stands for an
      error whose dynamic type is `api.WobbleApiError` with `Message == m`;
      `OtherError` stands for any other error value. */
  datatype ApiError = WobbleApiError(message: string) | OtherError(description: string)

  /** A contact of the current user. */
  datatype User = User(userId: int, email: string)

  /** One post of a topic, with the fields the bot reads. `deleted` and `unread`
      are the integer flags the service sends; `locked` stands for a non-nil
      `Lock`; `users` are the ids of the users attached to the post. */
  datatype Post = Post(
    postId: string,
    deleted: int,
    unread: int,
    locked: bool,
    users: seq<int>,
    intendedPost: int)

  datatype Topic = Topic(topicId: string, posts: seq<Post>)

  /** One entry of a topic search result. */
  datatype TopicSummary = TopicSummary(topicId: string)

  /** A push notification; only the topic it refers to matters to the bot. */
  datatype Notification = Notification(topicId: string)

  /** A call the bot makes on the client, with the arguments it passes. */
  datatype Call =
    | GetCurrentUser
    | SearchTopics(query: string)
    | GetTopic(topicId: string)
    | CreateTopic(topicId: string)
    | AddContact(email: string)
    | GetContacts
    | AddTopicReader(topicId: string, userId: int)
    | CreatePost(topicId: string, postId: string, parentId: string, intended: bool)
    | EditPost(topicId: string, postId: string, body: string, direction: int)
    | DeletePost(topicId: string, postId: string)
    | ChangePostRead(topicId: string, postId: string, read: bool)
    | GetCurrentUserId
    | SubscribeNotifications
    | GetNextNotification

  /** Why a routine ended the process with `log.Fatal`. */
  datatype FatalCause =
    | CurrentUserUnavailable      // runBot: GetCurrentUser failed
    | TopicListUnavailable        // runBot: SearchTopics failed
    | TopicUnavailable            // runTalkBot: GetTopic failed with an unexpected error
    | TopicCreationFailed         // runTalkBot: CreateTopic failed
    | ContactNotFound(lookup: int) // runTalkBot: the contact lookup gave an id <= 0
    | CurrentUserIdUnavailable    // runTalkBot: GetCurrentUserId failed
    | TopicReadFailed             // checkTopic: GetTopic failed
    | StreamFailed                // runTalkBot: GetNextNotification failed

  /** How a routine ends: it returned, it is still blocked waiting for the next
      notification (the talk bot's loop never returns), or the process died. */
  datatype Outcome = Finished | Listening | Fatal(cause: FatalCause)

  /** The calls a routine issued, in order, and how it ended. */
  datatype Run = Run(calls: seq<Call>, outcome: Outcome)

  /** The run `r` seen after `pre` was issued first. */
  function Prepend(pre: seq<Call>, r: Run): (r': Run)
    ensures r'.outcome == r.outcome && |r'.calls| == |pre| + |r.calls|
    ensures r'.calls[..|pre|] == pre && r'.calls[|pre|..] == r.calls
  {
    Run(pre + r.calls, r.outcome)
  }

  lemma AppendAssoc(a: seq<Call>, b: seq<Call>, c: seq<Call>)
    ensures a + (b + c) == (a + b) + c
  {
  }

  lemma PrependPrepend(a: seq<Call>, b: seq<Call>, r: Run)
    ensures Prepend(a, Prepend(b, r)) == Prepend(a + b, r)
  {
    AppendAssoc(a, b, r.calls);
  }

  /** The number of `GetTopic` calls in a call log. */
  function Fetches(calls: seq<Call>): nat
  {
    if calls == [] then 0
    else (if calls[0].GetTopic? then 1 else 0) + Fetches(calls[1..])
  }

  lemma {:induction false} FetchesAppend(a: seq<Call>, b: seq<Call>)
    ensures Fetches(a + b) == Fetches(a) + Fetches(b)
  {
    if a == [] {
      assert a + b == b;
    } else {
      assert (a + b)[1..] == a[1..] + b;
      FetchesAppend(a[1..], b);
    }
  }

  lemma {:induction false} FetchesNone(calls: seq<Call>)
    requires forall k :: 0 <= k < |calls| ==> !calls[k].GetTopic?
    ensures Fetches(calls) == 0
  {
    if calls != [] {
      FetchesNone(calls[1..]);
    }
  }
}
