/** The alternate scan bot (`runBot`): for every topic the search returns, it
    creates a post, edits it and deletes it again, giving up on that topic at
    the first step that fails. */
module ScanBot {
  import opened WobbleTypes

  /** The query of the topic search. */
  const RootQuery: string := "root"

  /** The body the scan bot writes into its post. */
  const Greeting: string := "Hello World from GoBot"

  /** What the client answers for one topic of the search result: the
      `GetTopic` result and whether `CreatePost` and `EditPost` succeeded.
      What `DeletePost` returns is only logged. */
  datatype TopicRound = TopicRound(fetched: Result<Topic, ApiError>, created: bool, edited: bool)

  /** The decimal digits of `n`, as `%d` prints it. */
  function DecimalString(n: nat): (s: string)
    ensures |s| > 0
    ensures forall k :: 0 <= k < |s| ==> '0' <= s[k] <= '9'
  {
    var digit := "0123456789"[n % 10];
    if n < 10 then [digit] else DecimalString(n / 10) + [digit]
  }

  /** The number the decimal digits `s` denote, most significant digit first. */
  function DigitsValue(s: string): nat
    requires forall k :: 0 <= k < |s| ==> '0' <= s[k] <= '9'
  {
    if s == [] then 0
    else DigitsValue(s[..|s| - 1]) * 10 + (s[|s| - 1] - '0') as nat
  }

  /** `DecimalString` is the `%d` rendering: it reads back as `n`, and has no
      leading zero unless `n` is zero. */
  lemma {:induction false} DecimalStringValue(n: nat)
    ensures DigitsValue(DecimalString(n)) == n
    ensures n > 0 ==> DecimalString(n)[0] != '0'
    decreases n
  {
    var s := DecimalString(n);
    var digit := "0123456789"[n % 10];
    assert (digit - '0') as nat == n % 10;
    if n >= 10 {
      DecimalStringValue(n / 10);
      assert s[..|s| - 1] == DecimalString(n / 10) && s[|s| - 1] == digit;
    }
  }

  /** The id of the scan bot's post in topic `topicId` when run as process `pid`. */
  function BotPostId(topicId: string, pid: nat): string
  {
    topicId + "-gobot-" + DecimalString(pid)
  }

  /** The calls issued for one topic `t` of the search result. The post id is
      built from the fetched topic's id, the calls go to the listed id. */
  function TopicPlan(t: TopicSummary, round: TopicRound, pid: nat): seq<Call>
  {
    match round.fetched
    case Failure(_) => [GetTopic(t.topicId)]
    case Success(topic) =>
      var postId := BotPostId(topic.topicId, pid);
      if !round.created then
        [GetTopic(t.topicId), CreatePost(t.topicId, postId, "1", true)]
      else if !round.edited then
        [GetTopic(t.topicId), CreatePost(t.topicId, postId, "1", true), EditPost(t.topicId, postId, Greeting, 1)]
      else
        [GetTopic(t.topicId), CreatePost(t.topicId, postId, "1", true), EditPost(t.topicId, postId, Greeting, 1),
         DeletePost(t.topicId, postId)]
  }

  /** Each step for a topic happens iff every earlier one succeeded: the fetch
      always, the create iff the fetch succeeded, the edit iff the create did
      too, the delete iff the edit did too. */
  lemma TopicPlanShape(t: TopicSummary, round: TopicRound, pid: nat)
    ensures var plan := TopicPlan(t, round, pid);
            |plan| > 0 && plan[0] == GetTopic(t.topicId) &&
            (|plan| >= 2 <==> round.fetched.Success?) &&
            (|plan| >= 3 <==> round.fetched.Success? && round.created) &&
            (|plan| == 4 <==> round.fetched.Success? && round.created && round.edited) &&
            |plan| <= 4
    ensures round.fetched.Success? ==>
              var plan := TopicPlan(t, round, pid);
              var postId := BotPostId(round.fetched.value.topicId, pid);
              plan[1] == CreatePost(t.topicId, postId, "1", true) &&
              (|plan| >= 3 ==> plan[2] == EditPost(t.topicId, postId, Greeting, 1)) &&
              (|plan| == 4 ==> plan[3] == DeletePost(t.topicId, postId))
  {
  }

  /** The calls issued for `topics`, topic after topic in search order. */
  function ScanPlan(topics: seq<TopicSummary>, rounds: seq<TopicRound>, pid: nat): seq<Call>
    requires |rounds| == |topics|
    decreases |topics|
  {
    if topics == [] then []
    else
      var n := |topics| - 1;
      ScanPlan(topics[..n], rounds[..n], pid) + TopicPlan(topics[n], rounds[n], pid)
  }

  /** The whole of `runBot`: fetch the current user and search the topics,
      dying if either fails, then scan every topic found. */
  function BotRun(currentUser: Result<User, ApiError>, search: Result<seq<TopicSummary>, ApiError>,
                  rounds: seq<TopicRound>, pid: nat): Run
    requires search.Success? ==> |rounds| == |search.value|
  {
    if currentUser.Failure? then Run([GetCurrentUser], Fatal(CurrentUserUnavailable))
    else if search.Failure? then Run([GetCurrentUser, SearchTopics(RootQuery)], Fatal(TopicListUnavailable))
    else Run([GetCurrentUser, SearchTopics(RootQuery)] + ScanPlan(search.value, rounds, pid), Finished)
  }

  /** Unfolding `ScanPlan` once at topic `i`. */
  lemma ScanPlanSnoc(topics: seq<TopicSummary>, rounds: seq<TopicRound>, pid: nat, i: nat)
    requires |rounds| == |topics| && i < |topics|
    ensures ScanPlan(topics[..i + 1], rounds[..i + 1], pid) ==
            ScanPlan(topics[..i], rounds[..i], pid) + TopicPlan(topics[i], rounds[i], pid)
  {
    assert topics[..i + 1][..i] == topics[..i];
    assert rounds[..i + 1][..i] == rounds[..i];
  }

  /** `runBot`, given what the client answers along the way; `pid` is the
      process id the post ids are built from. */
  method RunBot(currentUser: Result<User, ApiError>, search: Result<seq<TopicSummary>, ApiError>,
                rounds: seq<TopicRound>, pid: nat)
    returns (calls: seq<Call>, outcome: Outcome)
    requires search.Success? ==> |rounds| == |search.value|
    ensures Run(calls, outcome) == BotRun(currentUser, search, rounds, pid)
  {
    calls := [GetCurrentUser];
    if currentUser.Failure? {
      return calls, Fatal(CurrentUserUnavailable);
    }
    calls := calls + [SearchTopics(RootQuery)];
    if search.Failure? {
      return calls, Fatal(TopicListUnavailable);
    }
    var topics := search.value;
    var scan := [];
    for i := 0 to |topics|
      invariant scan == ScanPlan(topics[..i], rounds[..i], pid)
    {
      ScanPlanSnoc(topics, rounds, pid, i);
      var t := topics[i];
      var step := [GetTopic(t.topicId)];
      if rounds[i].fetched.Failure? {
        assert step == TopicPlan(t, rounds[i], pid);
        scan := scan + step;
        continue;
      }
      var postId := BotPostId(rounds[i].fetched.value.topicId, pid);
      step := step + [CreatePost(t.topicId, postId, "1", true)];
      if !rounds[i].created {
        assert step == TopicPlan(t, rounds[i], pid);
        scan := scan + step;
        continue;
      }
      step := step + [EditPost(t.topicId, postId, Greeting, 1)];
      if !rounds[i].edited {
        assert step == TopicPlan(t, rounds[i], pid);
        scan := scan + step;
        continue;
      }
      step := step + [DeletePost(t.topicId, postId)];
      assert step == TopicPlan(t, rounds[i], pid);
      scan := scan + step;
    }
    assert topics[..|topics|] == topics && rounds[..|topics|] == rounds;
    calls := calls + scan;
    outcome := Finished;
  }

  /** Topics are scanned independently and in order. */
  lemma {:induction false} ScanPlanAppend(t1: seq<TopicSummary>, r1: seq<TopicRound>,
                                          t2: seq<TopicSummary>, r2: seq<TopicRound>, pid: nat)
    requires |r1| == |t1| && |r2| == |t2|
    ensures ScanPlan(t1 + t2, r1 + r2, pid) == ScanPlan(t1, r1, pid) + ScanPlan(t2, r2, pid)
    decreases |t2|
  {
    if t2 == [] {
      assert t1 + t2 == t1 && r1 + r2 == r1;
    } else {
      var n := |t2| - 1;
      var m := |t1| + n;
      var t, r := t1 + t2, r1 + r2;
      assert t[..m + 1] == t && r[..m + 1] == r;
      assert t[..m] == t1 + t2[..n] && r[..m] == r1 + r2[..n];
      assert t[m] == t2[n] && r[m] == r2[n];
      assert t2[..n + 1] == t2 && r2[..n + 1] == r2;
      calc {
        ScanPlan(t, r, pid);
        { ScanPlanSnoc(t, r, pid, m); }
        ScanPlan(t1 + t2[..n], r1 + r2[..n], pid) + TopicPlan(t2[n], r2[n], pid);
        { ScanPlanAppend(t1, r1, t2[..n], r2[..n], pid); }
        ScanPlan(t1, r1, pid) + ScanPlan(t2[..n], r2[..n], pid) + TopicPlan(t2[n], r2[n], pid);
        { ScanPlanSnoc(t2, r2, pid, n); }
        ScanPlan(t1, r1, pid) + ScanPlan(t2, r2, pid);
      }
    }
  }

  /** The calls for topic `i` form one block after those of every earlier
      topic, whatever failed there: a failing step skips only the rest of its
      own topic. */
  lemma ScanPlanAt(topics: seq<TopicSummary>, rounds: seq<TopicRound>, pid: nat, i: nat)
    requires |rounds| == |topics| && i < |topics|
    ensures ScanPlan(topics, rounds, pid) ==
            ScanPlan(topics[..i], rounds[..i], pid) + TopicPlan(topics[i], rounds[i], pid) +
            ScanPlan(topics[i + 1..], rounds[i + 1..], pid)
  {
    assert topics == topics[..i + 1] + topics[i + 1..];
    assert rounds == rounds[..i + 1] + rounds[i + 1..];
    ScanPlanAppend(topics[..i + 1], rounds[..i + 1], topics[i + 1..], rounds[i + 1..], pid);
    ScanPlanSnoc(topics, rounds, pid, i);
  }

  /** Every topic of the search result is fetched exactly once. */
  lemma {:induction false} ScanVisitsEveryTopic(topics: seq<TopicSummary>, rounds: seq<TopicRound>, pid: nat)
    requires |rounds| == |topics|
    ensures Fetches(ScanPlan(topics, rounds, pid)) == |topics|
    decreases |topics|
  {
    if topics != [] {
      var n := |topics| - 1;
      ScanVisitsEveryTopic(topics[..n], rounds[..n], pid);
      var own := TopicPlan(topics[n], rounds[n], pid);
      FetchesAppend(ScanPlan(topics[..n], rounds[..n], pid), own);
      FetchesAppend([own[0]], own[1..]);
      assert own == [own[0]] + own[1..];
      assert forall k :: 0 <= k < |own[1..]| ==> own[1..][k] == own[k + 1];
      FetchesNone(own[1..]);
    }
  }

  /** In the scan, a post is edited only right after it was created, and
      deleted only right after it was edited. */
  predicate StepsInOrder(calls: seq<Call>)
  {
    (forall k :: 0 <= k < |calls| && calls[k].EditPost? ==>
       0 < k && calls[k - 1].CreatePost? && calls[k - 1].postId == calls[k].postId) &&
    (forall k :: 0 <= k < |calls| && calls[k].DeletePost? ==>
       0 < k && calls[k - 1].EditPost? && calls[k - 1].postId == calls[k].postId)
  }

  lemma {:induction false} ScanStepsInOrder(topics: seq<TopicSummary>, rounds: seq<TopicRound>, pid: nat)
    requires |rounds| == |topics|
    ensures StepsInOrder(ScanPlan(topics, rounds, pid))
    decreases |topics|
  {
    if topics != [] {
      var n := |topics| - 1;
      ScanStepsInOrder(topics[..n], rounds[..n], pid);
      var before := ScanPlan(topics[..n], rounds[..n], pid);
      var own := TopicPlan(topics[n], rounds[n], pid);
      var plan := before + own;
      assert plan == ScanPlan(topics, rounds, pid);
      forall k | 0 <= k < |plan|
        ensures (plan[k].EditPost? ==>
                   0 < k && plan[k - 1].CreatePost? && plan[k - 1].postId == plan[k].postId) &&
                (plan[k].DeletePost? ==>
                   0 < k && plan[k - 1].EditPost? && plan[k - 1].postId == plan[k].postId)
      {
        if k < |before| {
          assert before[k] == plan[k];
          if plan[k].EditPost? || plan[k].DeletePost? {
            assert plan[k - 1] == before[k - 1];
          }
        } else {
          var j := k - |before|;
          assert own[j] == plan[k];
          if plan[k].EditPost? || plan[k].DeletePost? {
            assert j != 0;
            assert plan[k - 1] == own[j - 1];
          }
        }
      }
    }
  }
}
