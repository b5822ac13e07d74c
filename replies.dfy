/** The unread-reply engine (`checkTopic`): which posts of the talk topic get a
    reply, and the calls issued for each of them. */
module Replies {
  import opened WobbleTypes
  import Contacts

  /** The canned reply bodies; one of them is picked at random per reply. */
  const Responses: seq<string> := [
    "What do you mean?",
    "I don't get you.",
    "Do you know <a href=\"http://devopsreactions.tumblr.com/\">DevOps Reactions</a>?",
    "Oh come ON!",
    "I'll be back!",
    "Kill me, NOW!"
  ]

  /** A value `rand.Intn(len(responses))` can return. */
  type ResponseIndex = i: nat | i < 6

  /** What the reply attempt for one post meets: whether `CreatePost`
      succeeded and which response the random generator would pick. The pick
      is drawn only when the create succeeded. */
  datatype Attempt = Attempt(created: bool, pick: ResponseIndex)

  /** What one `checkTopic` call observes: the `GetTopic` result and, for each
      post of the fetched topic in order, its `Attempt`. */
  datatype Observation = Observation(fetched: Result<Topic, ApiError>, attempts: seq<Attempt>)

  /** An observation with exactly one attempt per fetched post. */
  type TopicView = o: Observation
    | o.fetched.Success? ==> |o.attempts| == |o.fetched.value.posts|
    witness Observation(Failure(OtherError("")), [])

  /** A post needs a reply iff it is not deleted, unread, not locked and the
      current user is not among its users. */
  predicate Eligible(p: Post, currentUserId: int)
  {
    p.deleted != 1 && p.unread != 0 && !p.locked && currentUserId !in p.users
  }

  /** The id of the reply to `p`: the post id with "1" appended. */
  function ReplyId(p: Post): string
  {
    p.postId + "1"
  }

  /** Go's `^x`: bitwise complement of a two's-complement integer. */
  function BitNot(x: int): int
  {
    -x - 1
  }

  /** Go's `y & 1` on a two's-complement integer: its lowest bit, which is
      `y` modulo 2 (Dafny's `%` is Euclidean, so this holds for negative `y`). */
  function LowBit(y: int): int
  {
    y % 2
  }

  /** The direction passed with the reply's edit, `^IntendedPost & 1`. */
  function Direction(intendedPost: int): (d: int)
    ensures d == if intendedPost % 2 == 0 then 1 else 0
  {
    LowBit(BitNot(intendedPost))
  }

  /** The calls issued for one post of the topic. */
  function PostPlan(topicId: string, p: Post, currentUserId: int, a: Attempt): seq<Call>
  {
    if !Eligible(p, currentUserId) then []
    else
      var reply := ReplyId(p);
      if a.created then
        [CreatePost(topicId, reply, p.postId, true),
         EditPost(topicId, reply, Responses[a.pick], Direction(p.intendedPost)),
         ChangePostRead(topicId, p.postId, true)]
      else
        [CreatePost(topicId, reply, p.postId, true),
         ChangePostRead(topicId, p.postId, true)]
  }

  /** An ineligible post gets no calls. An eligible one gets the create of its
      reply first and is marked read last, whatever the create did; its reply
      is edited iff the create succeeded, right after the create. */
  lemma PostPlanShape(topicId: string, p: Post, currentUserId: int, a: Attempt)
    ensures |PostPlan(topicId, p, currentUserId, a)| ==
            if !Eligible(p, currentUserId) then 0 else if a.created then 3 else 2
    ensures PostPlan(topicId, p, currentUserId, a) == [] <==> !Eligible(p, currentUserId)
    ensures Eligible(p, currentUserId) ==>
              PostPlan(topicId, p, currentUserId, a)[0] == CreatePost(topicId, ReplyId(p), p.postId, true) &&
              PostPlan(topicId, p, currentUserId, a)[|PostPlan(topicId, p, currentUserId, a)| - 1] ==
                ChangePostRead(topicId, p.postId, true)
    ensures (exists k :: 0 <= k < |PostPlan(topicId, p, currentUserId, a)| &&
                         PostPlan(topicId, p, currentUserId, a)[k].EditPost?) <==>
              Eligible(p, currentUserId) && a.created
    ensures Eligible(p, currentUserId) && a.created ==>
              PostPlan(topicId, p, currentUserId, a)[1] ==
                EditPost(topicId, ReplyId(p), Responses[a.pick], Direction(p.intendedPost))
    ensures forall k :: 0 <= k < |PostPlan(topicId, p, currentUserId, a)| ==>
              PostPlan(topicId, p, currentUserId, a)[k].CreatePost? ||
              PostPlan(topicId, p, currentUserId, a)[k].EditPost? ||
              PostPlan(topicId, p, currentUserId, a)[k].ChangePostRead?
  {
    var plan := PostPlan(topicId, p, currentUserId, a);
    if Eligible(p, currentUserId) && a.created {
      assert plan[1].EditPost?;
    }
  }

  /** The calls issued for `posts`, post after post in topic order. */
  function ReplyPlan(topicId: string, posts: seq<Post>, currentUserId: int, attempts: seq<Attempt>): seq<Call>
    requires |attempts| == |posts|
    decreases |posts|
  {
    if posts == [] then []
    else
      var n := |posts| - 1;
      ReplyPlan(topicId, posts[..n], currentUserId, attempts[..n]) +
      PostPlan(topicId, posts[n], currentUserId, attempts[n])
  }

  /** Unfolding `ReplyPlan` once at the last post. */
  lemma ReplyPlanSnoc(topicId: string, posts: seq<Post>, currentUserId: int, attempts: seq<Attempt>, i: nat)
    requires |attempts| == |posts| && i < |posts|
    ensures ReplyPlan(topicId, posts[..i + 1], currentUserId, attempts[..i + 1]) ==
            ReplyPlan(topicId, posts[..i], currentUserId, attempts[..i]) +
            PostPlan(topicId, posts[i], currentUserId, attempts[i])
  {
    assert posts[..i + 1][..i] == posts[..i];
    assert attempts[..i + 1][..i] == attempts[..i];
  }

  /** What a whole `checkTopic` call does: fetch the topic, die if that fails,
      otherwise run the reply plan over its posts. */
  function CheckTopicRun(topicId: string, currentUserId: int, v: TopicView): Run
  {
    match v.fetched
    case Failure(_) => Run([GetTopic(topicId)], Fatal(TopicReadFailed))
    case Success(topic) =>
      Run([GetTopic(topicId)] + ReplyPlan(topicId, topic.posts, currentUserId, v.attempts), Finished)
  }

  /** `checkTopic`, given what the client answers during the call. */
  method CheckTopic(topicId: string, currentUserId: int, v: TopicView)
    returns (calls: seq<Call>, outcome: Outcome)
    ensures Run(calls, outcome) == CheckTopicRun(topicId, currentUserId, v)
  {
    calls := [GetTopic(topicId)];
    if v.fetched.Failure? {
      return calls, Fatal(TopicReadFailed);
    }
    var posts := v.fetched.value.posts;
    for i := 0 to |posts|
      invariant calls == [GetTopic(topicId)] + ReplyPlan(topicId, posts[..i], currentUserId, v.attempts[..i])
    {
      ReplyPlanSnoc(topicId, posts, currentUserId, v.attempts, i);
      AppendAssoc([GetTopic(topicId)], ReplyPlan(topicId, posts[..i], currentUserId, v.attempts[..i]),
                  PostPlan(topicId, posts[i], currentUserId, v.attempts[i]));
      var post := posts[i];
      var mine := Contacts.Contains(post.users, currentUserId);
      if post.deleted == 1 || post.unread == 0 || post.locked || mine {
        assert !Eligible(post, currentUserId);
        continue;
      }
      assert Eligible(post, currentUserId);
      var reply := post.postId + "1";
      var own := [CreatePost(topicId, reply, post.postId, true)];
      if v.attempts[i].created {
        own := own + [EditPost(topicId, reply, Responses[v.attempts[i].pick], Direction(post.intendedPost))];
      }
      own := own + [ChangePostRead(topicId, post.postId, true)];
      assert ReplyId(post) == reply;
      assert own == PostPlan(topicId, post, currentUserId, v.attempts[i]);
      calls := calls + own;
    }
    assert posts[..|posts|] == posts;
    assert v.attempts[..|posts|] == v.attempts;
    outcome := Finished;
  }

  /** The plan of a concatenation is the concatenation of the plans: posts are
      handled independently, in order. */
  lemma {:induction false} ReplyPlanAppend(topicId: string, currentUserId: int,
                                           p1: seq<Post>, a1: seq<Attempt>, p2: seq<Post>, a2: seq<Attempt>)
    requires |a1| == |p1| && |a2| == |p2|
    ensures ReplyPlan(topicId, p1 + p2, currentUserId, a1 + a2) ==
            ReplyPlan(topicId, p1, currentUserId, a1) + ReplyPlan(topicId, p2, currentUserId, a2)
    decreases |p2|
  {
    if p2 == [] {
      assert p1 + p2 == p1 && a1 + a2 == a1;
    } else {
      var n := |p2| - 1;
      var m := |p1| + n;
      var p, a := p1 + p2, a1 + a2;
      assert p[..m + 1] == p && a[..m + 1] == a;
      assert p[..m] == p1 + p2[..n] && a[..m] == a1 + a2[..n];
      assert p[m] == p2[n] && a[m] == a2[n];
      assert p2[..n + 1] == p2 && a2[..n + 1] == a2;
      calc {
        ReplyPlan(topicId, p, currentUserId, a);
        { ReplyPlanSnoc(topicId, p, currentUserId, a, m); }
        ReplyPlan(topicId, p1 + p2[..n], currentUserId, a1 + a2[..n]) + PostPlan(topicId, p2[n], currentUserId, a2[n]);
        { ReplyPlanAppend(topicId, currentUserId, p1, a1, p2[..n], a2[..n]); }
        ReplyPlan(topicId, p1, currentUserId, a1) + ReplyPlan(topicId, p2[..n], currentUserId, a2[..n]) +
        PostPlan(topicId, p2[n], currentUserId, a2[n]);
        { ReplyPlanSnoc(topicId, p2, currentUserId, a2, n); }
        ReplyPlan(topicId, p1, currentUserId, a1) + ReplyPlan(topicId, p2, currentUserId, a2);
      }
    }
  }

  /** The calls for post `i` form one block, after those of all earlier posts
      and before those of all later ones, whatever happened to the others. */
  lemma ReplyPlanAt(topicId: string, posts: seq<Post>, currentUserId: int, attempts: seq<Attempt>, i: nat)
    requires |attempts| == |posts| && i < |posts|
    ensures ReplyPlan(topicId, posts, currentUserId, attempts) ==
            ReplyPlan(topicId, posts[..i], currentUserId, attempts[..i]) +
            PostPlan(topicId, posts[i], currentUserId, attempts[i]) +
            ReplyPlan(topicId, posts[i + 1..], currentUserId, attempts[i + 1..])
  {
    assert posts == posts[..i + 1] + posts[i + 1..];
    assert attempts == attempts[..i + 1] + attempts[i + 1..];
    ReplyPlanAppend(topicId, currentUserId, posts[..i + 1], attempts[..i + 1], posts[i + 1..], attempts[i + 1..]);
    assert posts[..i + 1][..i] == posts[..i];
    assert attempts[..i + 1][..i] == attempts[..i];
  }

  /** Every eligible post is marked read, whether or not its reply was created. */
  lemma ReplyPlanMarksEveryEligible(topicId: string, posts: seq<Post>, currentUserId: int, attempts: seq<Attempt>, i: nat)
    requires |attempts| == |posts| && i < |posts|
    requires Eligible(posts[i], currentUserId)
    ensures ChangePostRead(topicId, posts[i].postId, true) in ReplyPlan(topicId, posts, currentUserId, attempts)
  {
    ReplyPlanAt(topicId, posts, currentUserId, attempts, i);
    var before := ReplyPlan(topicId, posts[..i], currentUserId, attempts[..i]);
    var own := PostPlan(topicId, posts[i], currentUserId, attempts[i]);
    var plan := ReplyPlan(topicId, posts, currentUserId, attempts);
    assert plan[|before| + |own| - 1] == own[|own| - 1];
  }

  /** Every call of the plan belongs to the plan of some eligible post, so
      ineligible posts cause no calls at all. */
  lemma {:induction false} ReplyPlanOnlyEligible(topicId: string, posts: seq<Post>, currentUserId: int, attempts: seq<Attempt>)
    requires |attempts| == |posts|
    ensures forall c :: c in ReplyPlan(topicId, posts, currentUserId, attempts) ==>
              exists i :: 0 <= i < |posts| && Eligible(posts[i], currentUserId) &&
                          c in PostPlan(topicId, posts[i], currentUserId, attempts[i])
    decreases |posts|
  {
    if posts != [] {
      var n := |posts| - 1;
      ReplyPlanOnlyEligible(topicId, posts[..n], currentUserId, attempts[..n]);
      forall c | c in ReplyPlan(topicId, posts, currentUserId, attempts)
        ensures exists i :: 0 <= i < |posts| && Eligible(posts[i], currentUserId) &&
                            c in PostPlan(topicId, posts[i], currentUserId, attempts[i])
      {
        if c in ReplyPlan(topicId, posts[..n], currentUserId, attempts[..n]) {
          var i :| 0 <= i < n && Eligible(posts[..n][i], currentUserId) &&
                   c in PostPlan(topicId, posts[..n][i], currentUserId, attempts[..n][i]);
          assert posts[..n][i] == posts[i] && attempts[..n][i] == attempts[i];
        } else {
          assert c in PostPlan(topicId, posts[n], currentUserId, attempts[n]);
        }
      }
    }
  }

  /** Every `EditPost` in `calls` comes right after a `CreatePost` of the same
      post in the same topic. */
  predicate EditsFollowCreates(calls: seq<Call>)
  {
    forall k :: 0 <= k < |calls| && calls[k].EditPost? ==>
      0 < k && calls[k - 1].CreatePost? && calls[k - 1].postId == calls[k].postId &&
      calls[k - 1].topicId == calls[k].topicId
  }

  /** An edit is always issued right after the create of the same reply post:
      a reply is edited only when its create succeeded. */
  lemma {:induction false} ReplyPlanEditFollowsCreate(topicId: string, posts: seq<Post>, currentUserId: int, attempts: seq<Attempt>)
    requires |attempts| == |posts|
    ensures EditsFollowCreates(ReplyPlan(topicId, posts, currentUserId, attempts))
    decreases |posts|
  {
    if posts != [] {
      var n := |posts| - 1;
      ReplyPlanEditFollowsCreate(topicId, posts[..n], currentUserId, attempts[..n]);
      var before := ReplyPlan(topicId, posts[..n], currentUserId, attempts[..n]);
      var own := PostPlan(topicId, posts[n], currentUserId, attempts[n]);
      var plan := before + own;
      assert plan == ReplyPlan(topicId, posts, currentUserId, attempts);
      forall k | 0 <= k < |plan| && plan[k].EditPost?
        ensures 0 < k && plan[k - 1].CreatePost? && plan[k - 1].postId == plan[k].postId &&
                plan[k - 1].topicId == plan[k].topicId
      {
        if k < |before| {
          assert before[k] == plan[k];
          assert plan[k - 1] == before[k - 1];
        } else {
          var j := k - |before|;
          assert own[j] == plan[k];
          assert Eligible(posts[n], currentUserId) && attempts[n].created;
          assert j == 1;
          assert plan[k - 1] == own[0];
        }
      }
    }
  }

  /** Apart from its first `GetTopic`, a `checkTopic` call fetches nothing: the
      reply plan itself holds no `GetTopic`. */
  lemma ReplyPlanFetchesNothing(topicId: string, posts: seq<Post>, currentUserId: int, attempts: seq<Attempt>)
    requires |attempts| == |posts|
    ensures Fetches(ReplyPlan(topicId, posts, currentUserId, attempts)) == 0
  {
    var plan := ReplyPlan(topicId, posts, currentUserId, attempts);
    ReplyPlanOnlyEligible(topicId, posts, currentUserId, attempts);
    forall k | 0 <= k < |plan| ensures !plan[k].GetTopic? {
      assert plan[k] in plan;
      var i :| 0 <= i < |posts| && Eligible(posts[i], currentUserId) &&
               plan[k] in PostPlan(topicId, posts[i], currentUserId, attempts[i]);
    }
    FetchesNone(plan);
  }

  /** A topic with an unread post "1" of nobody, and a read post "2": exactly
      one reply is created, for post "1", and only post "1" is marked read. */
  lemma ExampleOneUnreadPost(topicId: string, pick: ResponseIndex)
    ensures var posts := [Post("1", 0, 1, false, [], 0), Post("2", 0, 0, false, [], 0)];
            ReplyPlan(topicId, posts, 7, [Attempt(true, pick), Attempt(true, pick)]) ==
            [CreatePost(topicId, "11", "1", true),
             EditPost(topicId, "11", Responses[pick], 1),
             ChangePostRead(topicId, "1", true)]
  {
    var posts := [Post("1", 0, 1, false, [], 0), Post("2", 0, 0, false, [], 0)];
    var attempts := [Attempt(true, pick), Attempt(true, pick)];
    assert posts[..2] == posts && attempts[..2] == attempts;
    ReplyPlanSnoc(topicId, posts, 7, attempts, 1);
    ReplyPlanSnoc(topicId, posts, 7, attempts, 0);
    assert posts[..0] == [] && attempts[..0] == [];
    assert !Eligible(posts[1], 7) && Eligible(posts[0], 7);
    assert ReplyPlan(topicId, posts[..0], 7, attempts[..0]) == [];
    assert PostPlan(topicId, posts[1], 7, attempts[1]) == [];
    assert Direction(0) == 1;
    assert ReplyId(posts[0]) == "1" + "1" == "11";
    assert PostPlan(topicId, posts[0], 7, attempts[0]) ==
           [CreatePost(topicId, "11", "1", true),
            EditPost(topicId, "11", Responses[pick], 1),
            ChangePostRead(topicId, "1", true)];
  }
}
