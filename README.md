# wobble-bot-go, modelled in Dafny

The wobble bot is a chat participant for the Wobble topic/post messaging
service. Through the `api` client it either scans the user's topics and
creates, edits and deletes a post in each (`runBot`), or keeps one
conversation topic with another user alive (`runTalkBot`). The talk bot
creates the topic on first use, replies to unread posts of other users, and
re-checks the topic on every push notification about it.

The client is not modelled. What each client operation returns is an input,
and each routine of the bot is modelled as the ordered log of client calls it
issues (`WobbleTypes.Call`) plus how it ends (`WobbleTypes.Outcome`):

- `Finished`: the routine returned.
- `Listening`: the talk bot's endless loop has handled every notification
  supplied and waits for the next one.
- `Fatal(cause)`: the process died in `log.Fatal`.

Each routine with a loop is a method that builds the log step by step. Each
such method is proved equal to a specification function (`ReplyPlan`,
`DispatchRun`, `ScanPlan`, ...). The lemmas beside those functions state what
the bot promises: which posts get replies, in what order, what a failure
skips, and when the process dies.

Modules, one per component of `main.go`:

- `WobbleTypes` (wobble_types.dfy): posts, topics, users, errors, the call log and outcomes.
- `Contacts` (contacts.dfy): `UserList.contains` and `findContactByEmail`.
- `Replies` (replies.dfy): `checkTopic`, the unread-reply engine.
- `TalkBot` (talk_bot.dfy): `runTalkBot`, i.e. bootstrap, first check and notification loop.
- `ScanBot` (scan_bot.dfy): `runBot`.

When `CreatePost` fails for a post, `checkTopic` skips only the edit; it still
marks the original post read (main.go:171). The bootstrap treats a failed
contact fetch (-2), a missing contact (-1) and a contact whose id is 0 or
negative in the same way: as a fatal failure (main.go:94).

## Model

| member | source | states |
|---|---|---|
| `Contacts.Contains` | main.go:132-139 | true iff the id is an element of the list; false on the empty list |
| `Contacts.FirstContactId` | main.go:66-71 | -1 when no contact has the email; otherwise the id of the first contact (lowest index) whose email matches |
| `Contacts.ContactId` | main.go:59-72 | -2 when fetching contacts failed; else the first matching contact's id; else -1 |
| `Contacts.FindContactByEmail` | main.go:59-72 | the early-return scan yields exactly that three-way result |
| `Replies.Direction` | main.go:169 | `^IntendedPost & 1` is 1 for an even IntendedPost and 0 for an odd one, negative values included |
| `Replies.PostPlanShape` | main.go:159-171 | an ineligible post gives no calls. An eligible one gives CreatePost(topic, id+"1", id, true) first and ChangePostRead(topic, id, true) last, whatever the create did. An EditPost appears iff the create succeeded; it carries responses[pick] and the parity direction |
| `Replies.CheckTopic` | main.go:143-176 | GetTopic first, and a fatal end if it fails. Otherwise the loop with its `continue` issues exactly the concatenated per-post plans, in topic order |
| `Replies.ReplyPlanAppend` | main.go:158-174 | the plan for two post lists one after the other is the first plan followed by the second |
| `Replies.ReplyPlanAt` | main.go:158-174 | post i's calls form one block, after all earlier posts' calls and before all later ones, whatever failed elsewhere |
| `Replies.ReplyPlanMarksEveryEligible` | main.go:165-171 | every eligible post is marked read, whether or not its reply was created |
| `Replies.ReplyPlanOnlyEligible` | main.go:158-162 | every call belongs to the plan of an eligible post, so ineligible posts cause no calls |
| `Replies.ReplyPlanEditFollowsCreate` | main.go:165-170 | every EditPost directly follows the CreatePost of the same reply id in the same topic |
| `Replies.ReplyPlanFetchesNothing` | main.go:153-174 | the reply loop holds no GetTopic; the only fetch of a check is its first call |
| `Replies.ExampleOneUnreadPost` | main.go:158-174 | for a topic with an unread post "1" and a read post "2", and current user 7, the only calls are create "11", edit "11" and mark "1" read |
| `TalkBot.BootstrapRun` | main.go:79-99 | a topic that can be fetched gives just GetTopic. Any error except a WobbleApiError "Illegal Access!" is fatal at once. Otherwise the order is CreateTopic, AddContact, contact lookup, AddTopicReader with the looked-up id, EditPost(topic, "1", "Hi "+peer, 1). It dies right after a failed CreateTopic, or after a lookup <= 0, and a dying bootstrap never adds a reader or edits |
| `TalkBot.Bootstrap` | main.go:79-99 | the early-return bootstrap issues exactly the calls and outcome of `BootstrapRun` |
| `TalkBot.NotificationLoop` | main.go:114-126 | the loop issues exactly `DispatchRun`: one GetNextNotification per delivery, a check only for the watched topic, and a fatal end on a stream error or a failed check |
| `TalkBot.RunTalkBot` | main.go:76-128 | bootstrap, GetCurrentUserId, first checkTopic, subscription and loop, each dying on failure, equal to `TalkBotRun` |
| `TalkBot.DispatchAppend` | main.go:114-126 | deliveries are handled strictly in order: handling a+b is handling a then b, and nothing follows a fatal step |
| `TalkBot.DispatchStopsAtStreamError` | main.go:115-119 | a stream error ends the loop fatally; later deliveries are never taken |
| `TalkBot.DispatchChecksEachMatching` | main.go:114-126 | for a loop still listening, the stream was read once per delivery, and the topic was checked exactly once per notification about it and for no other |
| `TalkBot.CheckFetchesOnce` | main.go:143-176 | a check that does not die fetches the topic exactly once and never reads the notification stream |
| `TalkBot.CheckTopicProvisionsNothing` | main.go:143-176 | a check never creates a topic, adds a contact or grants access |
| `TalkBot.DispatchProvisionsNothing` | main.go:114-126 | neither does the notification loop |
| `TalkBot.ExistingTopicIsLeftAlone` | main.go:79-110 | when the talk topic can be fetched, the run goes straight from GetTopic to GetCurrentUserId, and no CreateTopic, AddContact or AddTopicReader is issued anywhere |
| `ScanBot.DecimalString` | main.go:44 | the `%d` rendering of the pid is a non-empty string of decimal digits |
| `ScanBot.DecimalStringValue` | main.go:44 | that string reads back as the pid, and starts with a zero only when the pid is 0 |
| `ScanBot.TopicPlanShape` | main.go:38-55 | GetTopic comes first. CreatePost follows iff the fetch succeeded, EditPost iff the create did too, and DeletePost iff the edit did too. Each uses the post id "<topic>-gobot-<pid>" and the topic id from the search list |
| `ScanBot.RunBot` | main.go:21-56 | dies if GetCurrentUser or SearchTopics("root") fails. Otherwise it issues exactly the per-topic plans in search order, equal to `BotRun` |
| `ScanBot.ScanPlanAppend` | main.go:35-56 | the scan of two topic lists one after the other is the first scan followed by the second |
| `ScanBot.ScanPlanAt` | main.go:35-56 | topic i's calls form one block after those of every earlier topic; a failed step skips only the rest of its own topic |
| `ScanBot.ScanVisitsEveryTopic` | main.go:35-42 | every listed topic is fetched exactly once, even when earlier topics fail |
| `ScanBot.ScanStepsInOrder` | main.go:45-55 | a post is edited only right after its create, and deleted only right after its edit |

## Left out

- The `api` client (login, HTTP, topic and post operations, the notification transport) is not part of this model. Its answers are inputs: `BootstrapInputs`, `TopicView`, `Delivery`, `TopicRound`, and the `Result` parameters.
- The results of `AddContact`, `AddTopicReader`, the greeting `EditPost`, the reply `EditPost`, `ChangePostRead` and `DeletePost` are not inputs, because the bot ignores them or only logs them.
- `main`, `Connect`, `WobbleVersion`, `rand.Seed` and the deferred `Logout` are process set-up and tear-down around the client, so they are not modelled.
- `parseArguments` (flag parsing) is not modelled. It returns `false` exactly when `help`/`h` is set or a positional argument is present (main.go:187). An undefined flag or a malformed flag value makes `flag.Parse` end the process itself.
- `time.Sleep`, `log` and `fmt` output are not modelled: they do not change which calls are made.
- `os.Getpid()` is the parameter `pid` of `RunBot`.
- `rand.Intn(len(responses))` is not modelled as a generator. Each post's pick is an input in `Attempt`, bounded by `ResponseIndex` (< 6) and used only when the create succeeded, the only time the source draws one. So the model covers every sequence of draws but does not show that a fixed seed is reproducible.
- The endless `for {}` loop of `runTalkBot` is modelled over a finite list of deliveries. A run that consumes them all ends `Listening`.
- The deferred `subscription.Stop()` (main.go:127) is not modelled: it comes after a loop that never ends normally, so it is never reached. The `break` after `log.Fatal` (main.go:118) is dead code, because `log.Fatal` ends the process.
- The service's own state across calls is not modelled (for example, a post that stays unread because marking it failed). Each check of the topic receives its own independent `TopicView`.
- Go's `int` (32 or 64 bits) is modelled as an unbounded integer. Only `^x & 1` does arithmetic on it, and `LowBit(BitNot(x))` gives the same result for every value of either width.
- `SubscribeNotifications` has no error result in the source, so the model lets it only succeed.
- `TalkBot.ExistingTopicIsLeftAlone` does not rule out `EditPost` calls in the rest of the run, because replies are `EditPost`s. `TalkBot.BootstrapRun` states that a fetchable topic gets no greeting edit.
