# Hacker News client: a verified model

This project models the part of the Swift package `HackerNewsAPI` (oterodiaz/swift-hacker-news-api) that decides *what* its client hands back. It proves properties of that model in Dafny. The part that fetches data is not modelled.

What is modelled:

- **Wire decoding.** The item records (story, comment, poll, poll option, job), the user record, and the Algolia search records are decoded from a JSON value, following Swift's synthesized `Decodable`:
  - a non-optional member must be present, not null, and of the right type;
  - an optional member may be absent or null and then reads as none;
  - members the struct does not declare are ignored;
  - members are read in declaration order, and the first failure is thrown.
- **The `Item` union.** Its decoder reads a required string `type` and dispatches on it:
  - `job`, `story`, `comment`, `poll` and `pollOpt` each select their variant;
  - any other string gives `.unknown`, whose `id` is -1.
- **The two string enums.**
  - `HNList` maps to a store path;
  - `ItemType` maps to its raw value.
- **The client `HNClient`.**
  - The single store read `get`, and the store paths.
  - `getItems`: one task per requested id; the non-nil results are accumulated in arrival order and then sorted by the first index of each item's id in the request.
  - `getList` and `search`.
  - The authenticated actions: their paths and parameter maps, the `k=v&…` body, and the status gate on the reply.

Inputs the code takes from outside become parameters:

- the store's answer to each read;
- the HTTP reply to a search or an action;
- the order in which the task group hands results to `reduce(into:)`: any arrangement of the per-task outcomes;
- the dictionary's iteration order.

Modules:

- `Wrappers`: Option and Result.
- `Json`: JSON values and the member decoders; Swift `Int` is the 64-bit range.
- `Text`: decimal rendering, ASCII lower-casing, join and split.
- Record modules: `Stories`, `Comments`, `Polls`, `PollOpts` and `Jobs` (one per record), plus `Users` and `Algolia`.
- Enum modules: `HNLists` and `ItemTypes`.
- `Items`: the `Item` union.
- `Reassembly`: the filter-then-sort step of `getItems`, stated over an arrival order.
- `HNClient`: `get`, the paths, the `GetItems` method with its two loops, `getList` and `search`.
- `Actions`: the authenticated actions and the body builder as a method with a loop.

Where the code and its documentation differ, the model follows the code:

- Only the exact tag `pollOpt` selects a poll option. `ItemType`'s raw value `pollopt` therefore decodes to `.unknown`.
- Every unknown item has the id -1; unknown items are not distinct.
- A recognised tag whose payload fails to decode makes the whole `Item` decode throw. It does not fall back to `.unknown`.
- `search` always sends `tags=story`, and the `SearchType` enum is never consulted.

## Model

| member | source | states |
|---|---|---|
| Stories.Decoded | Sources/HackerNewsAPI/Models/Story.swift:10-37 | decoding gives story `s` exactly when each declared member of the object reads as `s`'s field; `kids` keeps its wire order, and an absent or null `kids`, `url` or `text` is none |
| Stories.MissingRequiredFails | Sources/HackerNewsAPI/Models/Story.swift:12-36 | a missing or null `id`, `descendants`, `by`, `score`, `title` or `time` makes the decode fail |
| Stories.IgnoresUndeclaredKeys | Sources/HackerNewsAPI/Models/Story.swift:10-37 | two objects that agree on the declared members decode alike, whatever other keys (such as `type`) they hold |
| Comments.Decoded | Sources/HackerNewsAPI/Models/Comment.swift:10-28 | decoding gives comment `c` exactly when the object holds its fields; `kids` keeps its order; `kids` and `text` may be absent |
| Comments.MissingRequiredFails | Sources/HackerNewsAPI/Models/Comment.swift:12-27 | a missing `id`, `by`, `parent` or `time` makes the decode fail |
| Comments.IgnoresUndeclaredKeys | Sources/HackerNewsAPI/Models/Comment.swift:10-28 | undeclared keys do not affect the result |
| Polls.Decoded | Sources/HackerNewsAPI/Models/Poll.swift:10-37 | decoding gives poll `p` exactly when the object holds its fields; `parts` and `kids` keep their order; `kids` and `text` may be absent |
| Polls.MissingRequiredFails | Sources/HackerNewsAPI/Models/Poll.swift:12-36 | a missing `id`, `descendants`, `by`, `parts`, `score`, `title` or `time` makes the decode fail |
| Polls.IgnoresUndeclaredKeys | Sources/HackerNewsAPI/Models/Poll.swift:10-37 | undeclared keys do not affect the result |
| PollOpts.Decoded | Sources/HackerNewsAPI/Models/PollOpt.swift:10-28 | decoding gives option `o` exactly when the object holds its fields; `poll` is the owning poll's id; `text` may be absent |
| PollOpts.MissingRequiredFails | Sources/HackerNewsAPI/Models/PollOpt.swift:12-27 | a missing `id`, `poll`, `by`, `score` or `time` makes the decode fail |
| PollOpts.IgnoresUndeclaredKeys | Sources/HackerNewsAPI/Models/PollOpt.swift:10-28 | keys such as `title`, `kids` or `descendants` do not affect the result |
| Jobs.Decoded | Sources/HackerNewsAPI/Models/Job.swift:10-28 | decoding gives job `j` exactly when the object holds its fields; `url` and `text` may be absent |
| Jobs.MissingRequiredFails | Sources/HackerNewsAPI/Models/Job.swift:12-27 | a missing `id`, `by`, `title` or `time` makes the decode fail |
| Jobs.IgnoresUndeclaredKeys | Sources/HackerNewsAPI/Models/Job.swift:10-28 | keys such as `score`, `kids` or `descendants` do not affect the result |
| Users.Decoded | Sources/HackerNewsAPI/Models/User.swift:12-27 | decoding gives user `u` exactly when the object holds its fields; `submitted` keeps its order; `about` may be absent |
| Users.RoundTrip | Sources/HackerNewsAPI/Models/User.swift:12 | encoding a user and decoding the result gives the same user back |
| Users.MissingRequiredFails | Sources/HackerNewsAPI/Models/User.swift:14-26 | a missing `id`, `created`, `karma` or `submitted` makes the decode fail |
| Users.IgnoresUndeclaredKeys | Sources/HackerNewsAPI/Models/User.swift:12-27 | undeclared keys do not affect the result |
| Users.EqualityIsNotByIdAlone | Sources/HackerNewsAPI/Models/User.swift:12 | two users with the same `id` but different karma are different: equality compares every field |
| Items.TagRequired | Sources/HackerNewsAPI/Models/Item.swift:24-27 | a missing, null or non-string `type` makes the decode fail, never `.unknown` |
| Items.UnknownExactlyForOtherTags | Sources/HackerNewsAPI/Models/Item.swift:29-42 | the decode gives `.unknown` if and only if `type` is a string other than the five recognised tags |
| Items.KnownTagSelectsVariant | Sources/HackerNewsAPI/Models/Item.swift:29-39 | each recognised tag gives its variant, decoded from the same object; if that payload fails, the whole decode fails with the payload's error |
| Items.LowercasePollOptIsUnknown | Sources/HackerNewsAPI/Models/Item.swift:38-41 | a record tagged with `ItemType`'s raw value `pollopt` decodes to `.unknown`, whose id is -1 |
| Items.ItemTypeTags | Sources/HackerNewsAPI/Models/Item.swift:29-41 | of the five `ItemType` raw values, exactly `pollopt` yields `.unknown` |
| Items.PollOptRecordExample | Sources/HackerNewsAPI/Models/Item.swift:38-41 | a valid poll-option record sent with `"type": "pollopt"` decodes as a `PollOpt` on its own, but as `.unknown` as an item |
| Items.DecodedIdIsWireId | Sources/HackerNewsAPI/Models/Item.swift:45-56 | the id of a decoded known item is the record's `id` member |
| Items.UnknownsShareId | Sources/HackerNewsAPI/Models/Item.swift:57-58 | every unknown item has the id -1 |
| ItemTypes.Decoded | Sources/HackerNewsAPI/Models/ItemType.swift:10-16 | a JSON value decodes to case `t` exactly when it is the string `t`'s raw value |
| ItemTypes.RoundTrip | Sources/HackerNewsAPI/Models/ItemType.swift:10 | encoding a case and decoding it gives the same case |
| ItemTypes.CamelCasePollOptRejected | Sources/HackerNewsAPI/Models/ItemType.swift:14 | the string `pollOpt` is not an `ItemType` and does not decode |
| ItemTypes.AllCasesComplete | Sources/HackerNewsAPI/Models/ItemType.swift:10-16 | `allCases` lists comment, job, poll, pollopt and story, in that order, with distinct raw values, and every case is among them |
| HNLists.RawValueCodec | Sources/HackerNewsAPI/Models/HNList.swift:10-17 | a string names list `l` exactly when it is `l`'s raw value, its case name |
| HNLists.RawValuesDistinct | Sources/HackerNewsAPI/Models/HNList.swift:11-16 | different lists have different raw values |
| HNLists.AllCasesComplete | Sources/HackerNewsAPI/Models/HNList.swift:10-17 | there are exactly six lists, pairwise distinct, in the order top, best, new, ask, show, job |
| Algolia.SearchTypeCases | Sources/HackerNewsAPI/Models/Algolia.swift:10-12 | a search type is exactly one of `exactMatch` and `mostRecent` |
| Algolia.DecodeResults | Sources/HackerNewsAPI/Models/Algolia.swift:14-16 | decoded results come from an object whose `hits` is an array, and they hold one hit per element, in order |
| Algolia.HitsRequired | Sources/HackerNewsAPI/Models/Algolia.swift:14-16 | results without `hits` fail to decode |
| Algolia.HitDecoded | Sources/HackerNewsAPI/Models/Algolia.swift:26-31 | a hit decodes to `h` exactly when the object's `objectID` is the string `h.id` |
| Algolia.HitRoundTrip | Sources/HackerNewsAPI/Models/Algolia.swift:26-31 | encoding a hit and decoding it gives the same hit, because both directions use the key `objectID` |
| Algolia.CommentDecoded | Sources/HackerNewsAPI/Models/Algolia.swift:18-24 | a comment decodes to `c` exactly when the object's `storyId` is the number `c.storyID` |
| Algolia.CommentRoundTrip | Sources/HackerNewsAPI/Models/Algolia.swift:18-24 | encoding a comment and decoding it gives the same comment |
| Algolia.ResultsRoundTrip | Sources/HackerNewsAPI/Models/Algolia.swift:14-16 | encoding results and decoding them gives the same hits in the same order |
| HNClient.Get | Sources/HackerNewsAPI/HNClient.swift:43-56 | a read error is rethrown; the result is a value exactly when the snapshot has data that decodes, and then it is the decoded value; otherwise `cannotDecodeRawData` |
| HNClient.NoDataCannotDecode | Sources/HackerNewsAPI/HNClient.swift:47-53 | a snapshot without data fails with `cannotDecodeRawData` for every requested type |
| HNClient.ListIdsAreStoredIds | Sources/HackerNewsAPI/HNClient.swift:83 | a list read gives exactly the stored id array, in stored order |
| HNClient.UserReadRoundTrip | Sources/HackerNewsAPI/HNClient.swift:78-80 | reading a stored user's encoding gives that user |
| HNClient.ItemPath | Sources/HackerNewsAPI/HNClient.swift:75 | an item path starts with `item/` |
| HNClient.ItemPathRoundTrip | Sources/HackerNewsAPI/HNClient.swift:75 | the part of an item path after `item/` parses back to the id |
| HNClient.ItemPathInjective | Sources/HackerNewsAPI/HNClient.swift:75 | different ids give different item paths |
| HNClient.UserPathInjective | Sources/HackerNewsAPI/HNClient.swift:79 | different user names give different user paths |
| HNClient.ListPathValues | Sources/HackerNewsAPI/HNClient.swift:83 | the six list paths are `topstories`, `beststories`, `newstories`, `askstories`, `showstories` and `jobstories` |
| HNClient.ListPathsDistinct | Sources/HackerNewsAPI/HNClient.swift:83 | different lists have different paths |
| HNClient.ListPathIsNotItemOrUserPath | Sources/HackerNewsAPI/HNClient.swift:75-83 | a list path is never an item path or a user path |
| HNClient.TaskOutcome | Sources/HackerNewsAPI/HNClient.swift:61 | a task gives an item exactly when its `getItem` succeeds; any failure becomes nil |
| HNClient.LaunchTasks | Sources/HackerNewsAPI/HNClient.swift:60-62 | one task per input element, duplicates included, each reading that element's item path |
| HNClient.Accumulate | Sources/HackerNewsAPI/HNClient.swift:64-68 | the loop accumulates exactly the non-nil outcomes, in arrival order |
| HNClient.GetItems | Sources/HackerNewsAPI/HNClient.swift:58-72 | one item path is read per input element; the result traps exactly when two or more items arrived and one of them was not requested; otherwise it is a permutation of exactly the successful outcomes, sorted by first index in the request, of length at most the input's |
| HNClient.EmptyRequest | Sources/HackerNewsAPI/HNClient.swift:58-72 | an empty request delivers an empty list |
| HNClient.GetList | Sources/HackerNewsAPI/HNClient.swift:82-86 | the list's path is read; a failed list read is rethrown before any item is read; otherwise the stored ids are fetched as `getItems` fetches them |
| HNClient.PlanSearch | Sources/HackerNewsAPI/HNClient.swift:98-100 | a connection error is rethrown; a status outside 200...299 gives no results; a success status with a body that decodes gives one id per hit, in hit order; anything else throws |
| HNClient.Search | Sources/HackerNewsAPI/HNClient.swift:88-103 | with no results nothing is read and the answer is empty; a thrown error reads nothing; otherwise the hit ids go to `getItems` in hit order |
| HNClient.RejectedStatusIgnoresBody | Sources/HackerNewsAPI/HNClient.swift:99 | outside 200...299 the answer is empty, whatever the body holds |
| Reassembly.Successes | Sources/HackerNewsAPI/HNClient.swift:64-68 | the accumulator is never longer than the outcomes it is built from |
| Reassembly.SuccessesCount | Sources/HackerNewsAPI/HNClient.swift:64-68 | each item is accumulated exactly as often as it arrived; every nil is dropped |
| Reassembly.SuccessesRespectPermutation | Sources/HackerNewsAPI/HNClient.swift:64-68 | two arrival orders of the same outcomes accumulate the same items, up to order |
| Reassembly.FirstIndex | Sources/HackerNewsAPI/HNClient.swift:70 | `firstIndex(of:)` is none exactly when the id is absent; otherwise it is a position of the id with no earlier occurrence |
| Reassembly.SortByRank | Sources/HackerNewsAPI/HNClient.swift:70 | the sort gives a permutation of its input in non-decreasing order of first index |
| Reassembly.Reassemble | Sources/HackerNewsAPI/HNClient.swift:64-70 | a trap happens exactly when the accumulator has two or more items and one was not requested; otherwise the result is the accumulator permuted into sorted order |
| Reassembly.TrapRespectsPermutation | Sources/HackerNewsAPI/HNClient.swift:70 | whether the sort traps does not depend on the arrival order |
| Reassembly.SortedRanksAgree | Sources/HackerNewsAPI/HNClient.swift:70 | every sorted arrangement of the same items has the same sequence of first indices |
| Reassembly.ArrivalOrderIrrelevant | Sources/HackerNewsAPI/HNClient.swift:64-70 | for every two arrival orders of the same outcomes, the trap is the same and so are the delivered items and the sequence of their ids |
| Reassembly.ArrangementReassembly | Sources/HackerNewsAPI/HNClient.swift:60-70 | for any arrival order, the trap and the delivered items are determined by the outcomes in request order |
| Reassembly.RequestOrderRestored | Sources/HackerNewsAPI/HNClient.swift:60-70 | when each success answers the first request for its id, the result is exactly the successes in request order |
| Reassembly.DistinctIdsComeBackInOrder | Sources/HackerNewsAPI/HNClient.swift:70 | with distinct ids, every fetch succeeding and each item carrying its requested id, the ids come back exactly as requested |
| Reassembly.PartialFailureExample | Sources/HackerNewsAPI/HNClient.swift:61-70 | a request for 5, 9, 9 and 12 in which both fetches of 9 fail delivers item 5, then item 12, in any arrival order |
| Reassembly.UnknownTraps | Sources/HackerNewsAPI/HNClient.swift:70 | an unknown item among two or more results traps unless -1 was requested |
| Actions.CredentialsInEveryAction | Sources/HackerNewsAPI/HNClient.swift:150-236 | every action sends `acct` and `pw` as its own user name and password |
| Actions.VoteMapsDifferOnlyInHow | Sources/HackerNewsAPI/HNClient.swift:174-198 | upvote and downvote post to `/vote` with the same keys and values, except `how`, which is `up` or `down` |
| Actions.UnfavIsFavPlusUn | Sources/HackerNewsAPI/HNClient.swift:200-224 | unfav posts to the same path as fav, with fav's map plus `un=t` |
| Actions.Rendered | Sources/HackerNewsAPI/HNClient.swift:131-132 | the rendered parameters have exactly the map's keys |
| Actions.FormBody | Sources/HackerNewsAPI/HNClient.swift:131-134 | the body is the `k=v` entries in iteration order joined by `&`; when no key holds `&` or `=` and no value holds `&`, reading it back gives every parameter with its rendered value |
| Actions.FormBodyRoundTrip | Sources/HackerNewsAPI/HNClient.swift:131-134 | the read-back property of the body, for every iteration order |
| Actions.ActionFormSafe | Sources/HackerNewsAPI/HNClient.swift:150-236 | an action's parameter map has no separator out of place exactly when its user name, password and reply text hold no `&`; the fixed keys and the rendered ids are always safe |
| Actions.ActionBodyReadsBack | Sources/HackerNewsAPI/HNClient.swift:131-134 | for every iteration order, an action's body reads back as its rendered parameters if and only if its user name, password and reply text hold no `&` |
| Actions.AmpersandValueNeverReadsBack | Sources/HackerNewsAPI/HNClient.swift:131-134 | a parameter whose rendered value holds `&` is never read back, whatever the body |
| Actions.ReadValuesLackAmpersand | Sources/HackerNewsAPI/HNClient.swift:134 | no value a form reader takes from a `&`-joined body holds `&` |
| Actions.AmpersandSplitsValue | Sources/HackerNewsAPI/HNClient.swift:131-135 | the value `b&c` under `pw` gives the body `pw=b&c`, which reads back as `pw=b` plus a stray key `c` |
| Actions.PasswordEntry | Sources/HackerNewsAPI/HNClient.swift:150-236 | the password `b&c` of any action reaches the body as the entry `pw=b&c` |
| Actions.EscapedFormBodyRoundTrip | Sources/HackerNewsAPI/HNClient.swift:131-135 | once keys and values are escaped, every parameter map reads back exactly, for every iteration order |
| Actions.EscapedBodyKeepsAmpersand | Sources/HackerNewsAPI/HNClient.swift:148-157 | with escaping, the log-in password `b&c` reads back as `b&c` |
| Actions.ActionOutcome | Sources/HackerNewsAPI/HNClient.swift:142-145 | an action succeeds exactly on a status in 200...299; a connection error is rethrown; any other status is `badServerResponse` |
| Actions.Perform | Sources/HackerNewsAPI/HNClient.swift:120-146 | the request goes to the action's path, and its body is the joined entries; the body reads back exactly when the credentials and text hold no `&`; success exactly on a status in 200...299 |

## Left out

- Firebase: configuring the app, the database reference, the `v0` child and `getData`. Each store answer is an input (`StoreReply`), and decoding a snapshot's data from bytes is not modelled.
- The JSON value is the parsed form. Numbers are integers only, so fractional numbers are not modelled: a fractional `Date` is modelled as whole seconds since 1970, and a fractional number where a Swift `Int` is expected is not modelled. An integer outside the 64-bit range fails with a data-corruption error.
- A `URL` member is an opaque string. URL validity and `URLComponents` building, with its `badURL` error, are not modelled.
- The query items `search` sends (`query`, `tags=story`) are not modelled.
- Snake-case key conversion is not modelled as a step: every record is modelled with its keys after conversion. A wire key `story_id` is therefore the model's `storyId`, and the wire spelling is not modelled.
- Logging has only side effects.
- Cookie state is not modelled: `isLoggedIn`, `logOut`, the log-out before each action's POST, and the value `logIn` returns. It lives in `HTTPCookieStorage`.
- Task-group scheduling is not modelled. The arrival order of outcomes is a parameter, and cancellation becomes a dropped result, as `try?` makes it.
- The forced cast of the response to `HTTPURLResponse` is not modelled; the status code is an input.
- Percent-encoding with the query-allowed set is only described, not modelled. That set keeps letters, digits, `&` and `=` as they are. The body is modelled before that step, and the form reader is modelled without percent-decoding.
- HNClient.PlanSearch: the projection from a hit to an item id is a parameter. The code reads `storyId`, which `AlgoliaSearchHit` does not declare, so the intended field is not known.
- Reassembly.SortByRank: the library sort is modelled as an insertion sort. Swift does not promise a stable `sorted(by:)`, so every property is stated for any sorted permutation; only the sequence of ids is claimed to be the same across arrival orders. The force unwrap is modelled as trapping exactly when the comparator meets an unrequested id: with two or more items every item is compared, and with fewer the comparator never runs.
- Users.RoundTrip: the source never encodes a `User`. The round trip assumes an encoder that writes dates as seconds since 1970, matching the decoder.

## Findings

| source | as written | input that shows it | evidently intended | confidence | as-written member | corrected member |
|---|---|---|---|---|---|---|
| Sources/HackerNewsAPI/HNClient.swift:131-135 | the body joins raw `key=value` entries with `&`; the percent-encoding that follows leaves `&` and `=` as they are | a password (or user name, or reply text) `b&c`: the body carries `pw=b&c`, which a form reader takes as `pw=b` and a stray parameter `c` | each parameter reaches the server with its value intact, which needs keys and values escaped before they are joined | not executed; the encoding set's treatment of `&` and `=` is Foundation behaviour | Actions.AmpersandSplitsValue | Actions.EscapedFormBodyRoundTrip |

`Actions.Perform` and `Actions.FormBody` build the body as the code does. The escaped body, `Actions.EscapedFormBody`, is the corrected definition, and its round trip is proved for every parameter map.
