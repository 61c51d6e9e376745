# Omeglin matchmaking and contributor ranking, modelled in Dafny

This project models three pieces of the Javalin website repository.

**The Omeglin matchmaking broker** (`Matchmaker.kt`). It is a WebSocket server object that pairs anonymous
users for a WebRTC video chat. It keeps a queue of *exchanges*. Each exchange has a first user `a`
(the offerer), a second user `b` (the answerer, `null` while the exchange waits) and a `doneCount`.
It handles these events:
- PAIRING_START: drop the user's stale exchanges, then join the first waiting exchange or queue a new one.
- PAIRING_ABORT, also run when a connection closes: tell the partner PARTNER_LEFT and remove the exchange.
- PAIRING_DONE: count one more done event, then remove every exchange whose count reached 2.
- SDP_OFFER, SDP_ANSWER and SDP_ICE_CANDIDATE: forward the message to the partner of a complete pair.

In the model:
- Connections are user identities (`nat`).
- A send is a `Send(to, message)` appended to an outbox.
- The queue is an ordered `seq<Exchange>`. An in-place change to an exchange is a positional update of that sequence.
- Each event is a pure step function (`Start`, `Abort`, `Done`, `Relay`, `Dispatch`) that returns the new queue and the messages sent.
- The class `Matchmaker` holds `queue` and `outbox` and performs the same steps imperatively. Each method is proved to keep the queue invariant and to match its step function.

The queue invariant (`Matchmaking.Inv`) has four parts:
- every exchange has a first user;
- nobody is paired with themself;
- the count is 0 or 1;
- no user is in two exchanges.

**The contributor ranking scripts** (`_data/update-contributors.js` and `_data/update_contributors.py`).
Each builds the "top contributors" list shown on the website from the GitHub API.
- The JavaScript script sums contributions per login over the responses of seven repositories. It also records each login's avatar, then sorts, drops `dependabot[bot]` and keeps 15.
- The Python script skips forked repositories and counts only records of type `User`. It keeps the first record seen per login and adds later counts into it, then sorts and keeps 15.

In the model:
- The API responses are inputs and the list is the result.
- The accumulation loops are methods that update an insertion-ordered dictionary (`Dicts.Dict`, standing for the JavaScript `Map` and the Python `dict`).
- Each loop is proved equal to a left fold over the records (`Counts`, `Avatars`, `Tally`).
- The properties of the result are proved about those folds.
- The sort is a stable insertion sort, descending (`Ranking.SortDesc`).

Modules, in dependency order: `Wrappers`, `Collections` (Kotlin's `find`, `removeAll`, `remove`), `Signaling`
(message names and messages), `Exchanges`, `Matchmaking`, `Scenarios`, `GitHub` (API records), `Dicts`,
`Ranking`, `ContributorsJs`, `ContributorsPy`.

## Model

Source paths are relative to the repository root.

| member | source | states |
|---|---|---|
| Exchanges.OtherUser | _posts/tutorials/2024-01-13-omeglin/snippets/main/kotlin/io/javalin/omeglin/Matchmaker.kt:11 | for a user in a complete pair of two distinct users, the result is the partner: present, not the user, and the pair is exactly {user, partner}; for the first user of a waiting exchange, the result is null (the empty slot `b`); for a user in neither slot, the result is `a` |
| Exchanges.OtherUserSwaps | _posts/tutorials/2024-01-13-omeglin/snippets/main/kotlin/io/javalin/omeglin/Matchmaker.kt:11 | in a complete pair of two distinct users, the partner's partner is the user |
| Collections.Find | _posts/tutorials/2024-01-13-omeglin/snippets/main/kotlin/io/javalin/omeglin/Matchmaker.kt:30 | `find` yields the first element satisfying the predicate, and yields nothing exactly when no element does |
| Collections.RemoveAll | _posts/tutorials/2024-01-13-omeglin/snippets/main/kotlin/io/javalin/omeglin/Matchmaker.kt:62 | `removeAll` leaves no element satisfying the predicate and never grows the queue |
| Collections.RemoveAllMembers | _posts/tutorials/2024-01-13-omeglin/snippets/main/kotlin/io/javalin/omeglin/Matchmaker.kt:42 | `removeAll` keeps only elements that were in the queue |
| Collections.RemoveAllNone | _posts/tutorials/2024-01-13-omeglin/snippets/main/kotlin/io/javalin/omeglin/Matchmaker.kt:62 | `removeAll` with a predicate no element satisfies changes nothing |
| Collections.RemoveAllKeeps | _posts/tutorials/2024-01-13-omeglin/snippets/main/kotlin/io/javalin/omeglin/Matchmaker.kt:62 | an element the predicate does not select survives `removeAll` |
| Collections.RemoveAllPreserves | _posts/tutorials/2024-01-13-omeglin/snippets/main/kotlin/io/javalin/omeglin/Matchmaker.kt:62 | a property of every element still holds of every element after `removeAll` |
| Collections.RemoveAllAppend | _posts/tutorials/2024-01-13-omeglin/snippets/main/kotlin/io/javalin/omeglin/Matchmaker.kt:62 | `removeAll` keeps the order of the survivors: it distributes over concatenation |
| Collections.RemoveAllSingle | _posts/tutorials/2024-01-13-omeglin/snippets/main/kotlin/io/javalin/omeglin/Matchmaker.kt:62 | when exactly one element is selected, `removeAll` deletes exactly that position |
| Collections.Remove | _posts/tutorials/2024-01-13-omeglin/snippets/main/kotlin/io/javalin/omeglin/Matchmaker.kt:56 | `remove(ex)` shortens the queue by one when `ex` is in it, changes nothing otherwise, and keeps only elements of the queue |
| Collections.RemoveFirstEqual | _posts/tutorials/2024-01-13-omeglin/snippets/main/kotlin/io/javalin/omeglin/Matchmaker.kt:56 | `remove(q[i])` deletes position `i` when no earlier element is equal to `q[i]` |
| Collections.FindLast | _data/update-contributors.js:27 | the last element satisfying the predicate, and nothing exactly when none does |
| Collections.FindSnoc | _data/update_contributors.py:19-22 | appending a record changes the first match only when nothing before it matched |
| Matchmaking.SendTo | _posts/tutorials/2024-01-13-omeglin/snippets/main/kotlin/io/javalin/omeglin/Matchmaker.kt:35 | `to?.send(message)` as a value: one send when the slot is filled, none through null; its uses are stated by `AbortRemovesExchange` and `StartPairsFirstWaiting` |
| Matchmaking.Start | _posts/tutorials/2024-01-13-omeglin/snippets/main/kotlin/io/javalin/omeglin/Matchmaker.kt:41-51 | `pairingStart` as a step; specified by `StartPlacesUserOnce`, `StartPairsFirstWaiting`, `StartQueuesWhenNoneWaiting`, `StartKeepsOtherPairs` and `StartKeepsInv` |
| Matchmaking.Relay | _posts/tutorials/2024-01-13-omeglin/snippets/main/kotlin/io/javalin/omeglin/Matchmaker.kt:29-36 | the SDP branch as a step; specified by `RelayForwardsToPartner` and `RelayFromUnpairedIsDropped` |
| Matchmaking.Abort | _posts/tutorials/2024-01-13-omeglin/snippets/main/kotlin/io/javalin/omeglin/Matchmaker.kt:53-58 | `pairingAbort` as a step; specified by `AbortRemovesExchange`, `AbortWithoutExchangeIsNoop`, `AbortFreesBoth` and `AbortKeepsInv` |
| Matchmaking.Done | _posts/tutorials/2024-01-13-omeglin/snippets/main/kotlin/io/javalin/omeglin/Matchmaker.kt:60-63 | `pairingDone` as a step; specified by `DoneCountsOnce`, `DoneWithoutExchangeIsNoop`, `DoneKeepsInv` and `DoneTwiceBySameUserRemoves` |
| Matchmaking.Dispatch | _posts/tutorials/2024-01-13-omeglin/snippets/main/kotlin/io/javalin/omeglin/Matchmaker.kt:25-37 | the `when (message.name)` dispatch as a step; specified by `UnhandledNameIsIgnored`, `DispatchKeepsInv` and the lemmas of each branch |
| Matchmaking.Unqueue | _posts/tutorials/2024-01-13-omeglin/snippets/main/kotlin/io/javalin/omeglin/Matchmaker.kt:42 | after the guard against double queueing, no exchange holds the user, every exchange left was queued before, and every exchange without the user is kept |
| Matchmaking.UnqueueKeepsInv | _posts/tutorials/2024-01-13-omeglin/snippets/main/kotlin/io/javalin/omeglin/Matchmaker.kt:42 | the guard keeps the queue invariant |
| Matchmaking.DisjointCons | _posts/tutorials/2024-01-13-omeglin/snippets/main/kotlin/io/javalin/omeglin/Matchmaker.kt:17 | a queue is disjoint exactly when its tail is and its head shares no user with the tail |
| Matchmaking.DisjointUnique | _posts/tutorials/2024-01-13-omeglin/snippets/main/kotlin/io/javalin/omeglin/Matchmaker.kt:17 | in a disjoint queue, two exchanges holding the same user are the same exchange |
| Matchmaking.RemoveAllKeepsDisjoint | _posts/tutorials/2024-01-13-omeglin/snippets/main/kotlin/io/javalin/omeglin/Matchmaker.kt:42 | `removeAll` keeps users in at most one exchange |
| Matchmaking.RemoveKeepsDisjoint | _posts/tutorials/2024-01-13-omeglin/snippets/main/kotlin/io/javalin/omeglin/Matchmaker.kt:56 | `remove` keeps users in at most one exchange |
| Matchmaking.StartKeepsInv | _posts/tutorials/2024-01-13-omeglin/snippets/main/kotlin/io/javalin/omeglin/Matchmaker.kt:41-51 | `pairingStart` keeps the queue invariant |
| Matchmaking.StartPlacesUserOnce | _posts/tutorials/2024-01-13-omeglin/snippets/main/kotlin/io/javalin/omeglin/Matchmaker.kt:42-50 | from any queue, after `pairingStart(u)` the user is in exactly one exchange and is not paired with themself |
| Matchmaking.StartPairsFirstWaiting | _posts/tutorials/2024-01-13-omeglin/snippets/main/kotlin/io/javalin/omeglin/Matchmaker.kt:43-47 | the first waiting exchange gets `b = u` and nothing else changes; PARTNER_FOUND with GO_FIRST goes to its `a` (not `u`), then PARTNER_FOUND without data to `u`; no exchange is added |
| Matchmaking.StartQueuesWhenNoneWaiting | _posts/tutorials/2024-01-13-omeglin/snippets/main/kotlin/io/javalin/omeglin/Matchmaker.kt:48-50 | with nobody waiting, a fresh exchange `(u, null, 0)` is appended and nothing is sent |
| Matchmaking.StartKeepsOtherPairs | _posts/tutorials/2024-01-13-omeglin/snippets/main/kotlin/io/javalin/omeglin/Matchmaker.kt:42-50 | every complete pair of other users is still in the queue, unchanged, after `pairingStart(u)` |
| Matchmaking.DuplicateStartIsIdempotent | _posts/tutorials/2024-01-13-omeglin/snippets/main/kotlin/io/javalin/omeglin/Matchmaker.kt:42-50 | when a start found nobody waiting and queued the user alone, a second start from that user gives the same queue and sends nothing |
| Matchmaking.RestartDropsPartnerSilently | _posts/tutorials/2024-01-13-omeglin/snippets/main/kotlin/io/javalin/omeglin/Matchmaker.kt:42-50 | a paired user who starts again removes the partner from the queue, and the partner is sent nothing |
| Matchmaking.FindMemberIsOnly | _posts/tutorials/2024-01-13-omeglin/snippets/main/kotlin/io/javalin/omeglin/Matchmaker.kt:30 | in a disjoint queue, `find` of the user's exchange yields the only exchange that holds the user |
| Matchmaking.RelayForwardsToPartner | _posts/tutorials/2024-01-13-omeglin/snippets/main/kotlin/io/javalin/omeglin/Matchmaker.kt:29-36 | an SDP message from a user in a complete pair is sent unchanged, once, to the partner only; the queue is unchanged |
| Matchmaking.RelayFromUnpairedIsDropped | _posts/tutorials/2024-01-13-omeglin/snippets/main/kotlin/io/javalin/omeglin/Matchmaker.kt:29-34 | an SDP message from a user in no exchange, or in one with an empty slot, sends nothing and changes nothing |
| Matchmaking.AbortRemovesExchange | _posts/tutorials/2024-01-13-omeglin/snippets/main/kotlin/io/javalin/omeglin/Matchmaker.kt:53-58 | `pairingAbort` deletes exactly the user's exchange, keeps every other exchange in order, and sends PARTNER_LEFT to the other slot when it is filled |
| Matchmaking.AbortWithoutExchangeIsNoop | _posts/tutorials/2024-01-13-omeglin/snippets/main/kotlin/io/javalin/omeglin/Matchmaker.kt:54 | `pairingAbort` from a user in no exchange changes nothing and sends nothing |
| Matchmaking.AbortFreesBoth | _posts/tutorials/2024-01-13-omeglin/snippets/main/kotlin/io/javalin/omeglin/Matchmaker.kt:53-58 | after an abort neither the user nor the partner is queued; the partner of a complete pair is the only one told (PARTNER_LEFT), and a waiting user's abort sends nothing |
| Matchmaking.AbortKeepsInv | _posts/tutorials/2024-01-13-omeglin/snippets/main/kotlin/io/javalin/omeglin/Matchmaker.kt:53-58 | `pairingAbort` keeps the queue invariant |
| Matchmaking.NoneFinished | _posts/tutorials/2024-01-13-omeglin/snippets/main/kotlin/io/javalin/omeglin/Matchmaker.kt:62 | no queued exchange has reached a count of 2 |
| Matchmaking.CountKeepsDisjoint | _posts/tutorials/2024-01-13-omeglin/snippets/main/kotlin/io/javalin/omeglin/Matchmaker.kt:61 | `doneCount++` leaves users in at most one exchange |
| Matchmaking.CountAt | _posts/tutorials/2024-01-13-omeglin/snippets/main/kotlin/io/javalin/omeglin/Matchmaker.kt:61-62 | after one more done on an exchange, `removeAll` keeps it at count 1 or deletes exactly its position |
| Matchmaking.DoneCountsOnce | _posts/tutorials/2024-01-13-omeglin/snippets/main/kotlin/io/javalin/omeglin/Matchmaker.kt:60-63 | `pairingDone` raises the user's exchange from 0 to 1 and keeps it, or removes it at 2; no other exchange changes and nothing is sent |
| Matchmaking.DoneWithoutExchangeIsNoop | _posts/tutorials/2024-01-13-omeglin/snippets/main/kotlin/io/javalin/omeglin/Matchmaker.kt:60-63 | `pairingDone` from a user in no exchange changes nothing |
| Matchmaking.RemoveFinishedLeavesQueued | _posts/tutorials/2024-01-13-omeglin/snippets/main/kotlin/io/javalin/omeglin/Matchmaker.kt:62 | after `removeAll { doneCount == 2 }` every count left is below 2 |
| Matchmaking.DoneKeepsInv | _posts/tutorials/2024-01-13-omeglin/snippets/main/kotlin/io/javalin/omeglin/Matchmaker.kt:60-63 | `pairingDone` keeps the queue invariant, so every queued exchange keeps `doneCount < 2` |
| Matchmaking.DoneTwiceBySameUserRemoves | _posts/tutorials/2024-01-13-omeglin/snippets/main/kotlin/io/javalin/omeglin/Matchmaker.kt:60-63 | the count is of events, not users: one user's two PAIRING_DONE events remove the pair |
| Matchmaking.UnhandledNameIsIgnored | _posts/tutorials/2024-01-13-omeglin/snippets/main/kotlin/io/javalin/omeglin/Matchmaker.kt:25-37 | a message name outside the six handled names changes neither the queue nor the outbox |
| Matchmaking.DispatchKeepsInv | _posts/tutorials/2024-01-13-omeglin/snippets/main/kotlin/io/javalin/omeglin/Matchmaker.kt:25-37 | every message event keeps the queue invariant |
| Matchmaking.Matchmaker.constructor | _posts/tutorials/2024-01-13-omeglin/snippets/main/kotlin/io/javalin/omeglin/Matchmaker.kt:17 | the broker starts with an empty queue and nothing sent, which satisfies the invariant |
| Matchmaking.Matchmaker.Notify | _posts/tutorials/2024-01-13-omeglin/snippets/main/kotlin/io/javalin/omeglin/Matchmaker.kt:35 | `to?.send(message)` appends one send when `to` is present and nothing otherwise, changing nothing else |
| Matchmaking.Matchmaker.OnMessage | _posts/tutorials/2024-01-13-omeglin/snippets/main/kotlin/io/javalin/omeglin/Matchmaker.kt:22-38 | the dispatch keeps the invariant; the new queue and the appended sends are those of `Dispatch` |
| Matchmaking.Matchmaker.OnClose | _posts/tutorials/2024-01-13-omeglin/snippets/main/kotlin/io/javalin/omeglin/Matchmaker.kt:21 | a close is an abort: same queue and same sends as `pairingAbort` |
| Matchmaking.Matchmaker.PairingStart | _posts/tutorials/2024-01-13-omeglin/snippets/main/kotlin/io/javalin/omeglin/Matchmaker.kt:41-51 | keeps the invariant; the new queue and the appended sends are those of `Start` |
| Matchmaking.Matchmaker.PairingAbort | _posts/tutorials/2024-01-13-omeglin/snippets/main/kotlin/io/javalin/omeglin/Matchmaker.kt:53-58 | keeps the invariant; the new queue and the appended sends are those of `Abort` |
| Matchmaking.Matchmaker.PairingDone | _posts/tutorials/2024-01-13-omeglin/snippets/main/kotlin/io/javalin/omeglin/Matchmaker.kt:60-63 | keeps the invariant; the new queue is that of `Done` and nothing is sent |
| Scenarios.FirstStartWaits | _posts/tutorials/2024-01-13-omeglin/snippets/main/kotlin/io/javalin/omeglin/Matchmaker.kt:48-50 | the first user to start waits alone |
| Scenarios.SecondStartPairs | _posts/tutorials/2024-01-13-omeglin/snippets/main/kotlin/io/javalin/omeglin/Matchmaker.kt:43-47 | the second user joins the first, who is told to go first |
| Scenarios.ThirdStartWaits | _posts/tutorials/2024-01-13-omeglin/snippets/main/kotlin/io/javalin/omeglin/Matchmaker.kt:48-50 | a third user, with the first pair complete, queues a new exchange |
| Scenarios.FourthStartPairs | _posts/tutorials/2024-01-13-omeglin/snippets/main/kotlin/io/javalin/omeglin/Matchmaker.kt:43-47 | a fourth user joins the third |
| Scenarios.FourStartsFormTwoPairs | _posts/tutorials/2024-01-13-omeglin/snippets/main/kotlin/io/javalin/omeglin/Matchmaker.kt:41-51 | users 1 to 4 starting in order form the pairs (1, 2) and (3, 4), with 1 and 3 going first |
| Scenarios.AbortThenRelayIsDropped | _posts/tutorials/2024-01-13-omeglin/snippets/main/kotlin/io/javalin/omeglin/Matchmaker.kt:29-36 | after 1 aborts the pair (1, 2), only 2 is told, and 2's later SDP_ANSWER is dropped |
| Scenarios.BothDonesRemovePair | _posts/tutorials/2024-01-13-omeglin/snippets/main/kotlin/io/javalin/omeglin/Matchmaker.kt:60-63 | the pair (1, 2) stays queued at count 1 after one PAIRING_DONE and is removed after the partner's |
| GitHub.FlattenAppears | _data/update-contributors.js:20-25 | a login is among all the records read exactly when it is in one of the repository responses |
| GitHub.SumForAppend | _data/update-contributors.js:20-35 | a login's total over several responses is the sum of its per-response totals |
| GitHub.SumForAbsent | _data/update-contributors.js:28-32 | a login that does not appear totals zero |
| GitHub.AppearsSnoc | _data/update-contributors.js:25 | a login appears in the records read so far exactly when it appeared before the last record or is the last record's |
| Dicts.Put | _data/update-contributors.js:27-31 | `Map.set` / `dict[k] = v`; specified by `PutKeepsValid` and `GetAfterPut` |
| Dicts.Empty | _data/update-contributors.js:17-18 | a new `Map` / `{}` is empty and well formed |
| Dicts.PutKeepsValid | _data/update-contributors.js:27-31 | `set` keeps every key once, maps the key to the new value, puts a new key last and leaves an existing key in its place |
| Dicts.GetAfterPut | _data/update-contributors.js:29 | `get` after `set` yields the value just set for that key, and what it yielded before for every other key |
| ContributorsJs.CountsValid | _data/update-contributors.js:28-32 | the `contributions` Map holds every login once, and its key sequence holds exactly its keys |
| ContributorsJs.Counts | _data/update-contributors.js:28-32 | the `contributions` Map after the records read so far; specified by `CountsValid` and `CountsAreSums` |
| ContributorsJs.Avatars | _data/update-contributors.js:27 | the `avatars` Map after the records read so far; specified by `AvatarsLastWins` |
| ContributorsJs.CountsAreSums | _data/update-contributors.js:28-32 | a login is a key of `contributions` exactly when it appears in the records, and its value is the sum of its `contributions` over them |
| ContributorsJs.AvatarsLastWins | _data/update-contributors.js:27 | a login is a key of `avatars` exactly when it appears, and its value is the `avatar_url` of the last record with that login |
| ContributorsJs.AddUser | _data/update-contributors.js:26-32 | the loop body: both Maps become the folds over the records seen plus this one |
| ContributorsJs.AddResponse | _data/update-contributors.js:25-33 | the inner loop: both Maps become the folds over the records seen plus this response |
| ContributorsJs.Accumulate | _data/update-contributors.js:17-35 | the nested loops: the two Maps are the folds over all the responses, one after the other |
| ContributorsJs.ToEntries | _data/update-contributors.js:37-41 | one entry per key, usernames distinct; each entry's count and avatar are the Map values for its username |
| ContributorsJs.Ranked | _data/update-contributors.js:43-46 | `sort`, `filter`, `slice(0, 15)`; specified by `RankedIsSorted`, `RankedFromInput`, `RankedKeepsHighest` and `RankedEntriesAreTotals` |
| ContributorsJs.RankedIsSorted | _data/update-contributors.js:43-46 | the result has at most 15 entries, non-increasing by contributions, usernames distinct |
| ContributorsJs.RankedFromInput | _data/update-contributors.js:45 | every entry kept is an input entry and none is `dependabot[bot]` |
| ContributorsJs.RankedKeepsHighest | _data/update-contributors.js:43-46 | filtering before slicing: an entry other than `dependabot[bot]` is left out only when 15 are kept, each with at least its count |
| ContributorsJs.RankedEntriesAreTotals | _data/update-contributors.js:37-46 | each entry kept has as count its login's total over all records and as avatar its last record's |
| ContributorsJs.RankedLeavesOutOnlyLower | _data/update-contributors.js:43-46 | a login left out (other than `dependabot[bot]`) means 15 entries were kept, each with at least its total |
| ContributorsJs.UpdateContributors | _data/update-contributors.js:17-46 | the output: at most 15 entries, sorted by count, distinct usernames, no `dependabot[bot]`, every count the login's total, every avatar the last seen; a login left out has no more than any entry kept |
| Ranking.Insert | _data/update-contributors.js:44 | inserting adds exactly the element: the multiset grows by it |
| Ranking.SortDesc | _data/update-contributors.js:44 | the sort is a permutation of its input |
| Ranking.InsertKeepsBound | _data/update-contributors.js:44 | inserting keeps an upper bound on the counts |
| Ranking.InsertKeepsSorted | _data/update-contributors.js:44 | inserting into a sorted sequence keeps it sorted |
| Ranking.SortDescSorted | _data/update-contributors.js:44 | the result of the sort is non-increasing by the key |
| Ranking.Take | _data/update-contributors.js:46 | `slice(0, n)` / `[:n]` yields a prefix of at most `n` elements, the whole input when shorter |
| Ranking.TakeKeepsHighest | _data/update_contributors.py:27 | in a sorted input, an element left out by the slice means `n` were kept, each with a key at least its own |
| Ranking.DistinctOccursOnce | _data/update-contributors.js:37-41 | distinct names mean each element occurs at most once |
| Ranking.PermutationKeepsDistinct | _data/update-contributors.js:44 | reordering keeps names distinct |
| Ranking.SortedCons | _data/update-contributors.js:44 | a sequence is sorted exactly when its tail is and its head bounds the tail |
| Ranking.FilterKeepsSorted | _data/update-contributors.js:45 | filtering a sorted sequence keeps it sorted |
| Ranking.DistinctCons | _data/update-contributors.js:37-41 | names are distinct exactly when the tail's are and the head's name is not in the tail |
| Ranking.FilterKeepsDistinct | _data/update-contributors.js:45 | filtering keeps names distinct |
| ContributorsPy.UserRecords | _data/update_contributors.py:18 | the records of one repository that pass `type == 'User'`, in order; specified by `UserRecordsAreExact` |
| ContributorsPy.UserRecordsAreExact | _data/update_contributors.py:18 | the records counted from one repository are exactly its records of type `User` |
| ContributorsPy.Counted | _data/update_contributors.py:14-18 | the records counted, repository by repository, forks skipped; specified by `CountedFromUsersOfOwnRepos` and `CountedKeepsUserRecords` |
| ContributorsPy.CountedFromUsersOfOwnRepos | _data/update_contributors.py:14-18 | every record counted has type `User` and comes from a repository that is not a fork |
| ContributorsPy.CountedKeepsUserRecords | _data/update_contributors.py:14-18 | every `User` record of a repository that is not a fork is counted |
| ContributorsPy.Tally | _data/update_contributors.py:19-22 | the `contributors` dict after the records counted so far; specified by `TallyValid`, `TallyAt` and `TallyKeepsFirstRecord` |
| ContributorsPy.TallyValid | _data/update_contributors.py:12-22 | the `contributors` dict holds every login once, and its key sequence holds exactly its keys |
| ContributorsPy.TallyAt | _data/update_contributors.py:19-22 | a login is stored exactly when it appears; its stored record is its first record with the sum of all its counts |
| ContributorsPy.TallyKeepsFirstRecord | _data/update_contributors.py:19-22 | the same, for every login at once |
| ContributorsPy.AddContributor | _data/update_contributors.py:19-22 | the loop body: the dict becomes the fold over the records seen plus this one |
| ContributorsPy.AddRepository | _data/update_contributors.py:17-22 | the inner loop: the dict becomes the fold over the records seen plus this repository's `User` records |
| ContributorsPy.CollectContributors | _data/update_contributors.py:12-22 | the nested loops: the dict is the fold over the `User` records of the repositories that are not forks |
| ContributorsPy.Values | _data/update_contributors.py:27 | `values()` lists the stored records, one per key, in the order of the key sequence |
| ContributorsPy.TopContributors | _data/update_contributors.py:27 | `sorted(values, key=contributions, reverse=True)[:15]`; specified by `TopIsSorted`, `TopFromStored` and `TopKeepsHighest` |
| ContributorsPy.TopIsSorted | _data/update_contributors.py:27 | at most 15 records, non-increasing by contributions, logins distinct |
| ContributorsPy.TopFromStored | _data/update_contributors.py:27 | every record kept is one stored in the dict, under its own login |
| ContributorsPy.TopKeepsHighest | _data/update_contributors.py:27 | a stored record left out means 15 were kept, each with at least its count |
| ContributorsPy.TallyKeyedByLogin | _data/update_contributors.py:19-22 | every record is stored under its own login |
| ContributorsPy.TopAreFirstRecords | _data/update_contributors.py:19-27 | every record kept is its login's first record, with the sum of its counts |
| ContributorsPy.TopLeavesOutOnlyLower | _data/update_contributors.py:27 | a counted login left out means 15 were kept, each with at least its sum |
| ContributorsPy.UpdateContributors | _data/update_contributors.py:12-27 | the output: at most 15 records, sorted by count, distinct logins, each of type `User` and among the counted records, each its login's first record with the summed count; a login left out has no more than any record kept |

## Left out

- Concurrency: the queue is a `ConcurrentLinkedQueue` and each event is a non-atomic find-then-mutate sequence. Each event is modelled as one atomic step.
- `enableAutomaticPings` on connect, the JSON decoding of messages, logging and the real `WsContext.send`. Sends are appended to an outbox in order.
- Sending to a closed connection is not modelled: a send always lands in the outbox.
- Contribution counts in the JavaScript script are JavaScript numbers (IEEE 754 doubles): the sum at line 29 and the comparator's subtraction at line 44 are exact only below 2^53. The model uses unbounded integers; Python integers are unbounded, so there the model is exact.
- `doneCount` is a Kotlin `Int`. It is modelled as an unbounded `int`, since the invariant keeps it at 0 or 1 between events.
- Server bootstrap (`OmeglinMain.kt`, `OmeglinMain.java`) and the browser side of the tutorial (WebRTC, WebSocket, DOM) are outside the model.
- The landing-page animations and UI scripts are outside the model. They are DOM code, timers, randomness and floating-point geometry.
- HTTP requests are not modelled. This covers `fetch` and `requests.get`, including the `per_page=100` pagination limit. The responses are the inputs.
- File output (`writeFileSync`, `json.dump`) and console output are not modelled. The ranked list is the result.
- The JavaScript script's fixed list of seven repository names only names the requests. The model takes one response per repository, in order.
- ContributorsPy.Tally: the Python script adds later counts into the stored record object in place, so that object is shared with the response it came from. The model stores a new record value with the summed count; the aliasing with the response list is not modelled.
- Ranking.SortDesc: equal counts keep their input order (the sort is stable, as JavaScript's `sort` and Python's `sorted` are), but no contract states the order of ties.
- Collections.RemoveAll: its own contract states only that no selected element survives and that the length does not grow. Membership, order and the no-op case are stated by the lemmas beside it (`RemoveAllMembers`, `RemoveAllAppend`, `RemoveAllNone`, `RemoveAllSingle`).
- Contributor records keep only the fields the scripts read (`login`, `avatar_url`, `type`, `contributions`). The record's `type` field is named `kind`. Other fields are carried through unread by the scripts and are not modelled.
