# Admin panel of a waste-pickup scheduler, modelled in Dafny

The admin page of the recycling app lists pickup requests. An administrator
can accept a request or reject it. Accepting marks the request completed and
credits loyalty points to the user who asked for it. Rejecting deletes the
request. The page also shows four stat cards. This project models that
bookkeeping and proves what it does:

- `wrappers.dfy`: `Option`, the model's `undefined`.
- `pickup_requests.dfy` (module `PickupRequests`): the request record and
  its two-valued status. Also the status update of an acceptance (a `map`),
  rejection and the counter partition (both `filter`), the lookup of the
  accepted request (`find`), the stat cards, the four sample requests and
  the first load.
- `reward_points.dfy` (module `RewardPoints`): the eight-entry points table,
  the 100-point fallback for unknown waste types, and the total over a
  request's waste types. Each table entry is `floor(random * width) + base`.
  The random source is injected as one integer draw per known waste type,
  with `0 <= draw < width`.
- `registered_users.dfy` (module `RegisteredUsers`): the stored user record,
  the `findIndex` loop and the in-place credit on an array, proved against
  the pure function `Credited`.
- `admin_panel.dfy` (module `AdminPage`): the component as a class. It holds
  the list of requests and the two stored collections (`pickupRequests`,
  `registeredUsers`), plus counters of how often each stored collection is
  written. It has the load, accept and reject handlers. Beside the class,
  the module-level function `Render` is the access gate in front of the
  stat cards and the pending list.

Some behaviour of the code is easy to misread:

- The loading effect (src/pages/AdminPanel.tsx:80-89) is registered before
  the admin check (line 142) and runs after the first render, whichever
  branch rendered. So the samples are seeded for any visitor, not only for
  administrators. `Load` therefore has no admin parameter, and only `Render`
  depends on the flag.
- Each range's upper end is one below its inline comment. For example,
  "Organic Waste" earns 80 to 179, not 80 to 180, because
  `floor(r * w)` is at most `w - 1`.
- The comment "between 300-800" does not hold: a request for organic waste
  alone earns at most 179 (`OrganicWasteAlone`).
- Rejection removes every entry with the identifier, so the list shrinks by
  the number of entries carrying it (`RejectCount`). That is exactly one when
  identifiers are unique and the identifier is present (`RejectLength`), and
  none when it is absent.

## Model

| member | source | states |
|---|---|---|
| `PickupRequests.MarkCompleted` | src/pages/AdminPanel.tsx:92-94 | the list keeps its length; an entry with another id is unchanged in its position; an entry with the id differs only in its status, which becomes completed |
| `PickupRequests.MarkCompletedIdempotent` | src/pages/AdminPanel.tsx:92-94 | completing the same id twice gives the same list as completing it once |
| `PickupRequests.MarkCompletedNoPending` | src/pages/AdminPanel.tsx:92-94 | if no entry with the id is still pending (in particular, if none has the id), the status update returns its input unchanged |
| `PickupRequests.MarkCompletedKeepsUniqueIds` | src/pages/AdminPanel.tsx:92-94 | the status update keeps identifiers unique |
| `PickupRequests.FindById` | src/pages/AdminPanel.tsx:99 | `None` exactly when no entry has the id; otherwise the first entry with that id |
| `PickupRequests.Filter` | src/pages/AdminPanel.tsx:131 | the result contains exactly the input entries the predicate keeps, and is no longer than the input |
| `PickupRequests.FilterAppend` | src/pages/AdminPanel.tsx:131 | filtering a concatenation gives the filtered parts, concatenated in order |
| `PickupRequests.FilterKeepsAll` | src/pages/AdminPanel.tsx:131 | a filter that keeps every entry returns its input |
| `PickupRequests.FilterPartition` | src/pages/AdminPanel.tsx:146-147 | filtering by a predicate and by its negation gives lengths that sum to the input's length |
| `PickupRequests.FilterKeepsUniqueIds` | src/pages/AdminPanel.tsx:131 | a filtered list keeps identifiers unique |
| `PickupRequests.Reject` | src/pages/AdminPanel.tsx:131 | no entry with the id remains; every entry with another id remains; nothing new appears |
| `PickupRequests.RejectAppend` | src/pages/AdminPanel.tsx:131 | rejection keeps the surviving entries in their original order |
| `PickupRequests.RejectAbsent` | src/pages/AdminPanel.tsx:131 | rejecting an absent id leaves the list unchanged |
| `PickupRequests.RejectIdempotent` | src/pages/AdminPanel.tsx:131 | rejecting twice equals rejecting once |
| `PickupRequests.RejectLength` | src/pages/AdminPanel.tsx:131 | with unique ids, the length drops by exactly one if the id is present and is unchanged otherwise |
| `PickupRequests.RejectCount` | src/pages/AdminPanel.tsx:131 | the list shrinks by exactly the number of entries carrying the id, unique or not |
| `PickupRequests.RejectKeepsUniqueIds` | src/pages/AdminPanel.tsx:131 | rejection keeps identifiers unique |
| `PickupRequests.WithStatus` | src/pages/AdminPanel.tsx:146-147 | reference definition of the requests with one status, in order (the two filters); no contract of its own, its properties are in `Filter`, `WithStatusCount` and `Summary` |
| `PickupRequests.PendingRequests` | src/pages/AdminPanel.tsx:146 | reference definition of the pending filter; no contract of its own, see `Summary`, `Render` and `CompleteMovesOneToCompleted` |
| `PickupRequests.CompletedRequests` | src/pages/AdminPanel.tsx:147 | reference definition of the completed filter; no contract of its own, see `Summary` and `CompleteMovesOneToCompleted` |
| `PickupRequests.WithStatusCount` | src/pages/AdminPanel.tsx:146-147 | filtering by a status keeps exactly as many requests as there are entries with that status |
| `PickupRequests.StatusCountsSum` | src/pages/AdminPanel.tsx:19 | every request is either pending or completed, so the two status counts sum to the list length |
| `PickupRequests.Summary` | src/pages/AdminPanel.tsx:146-185 | pending and completed are the numbers of entries with those statuses (and the lengths of the two filtered lists); pending + completed = total = list length; points awarded = 500 × completed |
| `PickupRequests.SummaryOfThreePendingTwoCompleted` | src/pages/AdminPanel.tsx:146-185 | a list with 3 pending and 2 completed requests shows 3 pending, 2 completed, 5 in total and 1000 points |
| `PickupRequests.CompleteMovesOneToCompleted` | src/pages/AdminPanel.tsx:92-94 | with unique ids, accepting a pending request moves exactly one request from pending to completed, so the displayed points rise by exactly 500 whatever was credited |
| `PickupRequests.Loaded` | src/pages/AdminPanel.tsx:80-89 | the adopted list is never empty; a non-empty stored list is adopted as it is |
| `PickupRequests.DefaultRequests` | src/pages/AdminPanel.tsx:29-78 | the four sample requests, field by field; a constant, whose properties are stated by `LoadEmptyStore`, `DefaultIdsDistinct` and `DefaultSummary` |
| `PickupRequests.LoadEmptyStore` | src/pages/AdminPanel.tsx:82-85 | an empty store loads exactly the four sample requests, all pending |
| `PickupRequests.DefaultIdsDistinct` | src/pages/AdminPanel.tsx:29-78 | the samples carry the ids req-001 to req-004, all distinct |
| `PickupRequests.DefaultSummary` | src/pages/AdminPanel.tsx:82-85 | after seeding, the cards show 4 pending, 0 completed, 4 in total and 0 points |
| `RewardPoints.RangesPositive` | src/pages/AdminPanel.tsx:101-110 | every known range is non-empty and starts at 80 or more, so no table value is zero |
| `RewardPoints.PointsTable` | src/pages/AdminPanel.tsx:101-110 | the table has exactly the eight known waste types as keys; each value is its base plus that waste type's draw, so it lies in base .. base + width - 1 and is never 0 |
| `RewardPoints.LabelPoints` | src/pages/AdminPanel.tsx:113 | reference definition of one waste type's value: its table entry, or 100 when it is missing or zero; no contract of its own, see `LabelPointsBounds` |
| `RewardPoints.LabelPointsBounds` | src/pages/AdminPanel.tsx:101-113 | a known waste type contributes base + draw, between its minimum and maximum; any other contributes exactly 100 |
| `RewardPoints.KnownRanges` | src/pages/AdminPanel.tsx:102-109 | the eight reachable ranges (Plastic Bottles 150..349, E-waste 300..599, Organic Waste 80..179, …), each with an upper end one below its comment |
| `RewardPoints.TotalPoints` | src/pages/AdminPanel.tsx:112-114 | reference definition of the `reduce` over the waste types, left to right from 0; no contract of its own, see `TotalBounds`, `TotalAppend`, `TotalPermutation` and `TotalRepeated` |
| `RewardPoints.TotalBounds` | src/pages/AdminPanel.tsx:112-114 | the total lies between the sum of the per-waste-type minimums and the sum of the maximums; an empty list totals 0 |
| `RewardPoints.TotalAppend` | src/pages/AdminPanel.tsx:112-114 | the total of a concatenation is the sum of the totals |
| `RewardPoints.TotalPermutation` | src/pages/AdminPanel.tsx:112-114 | the total depends only on the multiset of waste types, not on their order |
| `RewardPoints.TotalRepeated` | src/pages/AdminPanel.tsx:101-114 | the table is built once per acceptance, so n copies of one waste type earn n times its single value |
| `RewardPoints.OrganicWasteAlone` | src/pages/AdminPanel.tsx:98-114 | ["Organic Waste"] earns 80 to 179, below the 300 the comment announces |
| `RewardPoints.UnknownTypeAlone` | src/pages/AdminPanel.tsx:112-114 | ["Unknown Type"] earns exactly 100 |
| `RegisteredUsers.PointsOrZero` | src/pages/AdminPanel.tsx:119 | reference definition of a user's points with a missing field as 0; no contract of its own, see `Add` and `CreditedConservesPoints` |
| `RegisteredUsers.Add` | src/pages/AdminPanel.tsx:119 | the user keeps its id and other fields; its points become the old points (0 if missing) plus the amount |
| `RegisteredUsers.Credited` | src/pages/AdminPanel.tsx:116-121 | the users collection keeps its length |
| `RegisteredUsers.CreditedFirstMatch` | src/pages/AdminPanel.tsx:117-119 | only the first user with the id changes, and only its points |
| `RegisteredUsers.CreditedNoMatch` | src/pages/AdminPanel.tsx:117-121 | when no user has the id, the collection is unchanged |
| `RegisteredUsers.CreditedConservesPoints` | src/pages/AdminPanel.tsx:116-121 | the points held over all users grow by exactly the amount if some user matches, and not at all otherwise |
| `RegisteredUsers.FindUserIndex` | src/pages/AdminPanel.tsx:117 | returns -1 exactly when no user has the id; otherwise the index of the first such user |
| `RegisteredUsers.CreditUser` | src/pages/AdminPanel.tsx:117-121 | the array afterwards equals `Credited` of the array before; `found` says whether a user matched; without a match the array is unchanged |
| `AdminPage.Award` | src/pages/AdminPanel.tsx:99-114 | no award exactly when no request has the id; otherwise the award is the table total over the waste types of the first such request, and lies between its minimum and maximum sums |
| `AdminPage.UsersAfterCompletion` | src/pages/AdminPanel.tsx:99-121 | the users collection keeps its length, and is returned unchanged unless the request exists and its requester is registered |
| `AdminPage.CompleteUnknownRequest` | src/pages/AdminPanel.tsx:92-100 | accepting an id no request has leaves the list as it was, awards nothing and credits no one |
| `AdminPage.CompleteCreditsRequester` | src/pages/AdminPanel.tsx:116-121 | with a registered requester, only the first matching user gains the award, and the points over all users grow by exactly the award |
| `AdminPage.Render` | src/pages/AdminPanel.tsx:142-202 | a non-administrator sees only the denial; an administrator sees the summary counters and the pending requests in list order |
| `AdminPage.AdminPanel.constructor` | src/pages/AdminPanel.tsx:26 | a mounted component starts with an empty list over the given storage |
| `AdminPage.AdminPanel.Load` | src/pages/AdminPanel.tsx:80-89 | the list becomes `Loaded` of the stored list; the samples are written only when the store was empty; users are untouched |
| `AdminPage.AdminPanel.CompleteRequest` | src/pages/AdminPanel.tsx:91-128 | the list becomes the status-updated list and is stored once; the returned award is `Award` of the list before the update; the users collection is written exactly when a registered requester is credited, and becomes `UsersAfterCompletion` |
| `AdminPage.AdminPanel.RejectRequest` | src/pages/AdminPanel.tsx:130-133 | the list becomes `Reject` of the old list and is stored once; users are untouched |

## Left out

- Rendering: the JSX, cards, badges and confirmation dialogs (src/pages/AdminPanel.tsx:149-305). `Render` keeps only what the page shows: the denial, or the counters and the pending list.
- Browser storage and JSON (lines 81, 84, 96, 116, 120, 133): both stored collections are in-memory fields of `AdminPanel`. A write is an assignment plus a write counter. Malformed stored JSON, which would throw, is not modelled.
- `Math.random` is floating point. It is replaced by an integer draw per known waste type in `[0, width)`. For a random value below 1 and an integer width, `floor(random * width)` lies exactly in that interval, so the draw loses nothing. The random source itself is not modelled.
- `createdAt` revival with `new Date(...)` (line 87) is a foreign call. `createdAt` is an opaque string carried unchanged, so the revival is the identity.
- The toast notifications (lines 123-126, 135-139) are fire-and-forget UI effects. The award a notification would name is `CompleteRequest`'s out-parameter.
- React state hooks and `useAuth` (lines 24-26, 142) are framework plumbing. The session user's admin flag is the `isAdmin` argument of `Render`. An absent user counts as `false`.
- RewardPoints.LabelPoints: a waste-type label that names an inherited JavaScript object property (such as "constructor") would, in the source, look up that property instead of the table. The model treats such labels as unknown, at 100 points.
- RegisteredUsers.PointsOrZero: stored points are unbounded integers. Non-numeric `points` values and the precision limits of JavaScript numbers are not modelled.
- Several browser tabs writing the same storage at once is not modelled, because the model is single-threaded.
