# Drop schedule of the Onchain Summer home page

This project models the decision logic of the home page's data loader
(`getPageData` in `src/app/page.tsx`): which brand partner is featured
today, and how the scheduled drops are split into the "upcoming" and "past"
tabs of the drop browser.

- `wrappers.dfy` — `Option`, where `None` stands for JavaScript's `undefined`
  and `OrElse` is `||` on a value that is either an object or `undefined`.
- `schedule.dfy` — the schedule object: a sequence of `Entry(key, partner)` in
  `Object.keys` order (date keys are not integer-like, so this is insertion
  order), `Keys` (`Object.keys`), `Lookup` (`schedule[key]`), and the fact
  that a JavaScript object's property names are unique (`UniqueKeys`).
- `page.dfy` — the page logic:
  - `FeaturedPartner` is `schedule[today] || schedule[Object.keys(schedule)[0]]`.
  - `CompareAsc` is `date-fns`' `compareAsc`, including its `NaN` result.
  - `Step` is the `reduce` callback and `Reduce` is the fold.
  - `ClassifyDrops` is the fold over the keys from `INITIAL_TABS`.
  - `ClassOf`, `IndicesUpTo` and `DropsAt` give an independent reference
    definition: each schedule position is classified on its own, and the
    expected lists are read off the positions of each class.
- `scenarios.dfy` — worked two-partner schedules.

The clock and the date library are parameters, not models:
- `now` is `new Date().getTime()`;
- `format(now)` is `format(new Date(now), 'yyyy-MM-dd')` in the server's time zone;
- `keyTime(key)` is `new Date(key).getTime()`, and `None` stands for an invalid date.

Behaviour taken from the code:
- The fallback partner is the one under the first key in insertion order.
- With an empty schedule, or with no partner under today's key and `undefined`
  under the first key, line 92 yields `undefined`. The dereference
  `partner.drop` at line 116, outside the model, then throws, so the page
  data is never produced.
- A key that is not a valid date makes `compareAsc` return `NaN`. That is
  neither `0` nor `-1`, so the drop is filed under past drops.
- Neither list is re-sorted. Both keep schedule order.

## Model

| member | source | states |
|---|---|---|
| Schedule.Lookup | src/app/page.tsx:92-96 | `schedule[key]` is a partner stored under `key`, and `undefined` when no property has that name |
| Schedule.LookupKey | src/app/page.tsx:96 | with unique property names, looking up the i-th key gives exactly the i-th value |
| Wrappers.Option.OrElse | src/app/page.tsx:92 | `a || b` on an object-or-`undefined` value: a defined left operand is the result, otherwise the right operand is |
| Schedule.Keys | src/app/page.tsx:94 | `Object.keys(schedule)`: one key per property, the i-th key being the i-th property's name (its definition) |
| Page.FeaturedPartner | src/app/page.tsx:90-92 | the featured partner, when there is one, is a partner of the schedule; an empty schedule features nobody |
| Page.FeaturedIsToday | src/app/page.tsx:91-92 | a defined partner under today's `yyyy-MM-dd` key is exactly the featured partner |
| Page.FeaturedFallback | src/app/page.tsx:92 | with no defined partner under today's key, the value under the first key is featured (itself possibly `undefined`); an empty schedule gives `undefined` |
| Page.InitialTabs | src/app/page.tsx:84-87 | `INITIAL_TABS` of type `TabsComponentProps` (the datatype `Page.Tabs`): both `upcomingDrops` and `pastDrops` are empty (its definition) |
| Page.CompareAsc | src/app/page.tsx:95 | the comparison is -1 exactly when `now` is earlier, 0 exactly when equal, 1 exactly when later, and `NaN` exactly when the key is not a valid date |
| Page.Step | src/app/page.tsx:95-112 | one callback leaves the accumulator unchanged for a skipped key, appends the partner's drop to `upcomingDrops` only for an upcoming key, and to `pastDrops` only for a past key |
| Page.Reduce | src/app/page.tsx:94-113 | the fold only appends: the starting lists are prefixes of the result, and it adds at most one drop per key |
| Page.ClassifyDrops | src/app/page.tsx:84-113 | starting from the empty `INITIAL_TABS`, the two lists hold at most one drop per schedule key |
| Page.ClassifyPrefix | src/app/page.tsx:94-113 | after the first n keys the accumulator holds exactly the drops of the upcoming and of the past entries among the first n, in schedule order |
| Page.ClassifyDropsSpec | src/app/page.tsx:94-113 | `upcomingDrops` and `pastDrops` equal the reference lists read off the positions of the upcoming and the past entries |
| Page.UpcomingMembers | src/app/page.tsx:102-106 | a drop is upcoming if and only if it is the drop of a defined partner whose key's timestamp is strictly after `now` |
| Page.PastMembers | src/app/page.tsx:109-112 | a drop is past if and only if it is the drop of a defined partner whose key's timestamp is strictly before `now` or is not a valid date |
| Page.OrderPreserved | src/app/page.tsx:105-111 | each list keeps schedule order: an entry's drop sits at its rank among the entries of its class, so of two same-class entries the earlier one's drop comes first |
| Page.ClassifyCount | src/app/page.tsx:94-113 | the two lists together hold exactly one drop per key that is not skipped |
| Page.StepSkips | src/app/page.tsx:98-100 | a key whose timestamp equals `now`, or whose partner is `undefined`, adds nothing to either list |
| Scenarios.BetweenTheDrops | src/app/page.tsx:90-113 | for `{"2023-08-13": P1, "2023-08-20": P2}` on 2023-08-15: upcoming is `[P2.drop]`, past is `[P1.drop]`, and P1 is featured as the fallback |
| Scenarios.AtTheSecondDrop | src/app/page.tsx:98-100 | at exactly the second key's timestamp, that drop is in neither list and its partner is featured |
| Scenarios.InvalidKeyIsPast | src/app/page.tsx:102-112 | a key that is not a valid date puts its drop under past drops |

## Left out

- The `Home` component's JSX (`src/app/page.tsx:12-82`), including the 500-character article excerpt. It is presentation markup.
- The GraphQL `GetMirrorTransactions` lookup, the `fetch` from arweave.net and the JSON cast (`src/app/page.tsx:115-127`). These are network I/O.
- The failure when no partner is featured. `partner.drop.aarweaveDigest` at `src/app/page.tsx:116` throws a TypeError on `undefined`, so `getPageData` rejects. The model stops at the `undefined` that `FeaturedPartner` returns.
- The `async`/`await` sequencing of `getPageData`. It only orders the I/O.
- `date-fns` `format` and `new Date(...)`. They enter as the parameters `format` and `keyTime`, so calendar and time-zone arithmetic are not modelled.
- `src/config/schedule` is not part of this model. A partner's slug, name and `otherDrops`, and a drop's fields, are opaque payload; only a partner's `drop` matters to the modelled logic. Fields that only the `Home` markup reads, such as `icon`, are not modelled.
- `src/config/partners/coke.ts` is static configuration without logic. It supplies only the shape of `Drop`.
- Determinism, and `INITIAL_TABS` staying empty after the call, are not stated as lemmas. Every operation here is a function on immutable values, so both hold by construction.
