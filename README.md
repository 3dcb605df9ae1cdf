# Plant care backends, modelled in Dafny

This project models the deterministic core of two small plant-care backends and proves
properties of it. The storage is replaced by in-memory sequences.

- **Reference-data service** (`floreheal-backend-esma/server.js`):
  - looks plants up in a read-only catalog by slug;
  - resolves a plant's treatment-catalog key by an ordered fallback: its own `treatmentKey`,
    then the exact Turkish name, then the first key containing the Turkish name, then the
    first key containing the English name;
  - answers the detail, care, issues and treatment-text lookups, each with its not-found
    outcomes.
  - Module `TreatmentResolver`.
- **Daily entry document** (`src/models/Entry.js`):
  - `toDayKey`, which formats a UTC date as `Y-MM-DD`;
  - the `pre("validate")` hook, which fills an absent day key;
  - the required fields and the unique (userId, plantId, dayKey) index.
  - Modules `Calendar` (the proleptic Gregorian UTC calendar of JavaScript `Date`) and
    `DayKey`; the document is the class `DayKey.EntryDocument`.
- **Entry ledger and plant registry** (`tuba_backend/src/server.js`):
  - the entry ledger: upsert on (userId, plantId, day key), listing in a date range, today's
    entry, patch and delete. This is the class `EntryLedger.Ledger`, which holds a sequence
    of entry records and the next fresh identity.
  - the summary aggregation: group by day key, per-day sums, rows in date order, and totals
    as a fold over the rows. These are pure functions in `EntrySummary`.
  - the user-plant registry: create, list and delete. This is the class
    `PlantRegistry.Registry`.

Each method that changes a collection is specified by a pure function of the old state
(`Upserted`, `Patched`, `Removed`, `WithoutPlant`), except `Registry.Create`, whose contract
states the new collection directly: the old one with the created plant appended. The
properties are lemmas about those functions or invariants the methods keep:
- the unique index;
- fresh, distinct identities;
- records with non-empty owners.

Supporting modules:
- `Strings`: substring search, decimal digits, `padStart`.
- `Sorting`: a stable insertion sort by an integer key, proved to return a sorted permutation.
- `Wrappers`: `Option` and `Result`.

Time is an integer count of milliseconds since the epoch, bounded like a JavaScript time
value. The current time is an explicit parameter `now`. The UTC day of an instant `t` is
`t / 86400000`; Dafny's division rounds down here, as JavaScript's `Day(t)` does.

Falsy JavaScript inputs are modelled as follows:
- an absent, null or empty string is `""`;
- an absent or null amount or date is `None`;
- an amount of 0 is a present value, as the source intends.

The entries server writes its day key as `toISOString().slice(0, 10)`. `toDayKey` writes
`String(year)`. The two texts agree for years 1000 to 9999 (`DayKey.IsoDateKeyMatchesFormat`).
- Below year 1000, `toDayKey` does not pad the year to four digits and the ISO key does.
- Outside years 0 to 9999, the ISO year is a sign and six digits. The ten-character slice then
  ends after the month, so such keys group a whole month.

## Model

| member | source | states |
|---|---|---|
| Calendar.CivilFromDays | src/models/Entry.js:7-9 | the UTC year, month and day of a day number form a valid calendar date whose day number is that number |
| Calendar.CivilRoundTrip | src/models/Entry.js:7-9 | every valid calendar date is the UTC date of its own day number, so dates and day numbers are in bijection |
| Calendar.UtcDate | src/models/Entry.js:6-9 | `getUTCFullYear`, `getUTCMonth() + 1` and `getUTCDate` of an instant: the valid calendar date of its floor day number |
| Calendar.SameUtcDateIffSameDay | src/models/Entry.js:7-9 | two instants have the same UTC year, month and date exactly when they fall on the same UTC day |
| Calendar.UtcDateExample | src/models/Entry.js:10 | 2025-11-29T23:30:00Z falls on 29 November 2025 |
| Calendar.EpochIsFirstOfJanuary1970 | src/models/Entry.js:7-9 | time 0 falls on 1 January 1970 |
| Strings.Includes | floreheal-backend-esma/server.js:50 | `k.includes(name)` on raw characters, with no normalisation; its meaning is stated by `Strings.IncludesIffOccurs` |
| Strings.IncludesIffOccurs | floreheal-backend-esma/server.js:50 | `k.includes(name)` holds exactly when `name` occurs in `k` at some position |
| Strings.EmptyIncludedEverywhere | floreheal-backend-esma/server.js:49-56 | the empty name is contained in every key, which is why the falsy-name guards matter |
| Strings.PadStart | src/models/Entry.js:8-9 | `padStart` yields max(width, length) characters, ends with the input, and is filled with the pad character in front |
| Strings.NatToString | src/models/Entry.js:8-9 | `String(n)` is a non-empty digit string without leading zeros |
| Strings.ParseIntToString | src/models/Entry.js:10 | the decimal text of an integer reads back as that integer |
| Strings.IntToString | src/models/Entry.js:10 | `String(y)` of the year: a minus sign before the digits of a negative year, the digits alone otherwise |
| DayKey.Pad2 | src/models/Entry.js:8-9 | `String(n).padStart(2, "0")` of the month or day; its meaning is stated by `DayKey.Pad2Facts` |
| DayKey.Pad2Facts | src/models/Entry.js:8-9 | for month and day values below 100, the padded text has two digits and reads back as the value |
| DayKey.FormatDayKey | src/models/Entry.js:10 | the template `${y}-${m}-${dd}` of a date; its meaning is stated by `DayKey.ParseFormatDayKey` and `DayKey.FormatDayKeyComponents` |
| DayKey.ParseFormatDayKey | src/models/Entry.js:10 | the `Y-MM-DD` key of a valid date reads back as that date, so distinct dates get distinct keys |
| DayKey.Truthy | src/models/Entry.js:6 | the truthiness test on `toDayKey`'s argument, whose failure selects `Date.now()`: a missing argument and the number 0 are falsy, any `Date` object is truthy |
| DayKey.DayKeyAt | src/models/Entry.js:6-10 | the `toDayKey` text of one instant, the UTC date of the instant formatted |
| DayKey.ToDayKey | src/models/Entry.js:5-11 | `toDayKey` yields a key that reads back as the UTC date of its argument, or of now when the argument is falsy |
| DayKey.FormatDayKeyComponents | src/models/Entry.js:7-10 | the key is the year, a dash, the two-digit month 01-12, a dash and the two-digit day 01-31, and it parses back to the date |
| DayKey.ToDayKeyComponents | src/models/Entry.js:5-11 | `toDayKey` formats the UTC date of its argument, or of now when the argument is falsy, with month 1-12 and day 1-31 |
| DayKey.FalsyArgumentUsesNow | src/models/Entry.js:6 | no argument and the epoch number 0 both give the key of the current time |
| DayKey.DayKeyAtIffSameDay | src/models/Entry.js:5-11 | two instants get the same `toDayKey` exactly when they are on the same UTC day |
| DayKey.IsoYear | tuba_backend/src/server.js:51 | the year field of `toISOString()` has at least four characters, so the ten-character slice never reaches past the day |
| DayKey.IsoYearFourDigits | tuba_backend/src/server.js:51 | for years 0-9999 the ISO year is exactly four digits that read back as the year |
| DayKey.IsoDateKey | tuba_backend/src/server.js:51 | the day key sliced from the ISO text is always ten characters long |
| DayKey.IsoDayKey | tuba_backend/src/server.js:51 | the server's day key of an instant has ten characters, and for years 0-9999 it reads back as the UTC date of the instant |
| DayKey.IsoDateKeyMatchesFormat | tuba_backend/src/server.js:51 | for years 1000-9999 the ISO slice equals the `toDayKey` format of the same date |
| DayKey.IsoDayKeyMatchesToDayKey | tuba_backend/src/server.js:51 | for instants in years 1000-9999 the server's key equals `toDayKey` of the instant |
| DayKey.IsoDateKeyParses | tuba_backend/src/server.js:51 | for years 0-9999 the ISO slice reads back as its date |
| DayKey.IsoDayKeyIffSameDay | tuba_backend/src/server.js:51 | for years 0-9999 two instants share the server's day key exactly when they are on the same UTC day |
| DayKey.HookDayKey | src/models/Entry.js:45-50 | an existing non-empty day key is kept; an empty one becomes the key of the date, or of now when the date is missing, and reads back as that UTC date |
| DayKey.MeetsSchema | src/models/Entry.js:14-30 | the schema's required fields: non-empty `userId` and `plantId`, both amounts present; the `nat` type of the amounts stands in for `min: 0` |
| DayKey.EntryDocument.PreValidate | src/models/Entry.js:45-50 | the hook changes only `dayKey`, leaves a present key unchanged and otherwise derives it from the date or now |
| DayKey.EntryDocument.Validate | src/models/Entry.js:14-37 | validation runs the hook and succeeds exactly when `userId` and `plantId` are non-empty and both amounts are present |
| TreatmentResolver.Keys | floreheal-backend-esma/server.js:40 | `Object.keys` lists every catalog key, in catalog order |
| TreatmentResolver.Lookup | floreheal-backend-esma/server.js:122 | reading an own key gives a value stored under that key |
| TreatmentResolver.FindPlantBySlug | floreheal-backend-esma/server.js:21-23 | the result is the first plant with the slug, and there is none exactly when no plant has it |
| TreatmentResolver.FindIndex | floreheal-backend-esma/server.js:44 | `keys.find` returns the first key that equals, or contains, the name; none when no key does |
| TreatmentResolver.PrimaryTrName | floreheal-backend-esma/server.js:38 | the first Turkish name when `names.tr` is a list, the name itself otherwise, and the empty (falsy) name when absent |
| TreatmentResolver.ResolveByName | floreheal-backend-esma/server.js:38-61 | a key found by the names is a catalog key that contains a non-empty Turkish or English name |
| TreatmentResolver.ResolveTreatmentKey | floreheal-backend-esma/server.js:28-62 | a null plant resolves to nothing, and every resolved key is an own key of the catalog |
| TreatmentResolver.DirectKeyWins | floreheal-backend-esma/server.js:32-36 | a non-empty `treatmentKey` that the catalog has is returned, whatever the names |
| TreatmentResolver.UnknownKeyFallsThrough | floreheal-backend-esma/server.js:32-40 | an empty `treatmentKey`, or one the catalog lacks, leaves resolution to the names |
| TreatmentResolver.ExactTurkishWins | floreheal-backend-esma/server.js:43-46 | a key equal to a non-empty Turkish name wins over any substring match and is that name |
| TreatmentResolver.FirstTurkishSubstringWins | floreheal-backend-esma/server.js:49-52 | with no exact match, the first key in catalog order containing the Turkish name is returned |
| TreatmentResolver.EnglishOnlyAfterTurkish | floreheal-backend-esma/server.js:54-58 | a key found on the English name means that no key equals or contains the Turkish name, and the key contains the non-empty English name |
| TreatmentResolver.FirstEnglishSubstringWins | floreheal-backend-esma/server.js:54-58 | when no key contains the Turkish name, the first key in catalog order containing the non-empty English name is returned |
| TreatmentResolver.NoneIffNoMatch | floreheal-backend-esma/server.js:42-61 | the fallback gives null exactly when no key contains a non-empty Turkish or English name |
| TreatmentResolver.EmptyNamesResolveToNothing | floreheal-backend-esma/server.js:43-61 | with both names empty the fallback returns nothing |
| TreatmentResolver.ResolvedKeyNonEmpty | floreheal-backend-esma/server.js:43-58 | a resolved key is never the empty string, so it passes the handlers' truthiness test |
| TreatmentResolver.PlantDetail | floreheal-backend-esma/server.js:77-86 | the detail reply is a catalog plant with the slug, and is not found exactly when no plant has the slug |
| TreatmentResolver.PlantCare | floreheal-backend-esma/server.js:90-100 | the care reply is not found exactly when no plant has the slug; otherwise it is the first such plant's `care`, or `{}` when it has none |
| TreatmentResolver.UnknownSlugNotFound | floreheal-backend-esma/server.js:77-138 | an unknown slug makes all four lookups answer plant-not-found |
| TreatmentResolver.PlantIssues | floreheal-backend-esma/server.js:105-128 | a successful issues reply names a catalog key and lists exactly that entry's issue keys, none twice |
| TreatmentResolver.PlantTreatment | floreheal-backend-esma/server.js:132-163 | a successful treatment reply carries the non-empty text stored under an own issue key of the resolved entry |
| TreatmentResolver.IssuesAreCatalogIssueKeys | floreheal-backend-esma/server.js:105-128 | issues succeed exactly when the plant exists and its key resolves; they list exactly that entry's issue keys; each failure names its cause |
| TreatmentResolver.TreatmentTextIsCatalogText | floreheal-backend-esma/server.js:132-163 | a treatment reply carries the slug, the resolved key, the issue key and the non-empty text stored there; a missing or empty text is not found |
| TreatmentResolver.PropertyTruthy | floreheal-backend-esma/server.js:33 | `treatments[k]` as JavaScript evaluates it: truthy for an own key and for every name inherited from `Object.prototype` |
| TreatmentResolver.ResolveTreatmentKeyAsWritten | floreheal-backend-esma/server.js:28-62 | the resolver as written returns own catalog keys or names inherited by every object |
| TreatmentResolver.AsWrittenResolvesInheritedName | floreheal-backend-esma/server.js:33 | as written, a plant with `treatmentKey` "constructor" resolves to "constructor" although the catalog lacks that key |
| TreatmentResolver.AsWrittenAgreesOffInheritedNames | floreheal-backend-esma/server.js:28-62 | off the inherited names, the resolver as written and the corrected one agree |
| TreatmentResolver.ReadIssue | floreheal-backend-esma/server.js:149 | reading `plantTreatments[issueKey]` gives an own text exactly for own keys, and an inherited member exactly for the inherited names the entry does not hold |
| TreatmentResolver.TruthyValue | floreheal-backend-esma/server.js:151 | `!treatmentText` negated: a non-empty own text or any inherited member is truthy, `undefined` and "" are not |
| TreatmentResolver.PlantTreatmentAsWritten | floreheal-backend-esma/server.js:132-163 | as written, a successful reply without a text arises only for an inherited issue key |
| TreatmentResolver.AsWrittenAnswersInheritedIssue | floreheal-backend-esma/server.js:149-151 | as written, the issue key "toString" answers with a reply and no text for every plant whose key resolves, while the corrected handler answers text-not-found |
| TreatmentResolver.TreatmentAsWrittenAgreesOffInheritedNames | floreheal-backend-esma/server.js:132-163 | off the inherited names, the treatment handler as written and the corrected one give the same reply |
| Sorting.SortByCorrect | tuba_backend/src/server.js:98 | sorting by a key returns a permutation of its input in ascending key order |
| EntryLedger.KeysUnique | src/models/Entry.js:54-57 | the unique index: no two entries have the same (userId, plantId, dayKey) |
| EntryLedger.LedgerInvariant | src/models/Entry.js:54-57 | the unique index, fresh distinct identities, and non-empty owners, kept by every ledger operation |
| EntryLedger.ValidEntryRequest | tuba_backend/src/server.js:41 | the 400 check: `userId` and `plantId` truthy, neither amount null or undefined (0 is accepted) |
| EntryLedger.EffectiveDate | tuba_backend/src/server.js:50 | the given date when there is one, otherwise now |
| EntryLedger.KeyIndex | tuba_backend/src/server.js:54-55 | the filter `{ userId, plantId, dayKey }` finds the first entry with that key, or reports that none has it |
| EntryLedger.IdIndex | tuba_backend/src/server.js:157 | lookup by id finds the first entry with that id, or reports that none has it |
| EntryLedger.UpsertRecord | tuba_backend/src/server.js:54-69 | the record `findOneAndUpdate` returns with `new: true`; its properties are stated by `EntryLedger.UpsertLeavesOneRecord` |
| EntryLedger.Upserted | tuba_backend/src/server.js:54-69 | the collection after the upsert; its properties are stated by `EntryLedger.UpsertKeepsInvariant`, `EntryLedger.UpsertLeavesOneRecord` and `EntryLedger.UpsertFrame` |
| EntryLedger.UpsertKeepsInvariant | src/models/Entry.js:54-57 | an upsert keeps at most one entry per (userId, plantId, dayKey), identities fresh and distinct, and owners non-empty |
| EntryLedger.UpsertLeavesOneRecord | tuba_backend/src/server.js:54-71 | after an upsert the returned record, with the new amounts, date and update time, is the only entry with the key; a match keeps its identity and creation time; a new record has a fresh identity |
| EntryLedger.UpsertFrame | tuba_backend/src/server.js:54-69 | an upsert keeps every entry with another key and adds nothing but its record; the count grows by one only when nothing matched |
| EntryLedger.SameDayUpsertsOverwrite | tuba_backend/src/server.js:53-69 | two upserts of one user and plant with the same day key leave one record, under the first identity, holding the second call's amounts |
| EntryLedger.DifferentDayUpsertsStaySeparate | tuba_backend/src/server.js:53-69 | upserts under different day keys are not merged: both records remain, each with its own amounts |
| EntryLedger.Patched | tuba_backend/src/server.js:152-157 | a patch changes amounts only when they are given and the date only when it is truthy; id, owner, plant, day key and creation time are untouched |
| EntryLedger.PatchCorrect | tuba_backend/src/server.js:149-165 | patching one entry keeps the unique index and the identity invariant |
| EntryLedger.RemoveKeepsInvariant | tuba_backend/src/server.js:168-178 | deleting an entry keeps the ledger invariant |
| EntryLedger.Removed | tuba_backend/src/server.js:171 | deleting the entry at a position leaves one entry fewer: the others, in their order |
| EntryLedger.RemoveTakesOutOne | tuba_backend/src/server.js:171 | deleting removes exactly that record, one occurrence, and no other |
| EntryLedger.InListRange | tuba_backend/src/server.js:91-96 | the list query: the user's entry with `date >= from` when `from` is given and `date <= to` when `to` is given |
| EntryLedger.DateDescending | tuba_backend/src/server.js:98 | the sort key of `sort({ date: -1 })`: the negated date, so ascending key order is descending date order |
| EntryLedger.ListMatches | tuba_backend/src/server.js:91-96 | the list query holds exactly the user's entries with `from <= date <= to`, each bound optional |
| EntryLedger.Ledger.FindByKey | tuba_backend/src/server.js:54-55 | the scan returns the position of the first entry with the key |
| EntryLedger.Ledger.FindById | tuba_backend/src/server.js:157 | the scan returns the position of the first entry with the id |
| EntryLedger.Ledger.Upsert | tuba_backend/src/server.js:35-83 | a request without userId, plantId or either amount is rejected and changes nothing; otherwise the effective date is the given date or now, the key is its ISO day, and the collection becomes `Upserted` of the old one |
| EntryLedger.Ledger.List | tuba_backend/src/server.js:86-104 | the reply holds exactly the user's entries in the date range, as a permutation of the matches, latest date first |
| EntryLedger.OnDay | tuba_backend/src/server.js:108-109 | the today filter `{ userId, dayKey }`, which does not mention the plant |
| EntryLedger.Ledger.FindOnDay | tuba_backend/src/server.js:109 | `findOne({ userId, dayKey })` returns an entry of the user with that day key, of any plant, and null exactly when there is none |
| EntryLedger.Ledger.Today | tuba_backend/src/server.js:106-111 | the reply is some entry of the user, of any plant, whose day key is today's, and null exactly when there is none |
| EntryLedger.Ledger.Patch | tuba_backend/src/server.js:149-165 | an unknown id is not found and changes nothing; otherwise exactly that entry becomes `Patched` and is returned |
| EntryLedger.Ledger.Delete | tuba_backend/src/server.js:168-178 | an unknown id is not found and changes nothing; otherwise exactly that entry is removed |
| EntrySummary.PeriodDays | tuba_backend/src/server.js:116 | the period is the `days` parameter, or 7 when it is missing or empty |
| EntrySummary.WindowStart | tuba_backend/src/server.js:117 | the window starts `days - 1` whole days of 86400000 ms before now |
| EntrySummary.InWindow | tuba_backend/src/server.js:120 | the `$match` filter: the user's entry dated at or after the window start |
| EntrySummary.Matched | tuba_backend/src/server.js:120 | the `$match` stage keeps exactly the user's entries dated at or after the window start |
| EntrySummary.FirstDateIsFirst | tuba_backend/src/server.js:126 | a day's `$first` date is the date of its first entry in storage order, and is absent exactly when the day has no entry |
| EntrySummary.RowKeysDistinctPairwise | tuba_backend/src/server.js:122-123 | rows whose keys are distinct in the recursive sense used for the grouping have pairwise distinct day keys |
| EntrySummary.AddToRows | tuba_backend/src/server.js:122-126 | one entry fed to `$group`: added to its day's row, or opening a new row for a new day |
| EntrySummary.WaterOn | tuba_backend/src/server.js:124 | `$sum: "$waterAmount"` over the entries of one day key |
| EntrySummary.FertilizerOn | tuba_backend/src/server.js:125 | `$sum: "$fertilizerAmount"` over the entries of one day key |
| EntrySummary.FirstDate | tuba_backend/src/server.js:126 | `$first: "$date"`: the date of the first entry of one day key in storage order; stated by `EntrySummary.FirstDateIsFirst` |
| EntrySummary.GroupByDay | tuba_backend/src/server.js:121-128 | the `$group` stage on `_id: "$dayKey"`; its properties are stated by `EntrySummary.GroupByDayKeys`, `EntrySummary.GroupByDayRows` and `EntrySummary.GroupByDayTotals` |
| EntrySummary.GroupByDayKeys | tuba_backend/src/server.js:121-128 | the groups have exactly the day keys of the matched entries, each once |
| EntrySummary.GroupByDayRows | tuba_backend/src/server.js:122-127 | each row's water and fertilizer totals are the sums over that day's entries, and its date is that of the day's first entry |
| EntrySummary.FoldTotals | tuba_backend/src/server.js:132-138 | the `reduce` over the rows from `{ water: 0, fert: 0 }`; its properties are stated by `EntrySummary.FoldTotalsPermutation` and `EntrySummary.GroupByDayTotals` |
| EntrySummary.FoldTotalsPermutation | tuba_backend/src/server.js:129-138 | the folded totals do not depend on the order of the rows |
| EntrySummary.GroupByDayTotals | tuba_backend/src/server.js:132-138 | the fold over the rows equals the sums over all matched entries |
| EntrySummary.Summarize | tuba_backend/src/server.js:113-145 | the summary reply; its properties are stated by `EntrySummary.SummarizeCorrect` |
| EntrySummary.SummarizeCorrect | tuba_backend/src/server.js:113-145 | the reply: the period (7 by default), rows in ascending date order, one row per matched day with that day's sums and first date, and totals equal to the sums over all matched entries |
| EntrySummary.SummarizeSingleEntry | tuba_backend/src/server.js:113-145 | one entry of 5 water and 2 fertilizer gives one row and totals 5 and 2 over seven days |
| PlantRegistry.ValidPlantRequest | tuba_backend/src/server.js:196 | the 400 check of plant creation: `userId` and `name` truthy |
| PlantRegistry.CreationTime | tuba_backend/src/server.js:261 | the sort key of `sort({ createdAt: 1 })`: the creation time |
| PlantRegistry.PlantsOf | tuba_backend/src/server.js:261 | `Plant.find({ userId })` holds exactly the plants of that user |
| PlantRegistry.WithoutPlant | tuba_backend/src/server.js:276 | after deleting an id the collection holds exactly the plants with another id |
| PlantRegistry.WithoutAbsentPlant | tuba_backend/src/server.js:272-278 | deleting an id nobody has changes nothing |
| PlantRegistry.WithoutPlantIdempotent | tuba_backend/src/server.js:272-278 | deleting twice is the same as deleting once |
| PlantRegistry.WithoutPlantKeepsInvariant | tuba_backend/src/server.js:276 | deleting keeps identities fresh and distinct and owners and names non-empty |
| PlantRegistry.Registry.Create | tuba_backend/src/server.js:192-216 | a request without userId or name is rejected and changes nothing; otherwise one new plant, with a fresh identity and the given fields, is appended and returned (a whitespace-only name is accepted here; see Left out) |
| PlantRegistry.Registry.ListFor | tuba_backend/src/server.js:253-268 | a missing userId is rejected; otherwise the reply holds exactly the user's plants, as a permutation of the matches, earliest created first |
| PlantRegistry.Registry.Delete | tuba_backend/src/server.js:272-283 | delete always succeeds and leaves exactly the plants with another id |

## Left out

- HTTP and server plumbing: routing, CORS, JSON bodies, status codes as numbers, `listen`,
  environment configuration, the storage connection and index creation. These are I/O.
  The replies are `Result` values whose error cases name the outcome.
- Concurrency: the atomicity of the storage upsert. Operations are modelled one at a time.
  - The duplicate-key (409) outcome cannot arise sequentially, because `UpsertKeepsInvariant`
    keeps the key unique, so it is not modelled.
  - The generic server-error (500) outcomes come from storage failures, which are not modelled.
- `Number(...)` coercion, NaN and floating point: amounts are naturals. The summary's `days`
  is an integer, with `None` for a missing or empty parameter.
- Negative amounts: the upsert and patch routes run no validators
  (tuba_backend/src/server.js:54-69, 152-157), so the schema's `min: 0`
  (src/models/Entry.js:27, 30) is not enforced there, and a negative amount is stored. The
  model's `nat` amounts exclude negative values, so it does not capture that.
- Date parsing: `new Date(text)` of request strings is not modelled. A date arrives as a time
  value, with `None` for any falsy input; a caller maps a numeric date of 0, which is falsy,
  to `None`. Invalid dates, and the `RangeError` of `toISOString`, cannot arise within the
  `JsTime` range.
- Identities: record identities are natural numbers. Storage object ids, their format checks
  and the cast error of a malformed id are not modelled.
- Storage order: the natural order of a collection is the order of the sequence.
  - The `$first` date of the summary and the order of rows with equal dates depend on it.
  - The model's sort is stable; storage does not promise that on ties.
- Schema-level hooks on updates: the storage upsert and update do not run the
  `pre("validate")` hook or the validators. The ledger therefore takes its day key from the
  route, as the source does. `DayKey.EntryDocument` models the hook for documents that are
  validated.
- DayKey.EntryDocument: the schema default `date: Date.now` is not applied at construction.
  A missing date is kept as `None`, and the hook then uses `now`. This gives the day key the
  default would give only if the document is built and validated on the same UTC day; the
  model assumes that.
- Trimming of the plant text fields: it relies on Unicode whitespace rules and is not modelled.
- PlantRegistry.Registry.Create: a whitespace-only `name` passes the route's 400 check
  (tuba_backend/src/server.js:196), then `trim` makes it empty and the schema's `required`
  rejects it (tuba_backend/src/models/Plant.js:19-23), so the route answers 500
  (tuba_backend/src/server.js:212-214). The model has no trimming, so it creates that plant.
  `userId` is not trimmed by the schema, so this applies to the name only.
- The second, identical `POST /api/plants` route in tuba_backend/src/server.js:224-248 is
  shadowed by the first; it is modelled once.
- tuba_backend/src/models/Plant.js contributes only the record shape of `UserPlant`.
  Site/app.py is not part of this model.
- The catalogs are assumed well formed, as objects parsed from JSON are: no treatment key,
  and no issue key within one entry, appears twice (`TreatmentResolver.WellFormedCatalog`).
- The reference and treatment catalogs are parameters; their JSON files are not part of this
  model.

## Findings

| source | as written | input that shows it | evidently intended | confidence | as-written member | corrected member |
|---|---|---|---|---|---|---|
| floreheal-backend-esma/server.js:33 | `treatments[plant.treatmentKey]` is a property read, so it also finds names every object inherits, such as `constructor` or `toString` | a plant whose `treatmentKey` is "constructor", with a catalog that has no such key: the resolver returns "constructor", which is not a catalog key | only keys the catalog itself holds resolve, so a resolved key is always a catalog key | not executed | TreatmentResolver.AsWrittenResolvesInheritedName | TreatmentResolver.ResolveTreatmentKey |
| floreheal-backend-esma/server.js:149 | `plantTreatments[issueKey]` is a property read of an issue key taken from the request path, so it also finds inherited members such as `toString` | `GET /api/plants/<slug>/treatments/toString` for a plant whose key resolves to an entry without a `toString` issue: the route answers 200, and the reply has no treatment text | only issue keys the entry holds have a treatment text; any other key is not found | not executed | TreatmentResolver.AsWrittenAnswersInheritedIssue | TreatmentResolver.PlantTreatment |

The corrected resolver tests own keys only. The handlers in `TreatmentResolver` use it, and
`TreatmentResolver.ResolveTreatmentKey` proves that every resolved key is in the catalog.
`TreatmentResolver.AsWrittenAgreesOffInheritedNames` shows that the two resolvers differ on
nothing else.

The corrected treatment handler reads own issue keys only, and `TreatmentResolver.PlantTreatment`
proves that a reply always carries the text stored under such a key. The handler as written,
`TreatmentResolver.PlantTreatmentAsWritten`, uses the corrected resolver so that it differs in
the issue read only; `TreatmentResolver.TreatmentAsWrittenAgreesOffInheritedNames` shows that
the two handlers agree on every issue key that is not an inherited name.
