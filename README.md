# MedTrainer Pro core, modelled in Dafny

MedTrainer Pro is a browser application for medical students. It has a
local account ledger, reading of research articles behind a monthly
free-tier quota, exams on an article, a study calendar, a timed
clinical-station simulator (ECOS) and a reading dashboard. This project
models the logic of those parts and proves what they promise:

- `AuthService` (auth_service.dfy) is the account ledger.
  - Pure functions say what each operation does to one account: the rank
    bands, the lazy monthly reset, the quota gate, the usage counter, the
    subscription upgrade, and the history and exam records.
  - The class `Store` holds the two persisted keys, the users map and the
    current-user key. Its methods perform the operations, and each states
    its new state in terms of those functions.
  - `Store.Valid` is preserved by every method: every account is stored
    under its own name, with the rank its experience earns.
  - `Store.HistoriesDistinct` is also preserved: no history holds an
    article twice.
  - `GatedRead` composes the gate, the counter and the history record in
    the order a reading action calls them, starting from the snapshot of
    the account that the caller holds. `GatedReadFresh` is the same action
    started from the stored account. The difference is a finding (below).
- `ExamModal` (exam_modal.dfy) covers answering and scoring:
  - True/False answers and Key Feature Problem (KFP) option toggles;
  - the submission score, with its DISCORDANCE rule that zeroes the exam;
  - the separate count and percentage shown on the review screen.
  - The two scoring rules are proved to agree where they should. The
    inputs where they part are exhibited.
- `StudyCalendar` (study_calendar.dfy) covers toggling and deleting
  sessions, the progress percentage, manual sessions, and sessions built
  from a planner reply.
- `PmcService` (pmc_service.dfy) covers article acquisition:
  - id normalisation and the choice of a specialty and of one search hit;
  - the tag-stripping regular expression;
  - the offline fallback record.
- `EcosModule` (ecos_module.dfy) covers the `m:ss` clock formatter, the
  countdown tick as a step function, and a class `EcosSession` whose
  handlers start, tick and reset the countdown.
- `Dashboard` (dashboard.dfy) covers the choice between the RCT and OBS
  checklists, the checklist ticks, and the PICO classification.
- Shared parts:
  - `Types` holds the records;
  - `Text` holds decimal rendering, ASCII lower-casing and substring search;
  - `Common` holds integer round-half-up percentages;
  - `Wrappers` holds `Option` and `Result`.

The clock, `Math.random()`, the network and the text-generation service are
parameters:

- a `Moment` carries the month and year the code compares;
- a real `u` with `0 <= u < 1` stands for `Math.random()`;
- a `Reply` or an `Option` stands for what a remote call returned.

New accounts take their `lastResetDate` from the moment the service module
was loaded, not the moment of creation. `INITIAL_USER` is a module-level
constant, evaluated once (services/authService.ts:6-16). The model follows
the code here (`Store.loadedAt`), although "reset date = creation time" is
the natural reading. Because of this, an account created in a later month
than the page load gets its counter reset on its first check.

## Model

| member | source | states |
|---|---|---|
| AuthService.CalculateRank | services/authService.ts:18-23 | Each rank holds exactly on its band. ELITE iff exp > 1000, SPECIALIST iff 500 < exp <= 1000, OPERATIVE iff 100 < exp <= 500, NOVICE otherwise. |
| AuthService.RankMonotone | services/authService.ts:18-23 | More experience never gives a lower rank. |
| AuthService.InitialUser | services/authService.ts:6-16 | A new account has zero experience and usage, FREE, empty lists, a consistent rank, and the load moment as its reset date. |
| AuthService.Saved | services/authService.ts:68-74 | `updateUser`'s value: the rank is recomputed from experience, and every other field is unchanged. |
| AuthService.Refreshed | services/authService.ts:76-88 | After the check the window is current. In another month or year, usage is 0, the reset date is now, and only those fields and the rank change. Otherwise the account is returned unchanged. |
| AuthService.RefreshedIdempotent | services/authService.ts:76-88 | A second check at the same moment changes nothing. |
| AuthService.CanPerform | services/authService.ts:90-95 | PREMIUM always passes. FREE passes iff the window is stale or usage < 3. |
| AuthService.Incremented | services/authService.ts:97-104 | PREMIUM is returned unchanged. FREE gets the refreshed usage + 1 and the refreshed reset date, so the window is current. Nothing else changes except the rank. |
| AuthService.FreeQuotaIsThreePerMonth | services/authService.ts:90-104 | From a fresh FREE window, three counted actions pass the gate and the fourth is refused. The counter has no ceiling. |
| AuthService.Upgraded | services/authService.ts:106-109 | The account becomes PREMIUM with a consistent rank, and nothing else changes. |
| AuthService.PremiumIsNeverMetered | services/authService.ts:90-109 | After an upgrade the gate passes and incrementing is the identity. |
| AuthService.RecordHistory | services/authService.ts:111-117 | There is no result iff the article is already in the history. Otherwise it is appended once, 10 experience is awarded, the rank is recomputed, and duplicate-freedom is kept. |
| AuthService.RecordHistoryOnce | services/authService.ts:111-117 | Recording the same article a second time gives nothing. |
| AuthService.RecordExam | services/authService.ts:119-125 | The result is appended, experience grows by score * 20, the rank is recomputed, and nothing else changes. |
| AuthService.StoredCurrent | services/authService.ts:60-64 | There is a current account iff the key is set, non-empty and stored; it is the stored account. The test is map membership, the corrected form of the truthy lookup `users[key]` at line 64; the two differ only on an inherited key such as "toString", which only the as-written login can make current. |
| AuthService.SignupAsWritten | services/authService.ts:44-54 | As written: refuses exactly the names that are stored or inherited by every JavaScript object; otherwise adds a fresh account. |
| AuthService.SignupAsWrittenRejectsInheritedName | services/authService.ts:46-48 | On an empty store, signing up as "toString" fails with USER_EXISTS. |
| AuthService.LoginCheckAsWritten | services/authService.ts:29-39 | The existence test of `login` as written. It fails iff the name neither looks registered (stored or inherited) nor is the bootstrap name. On success the bootstrap account is added iff it is the bootstrap name and was missing; otherwise the map is unchanged. |
| AuthService.LoginAsWrittenAcceptsInheritedName | services/authService.ts:36-39 | On an empty store, logging in as "toString" passes the test, and the current key then names no stored account. |
| AuthService.Store.constructor | services/authService.ts:27 | An empty ledger with no current user; both invariants hold. |
| AuthService.Store.UpdateUser | services/authService.ts:68-74 | Writes `Saved(u)` under u's name. Other entries and the current key are unchanged, and the invariants are kept. |
| AuthService.Store.CheckAndResetUsage | services/authService.ts:76-88 | Returns `Refreshed(u, now)`. Writes it only when the window was stale. |
| AuthService.Store.Login | services/authService.ts:26-42 | An unknown name other than the bootstrap name fails, with no change. Otherwise the bootstrap account is created if missing, the name becomes current, and the refreshed account is returned and written iff it was reset. |
| AuthService.Store.Signup | services/authService.ts:44-54 | A stored name fails with no change. Otherwise a fresh account is stored, becomes current and is returned. |
| AuthService.Store.Logout | services/authService.ts:56-58 | Clears the current key and keeps the accounts. |
| AuthService.Store.GetCurrentUser | services/authService.ts:60-66 | Nothing, with no write, when there is no stored current account. Otherwise the refreshed account, written iff it was reset. |
| AuthService.Store.CanPerformAction | services/authService.ts:90-95 | Returns `CanPerform`. A FREE account with a stale window is reset and written. |
| AuthService.Store.IncrementUsage | services/authService.ts:97-104 | Returns `Incremented`. Writes it for FREE, and does not write for PREMIUM. |
| AuthService.Store.UpgradeSubscription | services/authService.ts:106-109 | Returns and writes `Upgraded`. |
| AuthService.Store.AddHistory | services/authService.ts:111-117 | Without a current account: nothing and no write. Otherwise `RecordHistory` of the refreshed account, written when recorded; only the reset is written when the article was already read. |
| AuthService.Store.AddExamResult | services/authService.ts:119-125 | Without a current account: nothing and no write. Otherwise `RecordExam` of the refreshed account, written. |
| AuthService.ReadBase | components/LCAModule.tsx:41-43 | The account a reading action records on, with a current window. For FREE its history and experience are the caller's snapshot's, whatever the store held, and usage is the snapshot's refreshed usage + 1. For PREMIUM its history, experience and refreshed usage are the stored account's. |
| AuthService.AfterRead | services/authService.ts:111-117 | The article is in the history afterwards. An article already read leaves the account as it was. A new article is appended, adds 10 experience, and changes nothing else but the rank. |
| AuthService.FreshRead | services/authService.ts:97-117 | A read that starts from the stored account. The old history is a prefix of the new one, which holds the article. Experience grows by 10 iff the article is new. FREE usage is the refreshed usage + 1, and the window is current. |
| AuthService.FreshReadsKeepHistory | services/authService.ts:97-117 | Two reads from the stored account keep both articles and never shrink the history. Re-reading an article awards no experience and does not change the history. |
| AuthService.StaleSnapshotLosesHistory | components/LCAModule.tsx:41-43 | As the component calls them, a new account reading A, B, A passes the gate every time. After B the history is ["B"] with 10 experience; after the second A it is ["A"] with 10 experience and usage 3. |
| AuthService.GatedRead | components/LCAModule.tsx:33-49 | Allowed iff `CanPerform` of the snapshot. Refused: no write, and the snapshot is kept. Allowed: the caller's next snapshot is `Incremented` of the old one. Only the reader's entry changes, to `AfterRead` of `ReadBase` of the stored account and the snapshot. Both store invariants are kept. |
| AuthService.GatedReadFresh | components/LCAModule.tsx:33-49 | The corrected action. Allowed iff the stored account may act. Refused: no write. Allowed: only the reader's entry changes, to `FreshRead` of the stored account. Both store invariants are kept. |
| AuthService.ReadingSessionScenario | components/LCAModule.tsx:51-63 | Signing up and reading A, B, A through `GatedRead` with the snapshots the component keeps stores histories ["A"], ["B"], ["A"], each time with 10 experience, and usage 1, 2, 3. |
| ExamModal.AnswerTF | components/ExamModal.tsx:186-189 | After submission: no change. Before: only that question's answer is set. |
| ExamModal.RemoveAll | components/ExamModal.tsx:196 | The id is gone and every other id's presence is kept. |
| ExamModal.ToggleId | components/ExamModal.tsx:194-199 | The option is present afterwards iff it was absent before; other ids are unaffected. |
| ExamModal.AnswerKFP | components/ExamModal.tsx:191-201 | After submission: no change. Before: only that question's selection is toggled. |
| ExamModal.RemoveAllAbsent | components/ExamModal.tsx:196 | Filtering out an absent id is the identity. |
| ExamModal.ToggleTwiceRestores | components/ExamModal.tsx:194-199 | Selecting a new option twice restores the selection. |
| ExamModal.RemoveAllKeepsDistinct | components/ExamModal.tsx:196 | Filtering keeps a selection free of repeats. |
| ExamModal.ToggleKeepsDistinct | components/ExamModal.tsx:194-199 | Selections built by toggling never repeat an id. |
| ExamModal.CorrectIds | components/ExamModal.tsx:214 | An id is listed iff some CORRECT option has it. |
| ExamModal.SubmitCount | components/ExamModal.tsx:208-220 | The number of counted questions never exceeds the number scored. |
| ExamModal.HandleSubmit | components/ExamModal.tsx:203-231 | Marks the exam submitted. The score is the submission count, or 0 and a fatal error when any DISCORDANCE option was selected. total = number of questions, and 0 <= score <= total. |
| ExamModal.KfpCountsIffExactSelection | components/ExamModal.tsx:209-216 | A KFP question with options counts iff there is no DISCORDANCE selection, every CORRECT option is selected, and only CORRECT options are selected. |
| ExamModal.UnansweredNeverCorrect | components/ExamModal.tsx:218 | An unanswered True/False question with an expected answer is never counted. |
| ExamModal.DisplayCount | components/ExamModal.tsx:235-247 | The review-screen count never exceeds the number of questions. |
| ExamModal.CalculateScore | components/ExamModal.tsx:235-247 | The loop computes the review-screen count. |
| ExamModal.DisplayPercentage | components/ExamModal.tsx:233 | 0 without questions or after a fatal error. Otherwise the round-half-up percentage of the review count, at most 100. |
| ExamModal.RulesAgreeOnQuestion | components/ExamModal.tsx:208-247 | The two per-question rules agree on non-KFP questions, and on KFP questions with a CORRECT option and no DISCORDANCE selected. |
| ExamModal.ScoresAgree | components/ExamModal.tsx:203-247 | Under that condition for every question, the submitted and displayed scores are equal. |
| ExamModal.RulesDisagree | components/ExamModal.tsx:209-241 | Two concrete questions count on submission but not on screen. One is KFP with no CORRECT option and is unanswered. The other is typed KFP without options and without an expected answer. |
| Common.RoundedPercent | components/StudyCalendar.tsx:25 | Integer `Math.round(part/whole*100)`: at most 100, 0 for 0, 100 for all, and within half a point of the exact ratio. |
| StudyCalendar.ToggleSession | components/StudyCalendar.tsx:109-113 | The length is kept. Sessions with that id flip PENDING/DONE and nothing else; other sessions are unchanged. |
| StudyCalendar.ToggleSessionTwice | components/StudyCalendar.tsx:109-113 | Toggling an id twice restores the plan. |
| StudyCalendar.DeleteSession | components/StudyCalendar.tsx:115-117 | Exactly the sessions with another id survive. |
| StudyCalendar.DeleteSessionAppend | components/StudyCalendar.tsx:115-117 | Deleting distributes over concatenation, so the survivors keep their order. |
| StudyCalendar.DeleteAbsentId | components/StudyCalendar.tsx:115-117 | Deleting an id no session has is the identity. |
| StudyCalendar.DoneCount | components/StudyCalendar.tsx:24 | At most the plan's length, and 0 iff every session is PENDING. |
| StudyCalendar.Progress | components/StudyCalendar.tsx:22-25 | 0 for an empty or all-PENDING plan, 100 for an all-DONE plan, and otherwise the rounded DONE share. |
| StudyCalendar.AllDoneCount | components/StudyCalendar.tsx:24 | An all-DONE plan counts all its sessions. |
| StudyCalendar.AddManualSession | components/StudyCalendar.tsx:89-107 | Without a topic or focus: no change. Otherwise one PENDING 60-minute session for today is appended, and the form is cleared and hidden. |
| StudyCalendar.BuildSessions | components/StudyCalendar.tsx:66-78 | One session per item: id stamp + index, date today + index / 2, PENDING, and the item's fields. |
| StudyCalendar.AppendGenerated | components/StudyCalendar.tsx:63-87 | A failed reply keeps the plan. Otherwise the old plan is a prefix, the tail is exactly the sessions built from the reply, and those are PENDING and spread two per day. |
| StudyCalendar.BuiltIdsDistinct | components/StudyCalendar.tsx:70 | The sessions from one reply have pairwise distinct ids. |
| Text.NatToString | components/StudyCalendar.tsx:70 | A non-empty run of digits, one digit long iff the number is below 10, with no leading zero. |
| Text.DigitsValueOfNatToString | components/ECOSModule.tsx:37 | Reading a rendered number back gives the number. |
| Text.NatToStringInjective | components/StudyCalendar.tsx:70 | Distinct numbers render differently. |
| Text.ToLowerAscii | components/Dashboard.tsx:26 | Same length, with every letter A-Z lowered and every other character kept. |
| Text.Contains | components/Dashboard.tsx:26 | `includes`: true iff the substring occurs at some position. |
| PmcService.TrimStart | services/pmcService.ts:23 | A suffix; everything dropped is whitespace, and it does not start with whitespace. |
| PmcService.TrimEnd | services/pmcService.ts:23 | A prefix; everything dropped is whitespace, and it does not end with whitespace. |
| PmcService.Trim | services/pmcService.ts:23 | A slice whose dropped ends are whitespace, and which neither starts nor ends with whitespace. |
| PmcService.NormalizeId | services/pmcService.ts:22-24 | The trimmed id, with "PMC" prefixed iff it is a non-empty run of digits. |
| PmcService.ManualQuery | services/pmcService.ts:22-25 | The query is "ext_id:" followed by the normalised id: trimmed, and prefixed with "PMC" exactly when it is a non-empty run of digits (`NormalizeId`). |
| PmcService.ManualQueryIgnoresPrefix | services/pmcService.ts:22-25 | The same record is asked for whether the id is typed bare, with its "PMC" prefix, or already normalised. |
| PmcService.NormalizeIdIdempotent | services/pmcService.ts:22-24 | Normalising a normalised id changes nothing. |
| PmcService.TrimUnchanged | services/pmcService.ts:23 | A string without surrounding whitespace is its own trim. |
| PmcService.WithoutRandom | services/pmcService.ts:9 | Exactly the keys other than "random". |
| PmcService.RandomIndex | services/pmcService.ts:10 | `Math.floor(u * n)` is a valid index. |
| PmcService.SpecialtiesBesidesRandom | constants.ts:3-47 | The specialty table has keys besides "random". |
| PmcService.QuerySpecialty | services/pmcService.ts:5-11 | A given key is kept. "random" becomes a real table key other than "random". |
| PmcService.SearchTerms | services/pmcService.ts:14 | Same length, every '_' is a space, and no '_' is left. |
| PmcService.TagLength | services/pmcService.ts:36 | The match of `<[^>]*>?` runs through the first '>' or to the end. |
| PmcService.StripTags | services/pmcService.ts:36 | The result has no '<' and is no longer than the input. |
| PmcService.StripTagsPlainText | services/pmcService.ts:36 | Text without '<' passes unchanged. |
| PmcService.StripTagsIdempotent | services/pmcService.ts:36 | Stripping twice equals stripping once. |
| PmcService.StripTagsDropsTextAfterBareLessThan | services/pmcService.ts:36 | "P<0.05 in both arms" strips to "P". |
| PmcService.CleanAbstract | services/pmcService.ts:36 | The stripped abstract, or the stripped placeholder when it is absent or empty; never contains '<'. |
| PmcService.LoadArticle | services/pmcService.ts:28-48 | With hits: some hit, with its abstract cleaned. Without hits or on failure: the backup record with "[OFFLINE_MODE] " before its title. |
| PmcService.LoadedAbstractSanitised | services/pmcService.ts:32-46 | A hit's abstract never contains '<'. The offline record's abstract does. |
| EcosModule.FormatTime | components/ECOSModule.tsx:34-38 | The decimal rendering of the whole minutes, with no leading zero, then ':' and then exactly two digits. |
| EcosModule.FormatTimeReadsBack | components/ECOSModule.tsx:34-38 | The seconds field is below 60, and minutes * 60 + seconds gives back the input. |
| EcosModule.FormatTimeOfFullStation | components/ECOSModule.tsx:18 | 420 seconds displays as "7:00". |
| EcosModule.TickStep | components/ECOSModule.tsx:24-32 | One step of the effect. An active timer above 0 loses one second, through one firing of the interval. A timer at 0 is switched off by the effect's own run. A stopped timer is unchanged. The simulation flag is never touched. |
| EcosModule.TicksStayInRange | components/ECOSModule.tsx:26-27 | Any number of steps keeps the timer between 0 and its start. |
| EcosModule.CountdownEnds | components/ECOSModule.tsx:24-30 | A running countdown from t reaches 0 after t firings, and the next run of the effect stops it: t + 1 steps in all. |
| EcosModule.StoppedClockIsFrozen | components/ECOSModule.tsx:26-28 | A stopped countdown never moves. |
| EcosModule.EcosSession.constructor | components/ECOSModule.tsx:15-20 | 420 seconds, stopped, no simulation, candidate view, no station. |
| EcosModule.EcosSession.Tick | components/ECOSModule.tsx:24-32 | The new countdown is `TickStep` of the old. The 0..420 range is kept. |
| EcosModule.EcosSession.StartSimulation | components/ECOSModule.tsx:111-114 | Timer and simulation both run, and the time is unchanged. |
| EcosModule.EcosSession.Reset | components/ECOSModule.tsx:246 | 420 seconds, stopped, no simulation. |
| EcosModule.EcosSession.GenerateStation | components/ECOSModule.tsx:40-109 | Reset as above plus candidate view. The reply is kept iff it has a non-empty title. |
| EcosModule.EcosSession.SetViewMode | components/ECOSModule.tsx:166-176 | Only the view changes. |
| Dashboard.ChecklistType | components/Dashboard.tsx:25-27 | None iff there is no article. RCT iff the lower-cased abstract contains "randomized", otherwise OBS. |
| Dashboard.ChecklistIgnoresCase | components/Dashboard.tsx:26 | The choice does not depend on letter case. |
| Dashboard.MarkerInAnyCaseGetsTrialChecklist | components/Dashboard.tsx:26 | Any abstract holding, anywhere, a word that lower-cases to "randomized" gets RCT. |
| Dashboard.NonRandomizedGetsTrialChecklist | components/Dashboard.tsx:26 | Any abstract holding "Non-Randomized" gets RCT, because the test is a substring test. |
| Dashboard.NoLetterRGetsObservationalChecklist | components/Dashboard.tsx:26 | Any abstract without the letter r in either case gets OBS. |
| Dashboard.OfflineRecordGetsTrialChecklist | components/Dashboard.tsx:25-27 | The offline record gets RCT. |
| Dashboard.ChecklistItems | constants.ts:153-162 | Each checklist has five items. |
| Dashboard.Click | components/Dashboard.tsx:138 | Item i flips between ticked and unticked. The keys gain i, and other entries are unchanged. |
| Dashboard.ClickTwice | components/Dashboard.tsx:138 | Two clicks restore every item's state, and the very map once i has an entry. |
| Dashboard.ClickStaysOnChecklist | components/Dashboard.tsx:136-138 | Clicks on shown items keep every key an index of the checklist. |
| Dashboard.PicoOptions | components/Dashboard.tsx:33-37 | Four options per group. |
| Dashboard.SelectPico | components/Dashboard.tsx:116 | The chosen group holds the option, and the other groups are unchanged. |
| Dashboard.SelectPicoWellFormed | components/Dashboard.tsx:107-116 | Choosing an offered option keeps every group empty or one of its own options. |
| Dashboard.SelectPicoCommutes | components/Dashboard.tsx:116 | Choices in different groups commute. A second choice in a group overrides the first. |
| Dashboard.ArticleChanged | components/Dashboard.tsx:20-23 | A new article empties every PICO group and clears every tick. |

## Left out

- The text-generation service is not modelled: exam questions, stations, study plans, explanations and the coach. Its replies are parameters (`Option`, `Station`, `PlanItem`), and prompts are not modelled.
- The browser storage is modelled as two fields. JSON encoding, parse failures of stored data and the two keys being written non-atomically are left out.
- Calls that mutate the caller's account object in place (`user.usageCount = 0`, `history.push`) are modelled on values. The aliasing, where a caller's snapshot changes behind it, is not captured.
- Dates are a `Moment` of month and year (the clock), or a day number (the calendar). ISO strings, time zones and `Date.now()` ids are not modelled; the stamp is a parameter.
- Common.RoundedPercent: computes `Math.round(d / t * 100)` in exact arithmetic. Floating-point error at exact halves is not modelled.
- Text.ToLowerAscii: lowers only A-Z. `toLowerCase` also lowers non-ASCII letters, which this model leaves unchanged.
- PmcService.Trim: uses the whitespace set of `String.prototype.trim` as one fixed predicate.
- ExamModal.SelectedIds: a True/False answer stored for a KFP question with options is read as an empty selection. The source would throw when calling `includes` on a boolean. The screen never offers that input.
- The ECOS interval and effect lifecycle (`setInterval`, cleanup, the one-second period) are left out. One `Tick` is one step of the effect: a firing of the interval while the timer runs above 0, or the effect's own run that stops it at 0. The loading flags, the station's patient script and grid, and the timer colour are display only.
- PmcService.CategoryQuery builds the search query string with no contract. The HTTP exchange is `Reply`, and URL encoding is not modelled.
- The hit carries only the fields of an article; the other fields the service spreads into the result are left out.
- The lexicon highlighting, the dashboard mode selector, chart data and all rendering are left out, as are the UI-only files (CyberUI, AdUnit, PresentationModal, AuthModal, SubscriptionModal, PedagogicalBoard, VideoAnalyzer, AICoachWidget, SmartAssistant, MedicalEnglishModule, ArticleReader, App).
- App.tsx is not part of this model.
- AuthService.LoginCheckAsWritten: models only the existence test and the current key. What line 41 then does with an inherited function value (reading its fields and writing it back) is not modelled.
- The planner's items are taken as typed; the source does not validate the session type or the duration it receives.

## Findings

| source | as written | input that shows it | evidently intended | confidence | as-written member | corrected member |
|---|---|---|---|---|---|---|
| services/authService.ts:46-48 | The existence test `users[username]` is a property lookup on a plain object parsed from JSON. Names such as "toString" or "constructor" find an inherited function and read as taken. | `signup("toString")` on an empty store throws USER_EXISTS. | Only stored accounts count as registered. | not executed | AuthService.SignupAsWrittenRejectsInheritedName | AuthService.Store.Signup |
| services/authService.ts:36-39 | The same truthy lookup in `login`. | `login("toString")` on an empty store passes the test at line 36 and makes "toString" the current user, though no account has that name. | Only stored accounts can log in. | not executed | AuthService.LoginAsWrittenAcceptsInheritedName | AuthService.Store.Login |
| components/LCAModule.tsx:41-43 | The reading handlers pass the snapshot they hold to `incrementUsage`, which writes it back whole (services/authService.ts:97-103). They then keep its result as their snapshot, and never the account that `addHistory` stored. Each FREE read overwrites the stored history and experience with the snapshot's. | Sign up and read A, then B, then A: after B the history is ["B"]; after the second A it is ["A"], with 10 experience, and A was rewarded twice. | Each read keeps every earlier article and its reward. | not executed | AuthService.StaleSnapshotLosesHistory | AuthService.GatedReadFresh |

`AuthService.SignupAsWritten` and `AuthService.LoginCheckAsWritten` are the
as-written checks. `AuthService.Store.Signup` and `AuthService.Store.Login`
test membership in the users map, and the rest of the model uses them.
`AuthService.GatedRead` models the reading handlers as written, and
`AuthService.ReadingSessionScenario` runs the failing input through the
`Store` methods. `AuthService.GatedReadFresh` starts every read from the
stored account; `AuthService.FreshReadsKeepHistory` proves that no article
is then lost or rewarded twice.
