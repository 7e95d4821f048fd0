# videomark core, modelled in Dafny

This project models three parts of the videomark measuring extension and its
statistics UI, and proves properties of them.

- **Session tracking and sampling** (`session.dfy`, module `Session`). This is
  the `SessionData` object of the content script. It covers:
  - keeping the ordered list of video trackers in step with the page's video
    elements;
  - choosing the main video and reporting whether it is available;
  - the per-tick transaction, which sends a payload, asks the QoE service for
    a score, and stores the session record;
  - the log merge of the stored record;
  - the payload counters;
  - the two-phase tick loop started when the main video plays.

  Page elements and trackers are classes whose fields the page and the loop
  change in place. `SessionData` is a class with a `seq` field of trackers.
  `set_video_elms`, `_to_json`, `_transaction` and `_play_started` are
  methods proved against specification functions (`Survivors`,
  `NewPositions`, `Handoff`, `StoredLog`, `ExpectedTick`, `StoreAfter`). Only
  `set_video_elms` and `_play_started` have loops, and those carry
  invariants; `_to_json` and `_transaction` are straight-line.
- **Calendar heat-map layout** (`calendar.dfy`, module `Calendar`). This is the
  pure data shaping of the mini statistics calendar: sorting the days, cutting
  them at the first displayed Sunday, enumerating the displayed days with blanks,
  mapping days to grid cells, and placing month labels.
- **Locale helpers** (`i18n.dfy`, module `I18n`). These are the initial UI locale
  and `formatDateTime`: which date fields it requests and how it tidies the
  whitespace of the rendered text.
- `util.dfy` (module `Util`) holds JavaScript's `indexOf`, `slice(start)` and the
  stable numeric sort, shared by the three.

The world outside the model is supplied as parameters:
- Element flags (attached, main, playable) are the fields of `Element`, which the host page sets.
- The uuid of each new tracker is `ids[i]`, one per listed element.
- Each tick's availability, the main video's details and quality as its
  getters report them, QoE reply, clock readings, page location, and whether
  the main video is still the same after the tick's waits come from an
  `Observation` per tick. The payload's `video.get()` and the stored record's
  details and quality snapshot are that tick's readings, so they can differ
  from tick to tick within one run of `_play_started`.
- The platform's `toLocaleString` rendering is a function parameter.
- "Today" is a day number.

`Observation.available` is what `main_video.is_available()` returns at that
tick. The host page decides it, so the model takes it per tick. The element's
`playable` flag (`VideoData.IsAvailable`) is the same test at one instant, and
`get_video_availability` is modelled with it.

On these points the model follows the code exactly:
- `startTime`/`endTime` change only when a payload is built, on send ticks, not
  on every transaction (`src/js/modules/SessionData.js:297-298`).
- A QoE score of 0 counts as "no score": it neither ends the latest-QoE phase
  nor is appended to the buffer, because `!qoe` and `if (qoe)` test truthiness
  (`src/js/modules/SessionData.js:136`, `198`).
- A QoE request is awaited within its own tick. So every score is timestamped
  in the tick that asked for it.
- The stored record is built before the request is awaited, so it holds the
  scores received before that tick (`src/js/modules/SessionData.js:195-207`,
  `276-278`).
- The stored log is capped at `max_log` entries only when `max_log > 0`:
  `slice(-0)` keeps everything (`src/js/modules/SessionData.js:289`).

## Model

| member | source | states |
|---|---|---|
| Util.IndexOf | src/js/modules/SessionData.js:20 | `indexOf`: -1 exactly when absent, otherwise the first position holding the value |
| Util.JsSlice | packages/videomark-mini-stats/components/Calendar.tsx:72 | `slice(start)` is a suffix; a negative start keeps the last `-start` elements (all when fewer), a non-negative one drops `start` elements |
| Util.InsertBySorted | packages/videomark-mini-stats/components/Calendar.tsx:58-60 | inserting into an ascending list keeps it ascending, one longer, and adds exactly the inserted element |
| Util.SortBySorted | packages/videomark-mini-stats/components/Calendar.tsx:58-60 | the numeric-comparator sort returns a permutation of its input in ascending key order |
| Session.AppVersion | src/js/modules/SessionData.js:20 | the user agent after its first `/`; the whole string when there is no `/` |
| Session.SessionData.constructor | src/js/modules/SessionData.js:11-24 | a new session has zero times and sequence, no trackers, and the app version derived from the user agent |
| Session.VideoData.constructor | src/js/modules/SessionData.js:61-62 | a tracker can only be built for a wrappable element; it starts with an empty QoE buffer |
| Session.VideoData.AddLatestQoe | src/js/modules/SessionData.js:198-202 | a received score is appended to the video's buffer |
| Session.VideoData.Clear | src/js/modules/SessionData.js:77 | one call to `clear()` is recorded |
| Session.Storage.Save | src/js/modules/SessionData.js:263-277 | saving replaces the record under the (session, video) key and nothing else; the log the cache returns next (`storage.cache.log \|\| []`) is the saved one |
| Session.FindMain | src/js/modules/SessionData.js:33-35 | the first tracker whose video is the main one, or none when no tracker's is |
| Session.SessionData.MainVideo | src/js/modules/SessionData.js:33-35 | `get_main_video` returns the first main tracker; it returns nothing exactly when no tracker is main |
| Session.SessionData.VideoAvailability | src/js/modules/SessionData.js:40-44 | availability holds exactly when there is a main tracker and that first main tracker is available |
| Session.Survivors | src/js/modules/SessionData.js:71-79 | the trackers kept by `set_video_elms` are exactly those whose element is listed and stays, in their order |
| Session.Leavers | src/js/modules/SessionData.js:71-75 | `removing` holds exactly the trackers whose element is unlisted or no longer stays; trackers with distinct elements give distinct leavers |
| Session.NewPositionsExact | src/js/modules/SessionData.js:58-70 | the list positions that get a new tracker are exactly the wrappable, untracked elements at their first occurrence, ascending |
| Session.SessionData.AddingStep | src/js/modules/SessionData.js:59-65 | at each listed element, a tracker is created exactly when the element is a newcomer |
| Session.SpliceOne | src/js/modules/SessionData.js:78 | splicing at `indexOf` removes exactly that one tracker from the list |
| Session.WithoutLeavers | src/js/modules/SessionData.js:71-79 | removing exactly the leavers leaves the survivors |
| Session.SessionData.SetVideoElms | src/js/modules/SessionData.js:57-80 | the new list is the survivors of the old trackers followed by the new ones, so order is kept; new trackers are fresh, wrap the newcomer elements, and carry their ids; tracked elements stay pairwise distinct; every listed wrappable element that stays ends up tracked, and every removed tracker was cleared exactly once |
| Session.SessionData.AddTrackers | src/js/modules/SessionData.js:58-70 | the adding loop appends one fresh tracker per newcomer position and leaves every listed wrappable element tracked |
| Session.SessionData.RemoveLeavers | src/js/modules/SessionData.js:71-79 | the removal loop leaves the survivors and clears each removed tracker once; surviving trackers are not cleared |
| Session.SessionData.Drop | src/js/modules/SessionData.js:76-79 | one removal clears the tracker and splices it out at its index |
| Session.SessionData.DropAll | src/js/modules/SessionData.js:76-79 | the loop over `removing` clears each leaver exactly once and splices out exactly the leavers, keeping the order of the rest |
| Session.RequestQoe | src/js/modules/SessionData.js:237-260 | `_request_qoe` yields a score exactly when a reply arrived whose `qoe` parses to a number |
| Session.DropQoe | src/js/modules/SessionData.js:277 | the cached log keeps only its non-QoE entries |
| Session.QoeEntries | src/js/modules/SessionData.js:278 | the current scores become log entries one for one, in order |
| Session.MergedLog | src/js/modules/SessionData.js:276-287 | an entry is in the merge exactly when it is a cached non-QoE entry, one of the current scores, or the new quality snapshot |
| Session.DroppedAreOlder | src/js/modules/SessionData.js:288-289 | cutting a sorted list to a suffix drops only entries no later than every kept one |
| Session.StoredLogMeaning | src/js/modules/SessionData.js:276-289 | the stored log is sorted by date; has `min(max_log, merged length)` entries when `max_log > 0`, and all of them when `max_log` is 0; is a sub-multiset of the merge; every merged entry it drops is no newer than every entry it keeps, so it keeps the newest; contains no QoE entry other than the current scores |
| Session.SnapshotIsNewest | src/js/modules/SessionData.js:276-289 | when all other entries are older, the new quality snapshot is the last stored entry |
| Session.StoredRecord | src/js/modules/SessionData.js:262-290 | the saved record always has end time -1 and the merged log, so it never exceeds `max_log` entries |
| Session.HandoffAllCounts | src/js/modules/SessionData.js:296-300 | after n payloads the sequence has grown by n (so payloads are numbered 1, 2, 3, ...); each start time is the previous end time |
| Session.HandoffAllSnoc | src/js/modules/SessionData.js:296-299 | one more `_to_json` after a run of them is one more handoff at the end |
| Session.SequenceOfClocks | src/js/modules/SessionData.js:296-299 | over a run of ticks, the handoffs at the send clocks add exactly the number of send ticks to the sequence |
| Session.SessionData.ToJson | src/js/modules/SessionData.js:296-314 | one call hands the end time to the start time, takes the new clock reading, adds one to the sequence, and the payload carries exactly these values with the video's details and quality read at this tick |
| Session.SessionData.Transaction | src/js/modules/SessionData.js:182-217 | an unavailable video causes no send, no request, no store, and no change to counters, buffer or storage; when the video is available, a payload is built exactly when `data` holds and carries the handed-off counters and a snapshot of the video, and the record is always stored with the scores held before the tick; the score is asked for exactly when `request` holds, and a truthy score is appended |
| Session.SessionData.SendAndStore | src/js/modules/SessionData.js:188-207 | on an available video a payload is built exactly when `data` holds, with the handed-off counters, and the record built from the scores held before the tick replaces the stored one |
| Session.SessionData.AskQoe | src/js/modules/SessionData.js:192-203 | the score is asked for exactly when `request` holds, and only a truthy score joins the buffer |
| Session.SteadyRequestIsSendTick | src/js/modules/SessionData.js:163-167 | in the steady phase, every tick that asks for a score also sends a payload |
| Session.ExpectedTick | src/js/modules/SessionData.js:136-168 | a tick always stores when the video is available and never otherwise; it sends or asks only on an available video; a zero interval never sends (`i % 0` is `NaN`); a steady-phase request tick is a send tick; a latest-phase tick asks exactly when the video is available and the tick exceeds `qoe_request_start`; a score only comes with a request |
| Session.DataDueOnMultiples | src/js/modules/SessionData.js:141 | with a nonzero interval t, of the ticks t·q + r (0 ≤ r < \|t\|) exactly those with r = 0 send |
| Session.SteadyRequestPeriodic | src/js/modules/SessionData.js:164-167 | the steady request test repeats every `trans_interval·latest_qoe_update` ticks |
| Session.SendCadencePeriodic | src/js/modules/SessionData.js:141 | sends recur every `trans_interval` ticks |
| Session.LatestRequestTicksCount | src/js/modules/SessionData.js:126-143 | with `qoe_request_start` = `trans_interval·send_data_count_for_qoe − prev_count_for_qoe`, the number of ticks below n that exceed it (`LatestRequestDue`) is n minus the first such tick, or 0 |
| Session.LatestPhaseRequestBudget | src/js/modules/SessionData.js:126-143 | below `qoe_request_timeout` = `qoe_request_start + max_count_for_qoe` there are at most `max_count_for_qoe - 1` ticks on which the latest-QoE phase may ask |
| Session.LatestTraceRequests | src/js/modules/SessionData.js:136-143 | a run of latest-phase ticks asks on no more ticks than `LatestRequestTicks` counts |
| Session.LatestPhaseRequests | src/js/modules/SessionData.js:126-154 | a latest-phase run of at most `qoe_request_timeout` ticks asks for at most `max_count_for_qoe - 1` scores, whatever the observations |
| Session.SessionData.Tick | src/js/modules/SessionData.js:136-153 | one pass follows `ExpectedTick`; the counters take one handoff exactly on a send tick; the store holds the record built from the scores before the tick exactly when the tick stored, and is unchanged otherwise; the buffer gains the truthy score |
| Session.SessionData.LatestPhase | src/js/modules/SessionData.js:135-154 | the first loop runs at most `qoe_request_timeout` ticks with the latest-phase cadence; stops early only after a truthy score, at the end of the observations, or when the main video changed after a tick; the counters, the buffer and the store are the folds of its ticks (`HandoffAll`, `Appended`, `StoreAfter`) |
| Session.SessionData.SteadyPhase | src/js/modules/SessionData.js:159-178 | the second loop continues the tick index with the steady cadence, until the main video changes after a tick; the counters, the buffer and the store are the folds of all ticks so far |
| Session.SessionData.NextTick | src/js/modules/SessionData.js:136-178 | the tick after a trace in either loop follows `ExpectedTick`, and the counters, the buffer and the store are those of the longer trace |
| Session.SessionData.PlayStarted | src/js/modules/SessionData.js:125-179 | every tick follows its phase's cadence; the phase switch happens at the timeout or after a truthy score; the run returns right after the first tick whose main video changed; the counters are the handoffs at the clocks of the send ticks, so the sequence grows by their number; the buffer gains exactly the truthy scores; the first phase asks for at most `max_count_for_qoe - 1` scores; the store is the fold of the ticks' saves (`StoreAfter`), so no key other than (session, main video) changes, and nothing changes when the video was never available |
| Session.SessionData.PhaseTraceStep | src/js/modules/SessionData.js:136-178 | appending the expected tick to a trace that its loop continues keeps it a trace of that loop |
| Session.SessionData.PhasesJoin | src/js/modules/SessionData.js:125-179 | the traces of the two loops join into one run: each tick follows its phase's cadence, no first-phase tick before the last had a truthy score, every tick but the last kept the main video, and every tick stored exactly when the video was available |
| Session.SavedAtIsStored | src/js/modules/SessionData.js:262-290 | the record the run writes at a tick is the one `_store_session` builds from the video's details and quality read at that tick, the log then stored under the key, and the scores received before that tick |
| Session.StoreStep | src/js/modules/SessionData.js:195-207 | one tick's change to the store is the fold of the run extended by that tick |
| Session.StoreAfterOtherKeys | src/js/modules/SessionData.js:125-179 | over a run, every key other than the main video's keeps its presence and its record |
| Session.StoreAfterNoSave | src/js/modules/SessionData.js:136-153 | a run in which no tick stored leaves the store as it was |
| Session.StoreAfterLastSave | src/js/modules/SessionData.js:262-290 | after a run, the main video's key holds the record saved by the last tick that stored, built from the store and the buffer just before it; its location, media size, domain, start time, thumbnail and title are the ones read at that tick, and it has at most `max_log` log entries when `max_log > 0` |
| Session.StoreOnlyMain | src/js/modules/SessionData.js:125-179 | in a run whose ticks store exactly on an available video, no other key changes, and the store is unchanged when the video was never available |
| Calendar.BeginDate | packages/videomark-mini-stats/components/Calendar.tsx:63-66 | the first displayed day is a Sunday, 105 to 111 days before today |
| Calendar.WeekDay | packages/videomark-mini-stats/components/Calendar.tsx:63-65 | the day of the week is in 0..6 and counts the days since the latest Sunday (day 3, 1970-01-04, was one), so the first displayed day is a Sunday |
| Calendar.CivilFromDays | packages/videomark-mini-stats/components/Calendar.tsx:115 | the day of the month of a civil date is between 1 and 31 |
| Calendar.DayOfMonth | packages/videomark-mini-stats/components/Calendar.tsx:115 | `getDate` is between 1 and 31 |
| Calendar.DayOfMonthStep | packages/videomark-mini-stats/components/Calendar.tsx:115 | from one day to the next, `getDate` either goes up by one within the same month or is 1, and then the day before was at least the 28th and the month is the next one (December to January) |
| Calendar.MarchPartsStep | packages/videomark-mini-stats/components/Calendar.tsx:115 | counting months from March, the next day is the next day of the same month, or day 1 of the following month after a day of at least 28, also across the end of a 400-year era |
| Calendar.EraDayNext | packages/videomark-mini-stats/components/Calendar.tsx:115 | the day of the 400-year era after day `d` is the next one, or 0 after the era's last day |
| Calendar.DayOfYearStep | packages/videomark-mini-stats/components/Calendar.tsx:115 | within an era, the next day is the next day of the same year (which then had fewer than 365 days so far), or day 0 of the next year after day 364 or 365 |
| Calendar.YearOfEraNext | packages/videomark-mini-stats/components/Calendar.tsx:115 | the year of the next day of an era is the same year or the next one |
| Calendar.YearOfEraBracket | packages/videomark-mini-stats/components/Calendar.tsx:115 | every day of an era falls in one of its 400 years, between that year's March 1 and the next one's |
| Calendar.YearLength | packages/videomark-mini-stats/components/Calendar.tsx:115 | a year of the Gregorian cycle has 365 or 366 days |
| Calendar.EpochIsDayZero | packages/videomark-mini-stats/components/Calendar.tsx:115 | day 0 is 1970-01-01 |
| Calendar.LeapDay2000 | packages/videomark-mini-stats/components/Calendar.tsx:115 | day 11016 is 2000-02-29, so the Gregorian leap years are followed |
| Calendar.WithDate | packages/videomark-mini-stats/components/Calendar.tsx:54-55 | each datum gets its date, one for one |
| Calendar.SortAsc | packages/videomark-mini-stats/components/Calendar.tsx:58-60 | `sortAsc` returns a permutation in ascending date order |
| Calendar.FindOnOrAfter | packages/videomark-mini-stats/components/Calendar.tsx:70 | `findIndex` gives the first entry dated on or after `begin`, or -1 when there is none |
| Calendar.SliceEntries | packages/videomark-mini-stats/components/Calendar.tsx:70-72 | the kept entries are a suffix of the list, never empty when the list is not (a missing date gives `slice(-1)`) |
| Calendar.SliceEntriesOnSorted | packages/videomark-mini-stats/components/Calendar.tsx:69-74 | on an ascending list, `sliceDate` keeps exactly the entries on or after `begin` when one exists; otherwise keeps only the last entry, because `findIndex` gives -1 and `slice(-1)` follows |
| Calendar.ToMapMeaning | packages/videomark-mini-stats/components/Calendar.tsx:71-73 | the map's keys are exactly the entries' dates, and for a repeated date the later entry wins (`MapOf`) |
| Calendar.MapOfSnoc | packages/videomark-mini-stats/components/Calendar.tsx:71-73 | adding a later entry to the map of earlier ones gives the map of all of them |
| Calendar.SliceDateOnSorted | packages/videomark-mini-stats/components/Calendar.tsx:69-74 | on an ascending list, the days of `sliceDate` are exactly the dates on or after `begin` when one exists, and otherwise the last entry alone |
| Calendar.Lookup | packages/videomark-mini-stats/components/Calendar.tsx:109 | a day reads as blank exactly when it is absent or its value is 0 (`\|\| NaN`) |
| Calendar.IncludingBlank | packages/videomark-mini-stats/components/Calendar.tsx:104-110 | one slot per consecutive day from `begin`, `count` of them, each with its looked-up value |
| Calendar.DateToXY | packages/videomark-mini-stats/components/Calendar.tsx:83-90 | a day before `begin` falls left of the grid, in one of the rows 0 to -6 (`%` keeps the sign of `n`) |
| Calendar.DateToXYGrid | packages/videomark-mini-stats/components/Calendar.tsx:83-90 | for a day n ≥ 0 days after `begin`: x = daySize·⌊n/7⌋, y = daySize·(n mod 7), and 0 ≤ y ≤ 6·daySize |
| Calendar.WeekColumn | packages/videomark-mini-stats/components/Calendar.tsx:83-90 | the seven days of week w share column w, from top to bottom |
| Calendar.DateToXYInjective | packages/videomark-mini-stats/components/Calendar.tsx:83-90 | different days on or after `begin` get different cells |
| Calendar.FillOf | packages/videomark-mini-stats/components/Calendar.tsx:25-30 | a day is drawn blank exactly when its value is blank or min equals max (the rate is not finite); otherwise the rate r satisfies r·(max−min) = v−min |
| Calendar.SquareFor | packages/videomark-mini-stats/components/Calendar.tsx:112-128 | a day's square is filled from its value, and a day of the sixteen displayed weeks lies inside the 400-wide drawing, below the 20-high label band |
| Calendar.ShapesFor | packages/videomark-mini-stats/components/Calendar.tsx:111-129 | one day draws its square last, preceded by a month label at the square's x exactly when it is the first of a month |
| Calendar.Components | packages/videomark-mini-stats/components/Calendar.tsx:111-130 | the `flatMap` draws one or two shapes per day |
| Calendar.RectsOfComponents | packages/videomark-mini-stats/components/Calendar.tsx:111-130 | every displayed day gets exactly one square, in order, at its cell moved down by 20, filled from its value |
| Calendar.LabelsOfComponents | packages/videomark-mini-stats/components/Calendar.tsx:115-127 | a month label is drawn exactly for the days that are the first of their month, in order, at that day's x and y = 0 |
| Calendar.CalendarShapes | packages/videomark-mini-stats/components/Calendar.tsx:96-131 | the calendar draws one square per day from `begin` to today: between 106 and 112 squares |
| I18n.InitialLocale | src/lib/services/i18n.js:19-22 | the UI language's text before the first `-`, or `"en"` when that text is empty; never empty, never containing `-` |
| I18n.RequestedOptions | src/lib/services/i18n.js:41-54 | the year is requested iff `full` or the year differs; month and day are requested iff `full` or the day differs; hour and minute are requested iff `full` or the year is the same; at least one field is always requested: the same day gives the time only, another year the date only |
| I18n.SpaceWordsKeepsText | src/lib/services/i18n.js:55 | spacing out the words keeps the visible text |
| I18n.SpaceWords | src/lib/services/i18n.js:55 | `replace(/\b(\w+)\b/g, ' $1 ')` keeps the visible text, puts a space right before and right after every maximal run of word characters, and taking the inserted spaces out again (`Unpad`) gives the input back |
| I18n.UnpadSpaced | src/lib/services/i18n.js:55 | from any position on, the spaced text with its inserted spaces taken out is the original text |
| I18n.SpacedAfter | src/lib/services/i18n.js:55 | in the spaced text, every word character is followed by a word character or a space |
| I18n.SpacedBefore | src/lib/services/i18n.js:55 | in the spaced text, every word character is preceded by a word character or a space |
| I18n.RunsPadded | src/lib/services/i18n.js:55 | a text padded on both sides of its word characters has a space right before and right after each maximal run of them |
| I18n.FirstDoubleSpace | src/lib/services/i18n.js:56 | the leftmost place where two whitespace characters meet, or -1 when there is none |
| I18n.CollapseFirst | src/lib/services/i18n.js:56 | the replacement without `g` leaves a text without two adjacent whitespace characters unchanged, and otherwise replaces exactly the leftmost maximal whitespace run of length two or more by one space, keeping everything before and after it; the visible text and the words are kept |
| I18n.CollapseAll | src/lib/services/i18n.js:56 | with `g`, the visible text and the words are kept and no two whitespace characters remain side by side |
| I18n.Trim | src/lib/services/i18n.js:57 | `trim` keeps the visible text and the words, is a slice of its input, and leaves no whitespace at either end |
| I18n.WordsAppend | src/lib/services/i18n.js:55-57 | two pieces that meet at whitespace have the words of each, in order; the basis for the word clauses above |
| I18n.TidyAsWritten | src/lib/services/i18n.js:55-57 | the tidying as written keeps the visible text, has the words of the spaced-out rendering, and leaves no edge whitespace |
| I18n.TidyAsWrittenLeavesRuns | src/lib/services/i18n.js:55-57 | as written, `"a b c"` is tidied to `"a b   c"`: runs after the first survive |
| I18n.TidyAsWrittenKeepsLaterRuns | src/lib/services/i18n.js:55-57 | for every rendering: when the spaced-out text has two whitespace characters in a row after the end of its first such run, and a visible character somewhere after them, the tidied text as written still has two whitespace characters in a row |
| I18n.LaterRunSurvives | src/lib/services/i18n.js:56-57 | collapsing only the first run and trimming keeps any later pair of adjacent whitespace characters that has a visible character somewhere after it |
| I18n.Tidy | src/lib/services/i18n.js:55-57 | the corrected tidying keeps the visible text and the words of the spaced-out rendering, has no edge whitespace, and has no two whitespace characters in a row |
| I18n.FormatDateTime | src/lib/services/i18n.js:36-58 | the formatted text is the rendering of the requested options tidied as written: same visible text, the words of the spaced-out rendering, no edge whitespace |
| I18n.FormatDateTimeIntended | src/lib/services/i18n.js:36-58 | with every run collapsed, the formatted text also has no two whitespace characters in a row |

## Left out

- The unbounded `start()` loop, `event_wait` and `update_quality_info`. They are the async driver and DOM event plumbing. The model starts at `_play_started` for a given main video.
- Timers, `Promise.all` and the fixed wait of each tick. Their only effect is duration. A tick is one step driven by its `Observation`.
- The steady phase of `_play_started` never ends by itself. The model runs it for as many ticks as there are observations, which stands for the page's lifetime.
- `fetch`, MessagePack encoding and the storage back end. Only the payload value, the parsed QoE outcome and the saved record are modelled. `Storage` is a map from (session, video) to the last saved record, and that record is what the cache returns.
- `src/js/modules/VideoData.js` is not part of this model. The `VideoData` class here keeps what `SessionData` uses: its predicates read flags of the element, its constructor throwing is `Element.trackable` being false, and its quality, size and title getters are readings taken per tick (`Observation.info`, `Observation.quality`). Any cap on its QoE buffer is not modelled.
- `src/js/modules/Config.js` is not part of this model. Its values are the fields of the `Config` datatype.
- The user agent read from `window` is a constructor parameter.
- `uuidv4`, `Date.now`, `performance.now` and `new Date().toISOString()` are parameters.
- Floating-point arithmetic. `parseFloat` is given as an optional real. The luminance formula of `rateToColor` and the minimum and maximum of the values (`minAndMax`, which uses a helper outside this model) are left out or given as parameters.
- date-fns and `Intl`. Dates are day numbers since 1970-01-01. `startOfWeek` assumes weeks start on Sunday. `getDate` uses the civil calendar. `format` and `toLocaleString` are not modelled: a day's key is its day number, and the rendering is a parameter of `FormatDateTime`.
- The time zone. `new Date("yyyy-MM-dd")` is parsed as UTC while `addDays`/`getDate` work in local time. The model treats both as the same day number.
- The locale registration in `initAppLocales`: the `import.meta.glob` file list, its regular expression, and `addMessages`/`init`. This is build-tool and library plumbing. Only the initial locale expression is modelled.
- Util.SortBySorted: stability of the sort (equal dates keep their order) holds by construction but is not stated as a property.

## Findings

| source | as written | input that shows it | evidently intended | confidence | as-written member | corrected member |
|---|---|---|---|---|---|---|
| src/lib/services/i18n.js:56 | `.replace(/\s{2,}/, ' ')` has no `g` flag, so only the first run of whitespace is collapsed. The word spacing of line 55 creates a run wherever a word is next to existing whitespace: `"a b"` becomes `" a   b "`, while `"5,"` becomes `" 5 ,"` with no run. | `"a b c"` tidies to `"a b   c"` | every run collapsed (`/\s{2,}/g`), as for `"a b c"` → `"a b c"` | medium, not executed | I18n.TidyAsWritten, used by I18n.FormatDateTime (shown by I18n.TidyAsWrittenLeavesRuns) | I18n.Tidy, used by I18n.FormatDateTimeIntended |
