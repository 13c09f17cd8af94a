# Hospital management system: verified model of the scheduling and AI helpers

This project models, in Dafny, the algorithmic core of a Flask hospital
management system:

- `AppointmentScheduler` (ai_service.py). It trains on appointment history by
  counting how popular each (doctor, weekday, hour) is. It suggests up to five
  free half-hour slots, ranked by a fixed hour-band heuristic or, once
  trained, by a fitted regressor.
- `PatientFlowPredictor`. Its `predict_flow` gives hourly peaks, a no-show
  estimate and busy periods for one day.
- `NLPQueryProcessor.parse_query`. A priority-ordered, first-match-wins
  intent classifier over fixed regular expressions.
- `InventoryAlertSystem`. Stock alerts against the thresholds 5 and 10, and a
  restock estimate. An item whose quantity is stored as NULL (None) makes
  both raise `TypeError`, because `None <= 5` and `None / daily_usage` fail.
- The slot listing of the `get_slots` route (app.py). `generate_slots`, the
  occupied-time loop with its fallback string parsing, and the free-slot
  filter.
- The request check and same-day filter of the `ai_suggest_appointment`
  route.

Files:

- `common.dfy` holds the shared values. An `Option` type, Gregorian dates with
  Python's Monday-is-0 weekday, the appointment record, and the decimal
  formatting behind `strftime('%H:%M')` and `date.isoformat()`.
- `scheduler.dfy`, `flow.dfy`, `query.dfy` and `inventory.dfy` follow the four
  classes of ai_service.py.
- `api.dfy` follows the two routes of app.py.

Objects whose methods update fields are classes:

- `AppointmentScheduler` keeps `is_trained` and the fitted model.
- `PatientFlowPredictor` keeps `is_trained`.

Loops of the source are methods with loop invariants, proved equal to
specification functions:

- `SuggestOptimalTimes`, `BuildTrainingSamples`, `PredictFlow`, `CheckAlerts`,
  `GenerateSlots`, `GetSlots` and `CollectExisting`.
- Lemmas then state what the source promises of those functions.

`parse_query` is a pure function. Its regular expressions are interpreted by
a small backtracking matcher (`Query.MatchAt`). The matcher tries
alternatives in the same order as Python's `re`:

- greedy runs longest first;
- an optional character taken before it is skipped;
- alternations left to right;
- `.` never matches a newline.

Dates are taken as already parsed. A stored or received date string is an
`IsoText`, which is its text together with what `datetime.fromisoformat`
makes of it (nothing when it raises). `datetime.now()` is a parameter.

## Model

| member | source | states |
|---|---|---|
| Scheduler.AppointmentScheduler.constructor | ai_service.py:30-33 | a new scheduler is untrained and has no model |
| Scheduler.AppointmentScheduler.TrainModel | ai_service.py:59-119 | fewer than 10 records clears the trained flag (a trained scheduler reverts); with at least 10 and more than 5 usable samples the model is fitted on exactly those samples and the flag set; with at least 10 records but 5 or fewer samples nothing changes |
| Scheduler.BuildTrainingSamples | ai_service.py:66-101 | the samples are those of the records whose date parses (and doctor id is not NULL), in order, at most one per record, each target between 1 and the number of records |
| Scheduler.PopularityBound | ai_service.py:71-80 | the count of a (doctor, weekday, hour) bucket never exceeds the number of records |
| Scheduler.PopularityCountsSelf | ai_service.py:71-97 | a record whose date parses counts in its own bucket, so its target is at least 1 |
| Scheduler.SamplesBounded | ai_service.py:83-101 | no more samples than records; every target lies between 1 and the number of records |
| Scheduler.OccupiedMembers | ai_service.py:138-144 | an (hour, minute) is occupied iff some existing record's date parses to that hour and minute; records that do not parse are skipped |
| Scheduler.CandidatesInOrder | ai_service.py:131-135 | the 16 candidate slots 09:00 to 16:30 are strictly increasing in time of day |
| Scheduler.CandidateSlots | ai_service.py:131-135 | the nested hour and minute loops build exactly the candidate slots of the day |
| Scheduler.OccupiedSlots | ai_service.py:138-144 | the loop collects exactly the (hour, minute) pairs of the records whose date parses, skipping the rest |
| Scheduler.ScoreSlots | ai_service.py:147-177 | the scoring loop keeps exactly the free candidates, in order, each scored and labelled by the scorer |
| Scheduler.ScoreFreeMembers | ai_service.py:147-177 | a scored slot is exactly a candidate not occupied, scored and labelled as the scorer says |
| Scheduler.ScoreFreeInOrder | ai_service.py:147-177 | the scored free slots keep the candidates' ascending time order |
| Scheduler.ScoreFreeSource | ai_service.py:147-177 | every scored entry comes from a candidate that is not occupied, and is that candidate's score |
| Scheduler.ScoreFreeKeeps | ai_service.py:147-177 | every free candidate is kept, with its score |
| Scheduler.InsertElements | ai_service.py:180 | inserting into the sorted list adds exactly that one element |
| Scheduler.SortElements | ai_service.py:180 | sorting by score is a permutation |
| Scheduler.InsertRanked | ai_service.py:180 | inserting a later slot after all those scoring at least as much keeps the list ranked (score descending, earlier first on ties) |
| Scheduler.ConsRanked | ai_service.py:180 | putting in front a slot that outranks every one of a ranked list keeps it ranked |
| Scheduler.HeadOutranksInsert | ai_service.py:180 | after inserting a later slot into the tail of a ranked list, the head still outranks everything in the tail |
| Scheduler.SortRanked | ai_service.py:180 | the stable descending sort of slots given in time order is ranked: higher score first, earlier slot first among equal scores |
| Scheduler.TopFiveSpec | ai_service.py:180-181 | the result has min(5, n) elements, is ranked, comes from the scored list, every left-out slot is outranked by every returned one, and with 5 or fewer it is a permutation of them all |
| Scheduler.SuggestionsSpec | ai_service.py:121-185 | at most 5 suggestions; none when the date does not parse; otherwise each is on that day at hour 9..16 and minute 0 or 30, not occupied, displayed "HH:MM", scored 0.8/0.6/0.4 by hour band unless the fitted model is used, labelled by the trained flag alone; ranked; no better free slot left out; exactly 5 when at least 5 are free |
| Scheduler.TrainedWithoutHistoryLabelsHeuristicAsModel | ai_service.py:152-176 | a trained scheduler given no history scores by the heuristic yet labels every suggestion "ML recommended" |
| Scheduler.AppointmentScheduler.SuggestOptimalTimes | ai_service.py:121-185 | on a consistent scheduler (trained iff fitted) the loops build exactly the specified suggestions: at most 5, empty for an unparseable date, each well formed as above, ranked; the fitted model is there whenever it is used |
| Flow.PatientFlowPredictor.constructor | ai_service.py:191-193 | a new predictor is untrained |
| Flow.PatientFlowPredictor.TrainModel | ai_service.py:195-206 | trained iff there are at least 10 records |
| Flow.CountByHour | ai_service.py:216-223 | every hour's count in the map is the number of that day's records at that hour; records that do not parse are skipped |
| Flow.PeakHours | ai_service.py:226-234 | the loop over hours 9..16 builds exactly the specified peak entries |
| Flow.CountDay | ai_service.py:237-238 | the day's total, or an error exactly when some record's date does not parse (the comprehension has no `try`) |
| Flow.PeaksExact | ai_service.py:226-234 | the peak entries are exactly the hours 9..16 with at least 3 records that day, ascending, each with its count, busy iff the count is at least 5 |
| Flow.PeaksValid | ai_service.py:227-234 | every peak entry has an hour in range, a count of at least 3 that is that hour's count, and status busy iff the count is at least 5 |
| Flow.PeaksRising | ai_service.py:227 | the peak hours are strictly increasing |
| Flow.PeaksCover | ai_service.py:227-229 | every hour in range with a count of at least 3 has a peak entry |
| Flow.BusyOnlyExact | ai_service.py:247 | busy periods are exactly the busy peak entries, in order |
| Flow.BusyOnlyInOrder | ai_service.py:247 | filtering the peak entries for busy ones keeps them in strictly increasing hour order |
| Flow.HoursMakeTotal | ai_service.py:216-238 | the hourly counts over the whole day add up to the day's total, so hours outside 9..16 count towards the total |
| Flow.PeakCountsWithinTotal | ai_service.py:228-238 | no hour's count exceeds the day's total |
| Flow.SumHoursCovers | ai_service.py:216-223 | the count of an hour h below n never exceeds the summed counts of hours 0 to n-1 |
| Flow.PredictionSpec | ai_service.py:208-251 | an error exactly when the target date or any record's date does not parse; otherwise no-shows are the total/10 rounded down, arrivals are the rest, busy periods are the busy peaks, peaks and busy periods are both in strictly increasing hour order, and every peak lies in 9..16 and within the total |
| Flow.EmptyDay | ai_service.py:216-248 | no records gives zero counts and empty lists |
| Flow.TenAtEleven | ai_service.py:216-248 | ten records at 11 o'clock give one busy peak at 11, one no-show and nine arrivals |
| Flow.PatientFlowPredictor.PredictFlow | ai_service.py:208-251 | the loops compute the specified prediction; an error iff some date does not parse; arrivals plus no-shows make the total |
| Query.LowerSpec | ai_service.py:289 | `lower()` keeps the length, leaves no upper-case letter, keeps every other character, keeps letters, word characters and whitespace what they were, and is idempotent |
| Query.StripLeftSpec | ai_service.py:289 | the left strip drops exactly the leading whitespace |
| Query.StripRightSpec | ai_service.py:289 | the right strip drops exactly the trailing whitespace |
| Query.StripSpec | ai_service.py:289 | `strip()` yields the slice of the text with only whitespace around it, starting and ending with a non-space |
| Query.StripTrimmed | ai_service.py:289 | the stripped text is a slice of the text with only whitespace cut off either side |
| Query.StripEnds | ai_service.py:289 | the stripped text is empty or starts and ends with a non-space character |
| Query.RunLen | ai_service.py:261-283 | a greedy run takes every class character from its start and stops at the first one outside the class |
| Query.TryRunsLongest | ai_service.py:261-283 | backtracking over a greedy run returns the match for the longest length that lets the rest match, and succeeds iff some length does |
| Query.FitLenMaximal | ai_service.py:261-283 | the chosen run length is the longest that lets the rest match, and fits iff any length does |
| Query.TryRunsAtFitLen | ai_service.py:261-283 | backtracking returns the match of the rest after the chosen run length |
| Query.FirstAltSome | ai_service.py:267 | `(?:for\|with)` matches through one of its alternatives occurring at that position |
| Query.StepMatch | ai_service.py:261-283 | a match passes through a match of the rest of the pattern; only `(\w+)` changes the group, to the word it spans |
| Query.SplitMatch | ai_service.py:261-283 | a match of q followed by t passes through a match of t; a capture-free q leaves the group unchanged |
| Query.SearchFromSome | ai_service.py:299 | `re.search` succeeds iff the pattern matches at some position, and returns such a match |
| Query.FirstMatchSome | ai_service.py:298-302 | a list of patterns matches iff one of them does, and the result is that pattern's search |
| Query.SearchSuffix | ai_service.py:261-264 | a capture-free prefix can be dropped: a match of the whole implies a match of the rest |
| Query.PairMatchAt | ai_service.py:262-263 | `t1.*t2` matches at i iff t1 is at i and t2 follows with no newline between |
| Query.PairMatchSound | ai_service.py:262-263 | a match of `t1.*t2` at i has t1 at i and t2 later on the same line |
| Query.PairMatchComplete | ai_service.py:262-263 | t1 at i followed later by t2 on the same line makes `t1.*t2` match at i |
| Query.LitStep | ai_service.py:261-283 | a literal matches iff it occurs at that position, and the match continues right after it |
| Query.AnyRunSome | ai_service.py:262-274 | `.*` followed by the rest matches iff some run length up to the line end lets the rest match |
| Query.AnyRunFit | ai_service.py:272-274 | `.*` followed by the rest matches as the rest at the longest fitting length, and one character more would not fit |
| Query.AnyRunNoLater | ai_service.py:267-274 | `.*` followed by the rest matches as the rest at some point of the line, and the rest matches at no later point of that line |
| Query.NoFitLater | ai_service.py:267-274 | when no longer part of the line lets the rest match, the rest matches nowhere further on that line |
| Query.RunCoversLine | ai_service.py:262 | `.*` reaches every position before the next newline |
| Query.SearchPair | ai_service.py:262-263 | `re.search(t1.*t2)` succeeds iff t1 and then t2 occur on one line |
| Query.TodayIntent | ai_service.py:297-302 | the today intent fires iff one line of the normalised query has "today" then "appointments" or the reverse; the entities are then just today's date |
| Query.GroupIsWord | ai_service.py:267-283 | a captured group is always a non-empty run of word characters |
| Query.WordCaptureAtEnd | ai_service.py:272-274 | a final `(\w+)` matches iff a word character is there, and takes the whole word |
| Query.AnyThenWord | ai_service.py:272-274 | `.*(\w+)` at the end captures exactly one character, and it is the last word character of its line: no word character follows it before the next newline |
| Query.LastWordOfRun | ai_service.py:272-274 | when a longer greedy run would still let `(\w+)` match, the chosen one leaves only one character for it |
| Query.PatientPatternShape | ai_service.py:272-274 | each patient pattern is a capture-free prefix followed by `.*(\w+)` |
| Query.PatientGroup | ai_service.py:318-322 | what the patient patterns capture is a single word character, the last word character of its line |
| Query.PatientNameIsOneCharacter | ai_service.py:317-323 | a patient name is always one character, upper-cased: the last word character of the matched line of the normalised query |
| Query.FindPatientJohn | ai_service.py:287-323 | "find patient john" is a patient search whose only entity is the patient name "N" |
| Query.PatientIntent | ai_service.py:297-323 | a normalised query without "today" and "dr" on which the first patient pattern matches is a patient search |
| Query.PatientOneLine | ai_service.py:317-323 | on a one-line query ending in a word character, a patient search has exactly the entity patient name, that character upper-cased |
| Query.DoctorNameIsWord | ai_service.py:304-337 | a doctor name (either doctor intent) is the title-cased word that follows some "dr" of the query, an optional '.' and whitespace |
| Query.DrSound | ai_service.py:267-283 | a match of `dr\.?\s*(\w+)` followed by a capture-free rest has "dr" at its start, then an optional '.' and whitespace, then the captured word |
| Query.DrComplete | ai_service.py:267-283 | "dr" followed by an optional '.', whitespace and a word character makes `dr\.?\s*(\w+)` match there |
| Query.DrMatchIff | ai_service.py:267-283 | `dr\.?\s*(\w+)` matches at a position iff a usable "dr" is there |
| Query.DoctorPatternShape | ai_service.py:266-284 | every doctor and doctor-schedule pattern is a capture-free prefix, `dr\.?\s*(\w+)`, and a capture-free suffix |
| Query.DrPatternName | ai_service.py:266-284 | a search for such a pattern captures the word after a "dr", an optional '.' and whitespace |
| Query.SearchThroughPrefix | ai_service.py:299-306 | a search for a capture-free prefix and then t finds a match of t with nothing captured |
| Query.DoctorPatternsCapture | ai_service.py:266-284 | every doctor pattern contains the capture |
| Query.EndCaptureWholeWord | ai_service.py:267-268 | a pattern ending in its only capture `(\w+)` captures a word that cannot be extended to the right |
| Query.DoctorNameWholeWord | ai_service.py:305-309 | when one of the first two doctor patterns matches, the doctor name is the whole word after the last usable "dr" of the line, not the first: it runs to a non-word character or the end, and no later "dr" on that line is followed by a word |
| Query.LastDrName | ai_service.py:267-268 | `.*dr\.?\s*(\w+)` after a capture-free prefix captures the whole word after the last usable "dr" of the line |
| Query.LastDrMatch | ai_service.py:267-268 | the `dr\.?\s*(\w+)` of such a search matches at a point after which it matches nowhere on that line |
| Query.NoLaterDr | ai_service.py:267-268 | no match of `dr\.?\s*(\w+)` later on a line means no usable "dr" later on it |
| Query.DrugstoreQuery | ai_service.py:287-315 | "appointments for dr smith at the drugstore" is a doctor query for "Ugstore", with no date |
| Query.DrugstoreIntent | ai_service.py:297-315 | without "today", a match of the second doctor pattern makes the query a doctor query |
| Query.DoctorWithoutDate | ai_service.py:310-315 | a doctor query without "today" or "tomorrow" carries no date and no patient name |
| Query.FinalDrWord | ai_service.py:268 | when a line's last word begins with a usable "dr" and no 'd' follows, the name is the rest of that word |
| Query.AppointmentsThenDr | ai_service.py:268 | "appointments" at the start and a usable "dr" later on its line make the second doctor pattern match |
| Query.Lacks | ai_service.py:311-313 | a word with a character that never occurs in s is not in s |
| Query.ContainsIff | ai_service.py:311-313 | `t in s` iff t occurs in s at some position |
| Query.MatchLiterals | ai_service.py:261-283 | every literal of a matching pattern occurs in the query |
| Query.SearchLiteral | ai_service.py:261-283 | a literal of a pattern that a search finds is contained in the query |
| Query.FirstMatchLiteral | ai_service.py:261-283 | a literal that every pattern of a list carries is in the query when the list matches |
| Query.IntentKeywords | ai_service.py:287-339 | each intent needs its keywords: "today" and "appointments"; "dr" and "appointments"; "patient"; "appointment"; "dr" |
| Query.BlankQueryIsUnknown | ai_service.py:287-339 | a query that is empty once stripped gives intent unknown, no entities, and the raw query back |
| Query.OccurrencesAgree | ai_service.py:311 | two occurrences in one string agree wherever they overlap |
| Query.TodayAppointmentsApart | ai_service.py:262-263 | "today" and "appointments" never overlap |
| Query.TodayNearAppointments | ai_service.py:262-263 | in a one-line query containing both words, one of them is followed by the other on that line |
| Query.SingleLineDoctorDate | ai_service.py:298-315 | on a one-line query a doctor-appointments result never carries today's date: it is tomorrow's if "tomorrow" occurs, else absent |
| Inventory.AlertForSpec | ai_service.py:354-372 | `TypeError` exactly when the quantity is None; otherwise critical with high priority at 5 or fewer, warning with medium priority from 6 to 10, nothing above 10; a missing quantity is 0, a missing name "Unknown"; the message starts with "CRITICAL: name" or "WARNING: name" |
| Inventory.SeverityMonotone | ai_service.py:357-365 | lower stock never draws a milder alert |
| Inventory.AlertsAppend | ai_service.py:353-374 | the alerts of two lists are the alerts of each, in input order; a None quantity in either raises |
| Inventory.AlertsCount | ai_service.py:353-374 | `TypeError` iff some item's quantity is None; otherwise at most one alert per item, and every alert is that of one of the items |
| Inventory.AlertsRaise | ai_service.py:353-357 | the alerts raise iff some item's quantity is None |
| Inventory.AlertsFromItems | ai_service.py:353-374 | computed alerts number at most one per item, and each is the alert of one of the items |
| Inventory.ItemThresholdIgnored | ai_service.py:345-365 | the item's own low-stock threshold does not change its alert |
| Inventory.CheckAlerts | ai_service.py:349-374 | the loop returns exactly the alerts of the items, at most one per item, each from an item, and raises `TypeError` iff some quantity is None |
| Inventory.RestockSpec | ai_service.py:376-383 | no estimate iff usage is at most 0; `TypeError` iff usage is positive and the quantity None; otherwise for stock on hand the estimate d is the number of whole days the stock lasts, d*u <= q < (d+1)*u, and for negative stock it is minus the whole days of its size |
| Inventory.WholeDays | ai_service.py:382-383 | for stock q >= 0 and usage u > 0, d = floor(q/u) satisfies d*u <= q < (d+1)*u |
| Inventory.NegativeDays | ai_service.py:382-383 | for negative stock, `int()` truncating toward zero gives d <= 0 with -d*u <= -q < (-d+1)*u |
| Inventory.MultiplyBounds | ai_service.py:382 | bounds on q/u carry over to bounds on q once multiplied by u > 0 |
| Inventory.RestockExamples | ai_service.py:376-383 | 10 units at 2 a day last 5 days; -3 units at 2 a day give -1 (toward zero); usage 0 gives none; a None quantity raises with usage 1.0 but not with usage 0.0 |
| Common.NextDayOrdinal | ai_service.py:314 | `timedelta(days=1)` moves to a valid next date, one ordinal on, weekday plus one modulo 7 |
| Common.NextDayStep | ai_service.py:314 | the day after a valid date is valid and one ordinal later |
| Common.YearLength | ai_service.py:314 | a year has 366 days when it is a leap year and 365 otherwise |
| Common.NatToStringRoundTrip | app.py:266 | decimal rendering reads back as the number |
| Common.ZeroPadRoundTrip | app.py:266 | zero padding reads back as the number |
| Common.ClockLabelRoundTrip | app.py:266 | "HH:MM" of an hour and a minute below 100 has length 5 and parses back to them |
| Api.GenerateSlots | app.py:260-269 | the while loop builds exactly the labels of start, start+interval, ... below the end |
| Api.SlotMinutesElements | app.py:262-268 | the i-th slot is start + i*interval minutes |
| Api.SlotMinutesCount | app.py:262-268 | the number of slots is the ceiling of (end - start)/interval |
| Api.MinuteLabelRoundTrip | app.py:265-266 | a minute of the day below 6000 renders as 5 characters that parse back to it |
| Api.SlotsInTimeOrder | app.py:260-269 | every generated label is "HH:MM" of its minute, strictly increasing |
| Api.SlotAt | app.py:260-269 | the i-th generated label has length 5 and reads as start + i*interval |
| Api.DefaultSlotsAreHalfHours | app.py:271 | the default grid has 16 labels, the i-th being "HH:MM" of hour 9 + i/2 and minute 0 or 30 by parity |
| Api.DefaultSlotsEnds | app.py:271 | the default grid has 16 labels, the first "09:00" and the last "16:30" |
| Api.DefaultSlotAt | app.py:271 | the i-th default label is the clock label of 9 + i/2 hours and i%2*30 minutes |
| Api.IndexOf | app.py:284-288 | the first position of a character, or none when it is absent |
| Api.OccupiesSpec | app.py:275-291 | a NULL or empty date occupies nothing; a parsed one occupies its "HH:MM" on its own day; an unparsed one occupies exactly its time part (at most five characters after the first 'T') when that is non-empty and its date part (before the first 'T') equals the request, and nothing otherwise |
| Api.FallbackAgreesOnCanonicalText | app.py:279-289 | on "YYYY-MM-DDTHH:MM..." text the split fallback gives the same day and time as parsing |
| Api.NoTIndex | app.py:284 | the first 'T' after a prefix without one is right after that prefix |
| Api.SplitAtFirstT | app.py:284-287 | splitting "day T clock tail" at the first 'T' gives the day, and the five characters after it give the clock |
| Api.IsoDateHasNoT | app.py:280 | an ISO date contains no 'T' |
| Api.ClockLabelHasNoT | app.py:281 | an "HH:MM" label contains no 'T' and has 5 characters |
| Api.DigitsHaveNoT | app.py:284 | digit strings contain no 'T' |
| Api.ValuesMembers | app.py:273-291 | a time is in the set iff some appointment contributes it |
| Api.OccupiedTimesMembers | app.py:272-291 | a time is occupied iff one of the doctor's appointments occupies it on that date |
| Api.CollectOccupied | app.py:272-291 | the loop collects exactly the times the doctor's appointments occupy on the requested date |
| Api.FilterFree | app.py:293 | the comprehension keeps exactly the unoccupied generated slots, in order |
| Api.FreeSlotsMembers | app.py:293 | a free slot is exactly a generated slot not occupied, and there are no more than generated |
| Api.FreeSlotsInOrder | app.py:293 | filtering keeps the time order |
| Api.GetSlots | app.py:258-294 | the route's loops return the default grid minus the occupied times |
| Api.GetSlotsSpec | app.py:258-294 | at most 16 free slots, exactly the unbooked half hours, in time order, and a booked time is never offered |
| Api.CollectExisting | app.py:351-369 | the request check and loop produce the specified response |
| Api.SuggestionExistingSpec | app.py:351-369 | 400 exactly when doctor_id or date is missing or false; otherwise exactly the doctor's records whose date text starts with the requested date |
| Api.SameDayRecordsMembers | app.py:359-369 | the kept records are those of the doctor starting with the date, no more than stored |
| Api.SameDayRecordsAppend | app.py:363-369 | the records kept from two lists one after the other are those kept from the first followed by those from the second, so stored order is kept |

## Left out

- The learned regressor, the scaler and `_extract_features`. The fitted model is represented by the samples it was fitted on. Its prediction is a function parameter (`learned`) of `SuggestOptimalTimes`.
- The branch for when the learning library is missing is left out. Without it the constructor's `StandardScaler()` raises, so a scheduler object cannot exist there.
- `Scheduler.AppointmentScheduler.TrainModel`: the `except` path of the fit is left out, because the fit is not modelled. Per-record parse failures are modelled.
- `datetime.fromisoformat` and `strptime` are not implemented; a date text carries its parse result (`IsoText`). Seconds and sub-second parts are dropped.
- An item's name of None is not modelled: the name column is NOT NULL (models.py:29), while quantity may be NULL (models.py:31).
- Lower-casing, stripping, `\w`, `\s` and `title()` are ASCII-only. Non-ASCII letters, digits and spaces are not modelled.
- Flow.PredictionSpec: `int(total * 0.1)` is modelled as `total / 10` on naturals. In double arithmetic the two agree for totals below 10^15. For much larger totals the product can round up to the next integer (9007199254738999 gives 900719925473900), which the model does not reproduce.
- `Inventory.RestockSpec`: the restock date is the day offset `int(quantity / daily_usage)`, not the formatted date `now + offset`. Division is exact, on reals.
- Flask routing, JSON and the SQL session are left out. `filter_by(doctor_id=...)` is a filter on the doctor id of the stored records.
- `existing_appts_data` keeps the whole records rather than `{date, doctor_id}` dictionaries.
- The part of `ai_suggest_appointment` after the filter (history, the scheduler call) is left out.
- `Api.GenerateSlots` requires a positive interval: with interval 0 the source loops forever. Only the default call (9, 17, 30) is made.
- The query dates come from `strftime('%Y-%m-%d')`, which may leave years below 1000 unpadded. The model always renders four digits, as `date.isoformat()` does.
- The global singleton instances and the `print` calls are left out.
- A concrete example of a two-line query is not worked out: "appointments dr x" followed by "today" on the next line is a doctor query that does get today's date. `Query.SingleLineDoctorDate` states the one-line case.
