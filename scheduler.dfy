/** `AppointmentScheduler` of ai_service.py: suggests up to five half-hour
    slots for a doctor on a date, ranked by a fixed hour-band heuristic or, once
    trained, by a fitted regressor (kept abstract here as the `learned`
    argument). Training counts how popular each (doctor, weekday, hour) is. */
module Scheduler {
  import opened Common

  /** The label a suggestion carries; it follows the trained flag only. */
  datatype Reason = MLRecommended | Heuristic

  /** One suggested slot: its time, its "HH:MM" display, its score, its label. */
  datatype Suggestion = Suggestion(time: DateTime, display: string, score: real, reason: Reason)

  /** One training sample: the features the regressor sees (time, doctor,
      patient history) and its target, the popularity of that slot. */
  datatype Sample = Sample(time: DateTime, doctorId: int, historyCount: nat, target: nat)

  /** The popularity bucket of a record: doctor, weekday and hour. */
  datatype SlotKey = SlotKey(doctor: Option<int>, weekday: nat, hour: Hour)

  /** How a slot is scored: by the fitted regressor (`learned`, given the
      doctor id and the slot) when `useLearned`, else by the heuristic; the
      label follows `isTrained`. */
  datatype Scorer = Scorer(isTrained: bool, useLearned: bool, doctorId: int, learned: (int, DateTime) -> real)

  // ------------------------------------------------------------ training

  function KeyOf(a: Appointment): Option<SlotKey> {
    match ParsedDate(a)
    case None => None
    case Some(t) => Some(SlotKey(a.doctorId, Weekday(t.date), t.hour))
  }

  /** The number of records whose date parses and falls in bucket k. */
  function Popularity(records: seq<Appointment>, k: SlotKey): nat {
    if records == [] then 0
    else Popularity(records[..|records| - 1], k) + (if KeyOf(records[|records| - 1]) == Some(k) then 1 else 0)
  }

  /** The sample a record yields: none when its date does not parse, and none
      when its doctor id is NULL (the feature `doctor_id / 100.0` raises). */
  function SampleOf(a: Appointment, records: seq<Appointment>): Option<Sample> {
    match ParsedDate(a)
    case None => None
    case Some(t) =>
      if a.doctorId.None? then None
      else Some(Sample(t, a.doctorId.value, a.historyCount, Popularity(records, SlotKey(a.doctorId, Weekday(t.date), t.hour))))
  }

  /** The samples of the records in rs, in order, with targets counted over all of `records`. */
  function SamplesOf(rs: seq<Appointment>, records: seq<Appointment>): seq<Sample> {
    if rs == [] then []
    else
      SamplesOf(rs[..|rs| - 1], records)
      + (match SampleOf(rs[|rs| - 1], records) case None => [] case Some(x) => [x])
  }

  function TrainingSamples(records: seq<Appointment>): seq<Sample> {
    SamplesOf(records, records)
  }

  lemma {:induction false} PopularityBound(records: seq<Appointment>, k: SlotKey)
    ensures Popularity(records, k) <= |records|
  {
    if records != [] {
      PopularityBound(records[..|records| - 1], k);
    }
  }

  /** A record counts towards its own bucket. */
  lemma {:induction false} PopularityCountsSelf(records: seq<Appointment>, i: nat)
    requires i < |records| && KeyOf(records[i]).Some?
    ensures Popularity(records, KeyOf(records[i]).value) >= 1
  {
    var n := |records| - 1;
    if i < n {
      assert records[..n][i] == records[i];
      PopularityCountsSelf(records[..n], i);
    }
  }

  /** Every sample comes from a record of rs and its target counts that
      record: it lies between 1 and the number of records. */
  lemma {:induction false} SamplesBounded(rs: seq<Appointment>, records: seq<Appointment>)
    requires rs <= records
    ensures |SamplesOf(rs, records)| <= |rs|
    ensures forall x :: x in SamplesOf(rs, records) ==> 1 <= x.target <= |records|
  {
    if rs != [] {
      var n := |rs| - 1;
      SamplesBounded(rs[..n], records);
      var a := rs[n];
      if SampleOf(a, records).Some? {
        var k := KeyOf(a).value;
        assert records[n] == a;
        PopularityCountsSelf(records, n);
        PopularityBound(records, k);
      }
    }
  }

  /** `train_model`'s two counting loops: first the popularity of every
      (doctor, weekday, hour) bucket, then one sample per usable record. */
  method BuildTrainingSamples(records: seq<Appointment>) returns (samples: seq<Sample>)
    ensures samples == TrainingSamples(records)
    ensures |samples| <= |records|
    ensures forall x :: x in samples ==> 1 <= x.target <= |records|
  {
    var schedules: map<SlotKey, nat> := map[];
    for i := 0 to |records|
      invariant forall k :: k in schedules ==> schedules[k] == Popularity(records[..i], k)
      invariant forall k :: k !in schedules ==> Popularity(records[..i], k) == 0
    {
      assert records[..i + 1][..i] == records[..i];
      var a := records[i];
      match ParsedDate(a) {
        case Some(t) =>
          var k := SlotKey(a.doctorId, Weekday(t.date), t.hour);
          var old_count := if k in schedules then schedules[k] else 0;
          schedules := schedules[k := old_count + 1];
        case None =>
      }
    }
    assert records[..|records|] == records;
    samples := [];
    for j := 0 to |records|
      invariant samples == SamplesOf(records[..j], records)
    {
      assert records[..j + 1][..j] == records[..j];
      var a := records[j];
      match ParsedDate(a) {
        case Some(t) =>
          if a.doctorId.Some? {
            var k := SlotKey(a.doctorId, Weekday(t.date), t.hour);
            var target := if k in schedules then schedules[k] else 0;
            samples := samples + [Sample(t, a.doctorId.value, a.historyCount, target)];
          }
        case None =>
      }
    }
    assert records[..|records|] == records;
    SamplesBounded(records, records);
  }

  // ------------------------------------------------------------ suggesting

  /** The sixteen candidate slots of a day: 09:00, 09:30, ..., 16:30. */
  function Candidates(day: Date): seq<DateTime> {
    seq(16, i requires 0 <= i < 16 => DateTime(day, 9 + i / 2, (i % 2) * 30))
  }

  /** The (hour, minute) pairs of the records whose date parses. */
  function Occupied(existing: seq<Appointment>): set<(int, int)> {
    if existing == [] then {}
    else
      Occupied(existing[..|existing| - 1])
      + (match ParsedDate(existing[|existing| - 1]) case None => {} case Some(t) => {(t.hour, t.minute)})
  }

  /** The fixed heuristic: 0.8 for 10-14h, 0.6 for 9h and 15h, 0.4 otherwise. */
  function HeuristicScore(hour: int): real {
    if 10 <= hour <= 14 then 0.8 else if 9 <= hour <= 15 then 0.6 else 0.4
  }

  function ScoreOf(t: DateTime, sc: Scorer): Suggestion {
    Suggestion(
      t,
      ClockLabel(t.hour, t.minute),
      if sc.useLearned then sc.learned(sc.doctorId, t) else HeuristicScore(t.hour),
      if sc.isTrained then MLRecommended else Heuristic)
  }

  /** The scored slots that are not occupied, in slot order. */
  function ScoreFree(slots: seq<DateTime>, occupied: set<(int, int)>, sc: Scorer): seq<Suggestion> {
    if slots == [] then []
    else
      var t := slots[|slots| - 1];
      ScoreFree(slots[..|slots| - 1], occupied, sc)
      + (if (t.hour, t.minute) in occupied then [] else [ScoreOf(t, sc)])
  }

  function MinuteOfDay(t: DateTime): int {
    t.hour * 60 + t.minute
  }

  /** The order the suggestions come out in: higher score first, and among
      equal scores the earlier slot first. */
  predicate Outranks(a: Suggestion, b: Suggestion) {
    a.score > b.score || (a.score == b.score && MinuteOfDay(a.time) < MinuteOfDay(b.time))
  }

  predicate Ranked(s: seq<Suggestion>) {
    forall i, j :: 0 <= i < j < |s| ==> Outranks(s[i], s[j])
  }

  predicate EarlierFirst(s: seq<Suggestion>) {
    forall i, j :: 0 <= i < j < |s| ==> MinuteOfDay(s[i].time) < MinuteOfDay(s[j].time)
  }

  /** Puts x after every element scoring at least as much. */
  function Insert(s: seq<Suggestion>, x: Suggestion): seq<Suggestion> {
    if s == [] then [x]
    else if s[0].score < x.score then [x] + s
    else [s[0]] + Insert(s[1..], x)
  }

  /** Python's stable `sort(key=score, reverse=True)`, as an insertion sort. */
  function SortByScore(xs: seq<Suggestion>): seq<Suggestion> {
    if xs == [] then [] else Insert(SortByScore(xs[..|xs| - 1]), xs[|xs| - 1])
  }

  function Min(a: int, b: int): int {
    if a <= b then a else b
  }

  function UsesLearned(isTrained: bool, history: seq<Appointment>): bool {
    isTrained && |history| > 0
  }

  function ScorerFor(isTrained: bool, doctorId: int, history: seq<Appointment>, learned: (int, DateTime) -> real): Scorer {
    Scorer(isTrained, UsesLearned(isTrained, history), doctorId, learned)
  }

  /** What `suggest_optimal_times` returns: nothing when the date does not
      parse; otherwise the first five of the free candidates sorted by score. */
  function Suggestions(isTrained: bool, doctorId: int, date: IsoText, existing: seq<Appointment>,
                       history: seq<Appointment>, learned: (int, DateTime) -> real): seq<Suggestion>
  {
    match date.parsed
    case None => []
    case Some(target) =>
      TopFive(ScoreFree(Candidates(target.date), Occupied(existing), ScorerFor(isTrained, doctorId, history, learned)))
  }

  /** The first five after sorting by score (all of them when fewer). */
  function TopFive(scored: seq<Suggestion>): seq<Suggestion> {
    var sorted := SortByScore(scored);
    sorted[..Min(5, |sorted|)]
  }

  // ------------------------------------------------------------ lemmas

  lemma {:induction false} OccupiedMembers(existing: seq<Appointment>, h: int, m: int)
    ensures (h, m) in Occupied(existing) <==>
      exists i :: 0 <= i < |existing| && ParsedDate(existing[i]).Some?
        && ParsedDate(existing[i]).value.hour == h && ParsedDate(existing[i]).value.minute == m
  {
    if existing != [] {
      var n := |existing| - 1;
      OccupiedMembers(existing[..n], h, m);
      if (h, m) in Occupied(existing[..n]) {
        var i :| 0 <= i < n && ParsedDate(existing[..n][i]).Some?
          && ParsedDate(existing[..n][i]).value.hour == h && ParsedDate(existing[..n][i]).value.minute == m;
        assert existing[i] == existing[..n][i];
      }
      if exists i :: (0 <= i < |existing| && ParsedDate(existing[i]).Some?
        && ParsedDate(existing[i]).value.hour == h && ParsedDate(existing[i]).value.minute == m)
      {
        var i :| 0 <= i < |existing| && ParsedDate(existing[i]).Some?
          && ParsedDate(existing[i]).value.hour == h && ParsedDate(existing[i]).value.minute == m;
        if i < n {
          assert existing[..n][i] == existing[i];
        }
      }
    }
  }

  lemma {:induction false} InsertElements(s: seq<Suggestion>, x: Suggestion)
    ensures multiset(Insert(s, x)) == multiset(s) + multiset{x}
  {
    if s != [] && s[0].score >= x.score {
      assert Insert(s, x) == [s[0]] + Insert(s[1..], x);
      InsertElements(s[1..], x);
      assert s == [s[0]] + s[1..];
      assert multiset(s) == multiset{s[0]} + multiset(s[1..]);
    }
  }

  /** The sort is a permutation. */
  lemma {:induction false} SortElements(xs: seq<Suggestion>)
    ensures multiset(SortByScore(xs)) == multiset(xs)
  {
    if xs != [] {
      var n := |xs| - 1;
      assert SortByScore(xs) == Insert(SortByScore(xs[..n]), xs[n]);
      SortElements(xs[..n]);
      InsertElements(SortByScore(xs[..n]), xs[n]);
      assert xs == xs[..n] + [xs[n]];
      assert multiset(xs) == multiset(xs[..n]) + multiset{xs[n]};
    }
  }

  lemma {:induction false} InsertRanked(s: seq<Suggestion>, x: Suggestion)
    requires Ranked(s)
    requires forall y :: y in s ==> MinuteOfDay(y.time) < MinuteOfDay(x.time)
    ensures Ranked(Insert(s, x))
  {
    if s == [] {
    } else if s[0].score < x.score {
      forall y | y in s ensures Outranks(x, y) {
        var j :| 0 <= j < |s| && s[j] == y;
        if j > 0 {
          assert Outranks(s[0], s[j]);
        }
      }
      ConsRanked(x, s);
    } else {
      var rest := Insert(s[1..], x);
      assert Insert(s, x) == [s[0]] + rest;
      assert Ranked(s[1..]);
      InsertRanked(s[1..], x);
      HeadOutranksInsert(s, x);
      ConsRanked(s[0], rest);
    }
  }

  /** Putting in front an element that outranks all of a ranked list keeps
      it ranked. */
  lemma ConsRanked(a: Suggestion, rest: seq<Suggestion>)
    requires Ranked(rest) && forall y :: y in rest ==> Outranks(a, y)
    ensures Ranked([a] + rest)
  {
    var r := [a] + rest;
    forall i, j | 0 <= i < j < |r| ensures Outranks(r[i], r[j]) {
      if i == 0 {
        assert r[j] in rest;
      } else {
        assert r[i] == rest[i - 1] && r[j] == rest[j - 1];
      }
    }
  }

  /** The head of a ranked list that scores at least x outranks everything
      x is inserted among after it. */
  lemma HeadOutranksInsert(s: seq<Suggestion>, x: Suggestion)
    requires s != [] && Ranked(s) && s[0].score >= x.score
    requires forall y :: y in s ==> MinuteOfDay(y.time) < MinuteOfDay(x.time)
    ensures forall y :: y in Insert(s[1..], x) ==> Outranks(s[0], y)
  {
    InsertElements(s[1..], x);
    forall y | y in Insert(s[1..], x) ensures Outranks(s[0], y) {
      assert y in multiset(Insert(s[1..], x));
      if y != x {
        assert y in s[1..];
        var j :| 0 <= j < |s[1..]| && s[1..][j] == y;
        assert Outranks(s[0], s[j + 1]);
      } else {
        assert s[0] in s;
      }
    }
  }

  /** Sorting candidates that come in time order gives score-descending
      order with ties broken by the earlier time: the stable sort. */
  lemma {:induction false} SortRanked(xs: seq<Suggestion>)
    requires EarlierFirst(xs)
    ensures Ranked(SortByScore(xs))
  {
    if xs != [] {
      var n := |xs| - 1;
      assert EarlierFirst(xs[..n]);
      SortRanked(xs[..n]);
      SortElements(xs[..n]);
      forall y | y in SortByScore(xs[..n]) ensures MinuteOfDay(y.time) < MinuteOfDay(xs[n].time) {
        assert y in multiset(SortByScore(xs[..n]));
        var i :| 0 <= i < n && xs[..n][i] == y;
      }
      InsertRanked(SortByScore(xs[..n]), xs[n]);
    }
  }

  /** A scored slot is a free candidate scored by the scorer. */
  lemma ScoreFreeMembers(slots: seq<DateTime>, occupied: set<(int, int)>, sc: Scorer, x: Suggestion)
    ensures x in ScoreFree(slots, occupied, sc) <==>
      exists t :: t in slots && (t.hour, t.minute) !in occupied && x == ScoreOf(t, sc)
  {
    if x in ScoreFree(slots, occupied, sc) {
      var t := ScoreFreeSource(slots, occupied, sc, x);
    }
    if exists t :: t in slots && (t.hour, t.minute) !in occupied && x == ScoreOf(t, sc) {
      var t :| t in slots && (t.hour, t.minute) !in occupied && x == ScoreOf(t, sc);
      ScoreFreeKeeps(slots, occupied, sc, t);
    }
  }

  /** Each scored slot comes from a free candidate. */
  lemma {:induction false} ScoreFreeSource(slots: seq<DateTime>, occupied: set<(int, int)>, sc: Scorer, x: Suggestion)
    returns (t: DateTime)
    requires x in ScoreFree(slots, occupied, sc)
    ensures t in slots && (t.hour, t.minute) !in occupied && x == ScoreOf(t, sc)
  {
    var n := |slots| - 1;
    var last := slots[n];
    if x in ScoreFree(slots[..n], occupied, sc) {
      t := ScoreFreeSource(slots[..n], occupied, sc, x);
      assert t in slots by {
        var i :| 0 <= i < n && slots[..n][i] == t;
        assert slots[i] == t;
      }
    } else {
      assert (last.hour, last.minute) !in occupied && x == ScoreOf(last, sc);
      t := last;
    }
  }

  /** Each free candidate is scored. */
  lemma {:induction false} ScoreFreeKeeps(slots: seq<DateTime>, occupied: set<(int, int)>, sc: Scorer, t: DateTime)
    requires t in slots && (t.hour, t.minute) !in occupied
    ensures ScoreOf(t, sc) in ScoreFree(slots, occupied, sc)
  {
    var n := |slots| - 1;
    if t == slots[n] {
      assert ScoreFree(slots, occupied, sc) == ScoreFree(slots[..n], occupied, sc) + [ScoreOf(t, sc)];
    } else {
      var i :| 0 <= i < |slots| && slots[i] == t;
      assert i < n && slots[..n][i] == t;
      ScoreFreeKeeps(slots[..n], occupied, sc, t);
    }
  }

  /** Scoring keeps the slots' time order. */
  lemma {:induction false} ScoreFreeInOrder(slots: seq<DateTime>, occupied: set<(int, int)>, sc: Scorer)
    requires forall i, j :: 0 <= i < j < |slots| ==> MinuteOfDay(slots[i]) < MinuteOfDay(slots[j])
    ensures EarlierFirst(ScoreFree(slots, occupied, sc))
  {
    if slots != [] {
      var n := |slots| - 1;
      var t := slots[n];
      ScoreFreeInOrder(slots[..n], occupied, sc);
      forall y | y in ScoreFree(slots[..n], occupied, sc) ensures MinuteOfDay(y.time) < MinuteOfDay(t) {
        var u := ScoreFreeSource(slots[..n], occupied, sc, y);
        var i :| 0 <= i < n && slots[..n][i] == u;
      }
    }
  }

  lemma CandidatesInOrder(day: Date)
    ensures forall i, j :: 0 <= i < j < 16 ==> MinuteOfDay(Candidates(day)[i]) < MinuteOfDay(Candidates(day)[j])
  {
  }

  /** What every suggestion is: a free candidate slot on the requested date,
      09:00 to 16:30 on the half hour, scored by the heuristic unless the
      fitted model is in use, and labelled by the trained flag alone. */
  predicate WellFormed(x: Suggestion, isTrained: bool, doctorId: int, day: Date, existing: seq<Appointment>,
                       history: seq<Appointment>, learned: (int, DateTime) -> real)
  {
    && x.time.date == day
    && 9 <= x.time.hour <= 16
    && (x.time.minute == 0 || x.time.minute == 30)
    && (x.time.hour, x.time.minute) !in Occupied(existing)
    && x.display == ClockLabel(x.time.hour, x.time.minute)
    && x.score == (if UsesLearned(isTrained, history) then learned(doctorId, x.time) else HeuristicScore(x.time.hour))
    && x.reason == (if isTrained then MLRecommended else Heuristic)
  }

  /** Taking the first five of the sorted slots keeps the ranking, returns
      min(5, n) of them, and leaves out none that outranks one returned. */
  lemma TopFiveSpec(scored: seq<Suggestion>)
    requires EarlierFirst(scored)
    ensures var r := TopFive(scored);
      && |r| == Min(5, |scored|)
      && Ranked(r)
      && (forall x :: x in r ==> x in scored)
      && (forall y :: y in scored && y !in r ==> forall i :: 0 <= i < |r| ==> Outranks(r[i], y))
      && (|scored| <= 5 ==> multiset(r) == multiset(scored))
  {
    var sorted := SortByScore(scored);
    var r := TopFive(scored);
    SortRanked(scored);
    SortElements(scored);
    assert |sorted| == |scored| by {
      assert |multiset(sorted)| == |multiset(scored)|;
    }
    var k := Min(5, |sorted|);
    forall x | x in r ensures x in scored {
      assert x in multiset(sorted);
    }
    forall y | y in scored && y !in r ensures forall i :: 0 <= i < |r| ==> Outranks(r[i], y) {
      assert y in multiset(sorted);
      var j :| 0 <= j < |sorted| && sorted[j] == y;
      assert forall i :: 0 <= i < k ==> r[i] == sorted[i];
      assert j >= k;
      forall i | 0 <= i < |r| ensures Outranks(r[i], y) {
        assert r[i] == sorted[i];
      }
    }
    if |scored| <= 5 {
      assert r == sorted;
    }
  }

  /** The guarantees of `suggest_optimal_times`: at most five suggestions,
      none of them occupied, in score order with earlier slots first on ties,
      and no free slot left out that outranks one returned. */
  lemma SuggestionsSpec(isTrained: bool, doctorId: int, date: IsoText, existing: seq<Appointment>,
                        history: seq<Appointment>, learned: (int, DateTime) -> real)
    ensures var r := Suggestions(isTrained, doctorId, date, existing, history, learned);
      && |r| <= 5
      && (date.parsed.None? ==> r == [])
      && (date.parsed.Some? ==>
            && (forall i :: 0 <= i < |r| ==> WellFormed(r[i], isTrained, doctorId, date.parsed.value.date, existing, history, learned))
            && Ranked(r)
            && var scored := ScoreFree(Candidates(date.parsed.value.date), Occupied(existing), ScorerFor(isTrained, doctorId, history, learned));
               && (forall y :: y in scored && y !in r ==> forall i :: 0 <= i < |r| ==> Outranks(r[i], y))
               && (|scored| <= 5 ==> multiset(r) == multiset(scored))
               && (|scored| >= 5 ==> |r| == 5))
  {
    if date.parsed.Some? {
      var day := date.parsed.value.date;
      var sc := ScorerFor(isTrained, doctorId, history, learned);
      var scored := ScoreFree(Candidates(day), Occupied(existing), sc);
      CandidatesInOrder(day);
      ScoreFreeInOrder(Candidates(day), Occupied(existing), sc);
      TopFiveSpec(scored);
      ScoredWellFormed(isTrained, doctorId, day, existing, history, learned);
    }
  }

  lemma ScoredWellFormed(isTrained: bool, doctorId: int, day: Date, existing: seq<Appointment>,
                         history: seq<Appointment>, learned: (int, DateTime) -> real)
    ensures forall x :: (x in ScoreFree(Candidates(day), Occupied(existing), ScorerFor(isTrained, doctorId, history, learned))
      ==> WellFormed(x, isTrained, doctorId, day, existing, history, learned))
  {
    var occ := Occupied(existing);
    var sc := ScorerFor(isTrained, doctorId, history, learned);
    forall x | x in ScoreFree(Candidates(day), occ, sc)
      ensures WellFormed(x, isTrained, doctorId, day, existing, history, learned)
    {
      ScoreFreeMembers(Candidates(day), occ, sc, x);
      var t :| t in Candidates(day) && (t.hour, t.minute) !in occ && x == ScoreOf(t, sc);
    }
  }

  /** The label quirk: a trained scheduler given no history scores by the
      heuristic yet labels every suggestion "ML recommended". */
  lemma TrainedWithoutHistoryLabelsHeuristicAsModel(doctorId: int, date: IsoText, existing: seq<Appointment>,
                                                    learned: (int, DateTime) -> real)
    ensures var r := Suggestions(true, doctorId, date, existing, [], learned);
      forall i :: 0 <= i < |r| ==> r[i].reason == MLRecommended && r[i].score == HeuristicScore(r[i].time.hour)
  {
    SuggestionsSpec(true, doctorId, date, existing, [], learned);
  }

  /** The candidate loop of `suggest_optimal_times`: hour by hour, on the
      hour and the half hour. */
  method CandidateSlots(day: Date) returns (slots: seq<DateTime>)
    ensures slots == Candidates(day)
  {
    slots := [];
    for hour := 9 to 17
      invariant slots == Candidates(day)[..2 * (hour - 9)]
    {
      var minutes := [0, 30];
      for j := 0 to 2
        invariant slots == Candidates(day)[..2 * (hour - 9) + j]
      {
        slots := slots + [DateTime(day, hour, minutes[j])];
      }
    }
  }

  /** The loop collecting the (hour, minute) of every record whose date parses. */
  method OccupiedSlots(existing: seq<Appointment>) returns (occupied: set<(int, int)>)
    ensures occupied == Occupied(existing)
  {
    occupied := {};
    for i := 0 to |existing|
      invariant occupied == Occupied(existing[..i])
    {
      assert existing[..i + 1][..i] == existing[..i];
      match ParsedDate(existing[i]) {
        case Some(t) => occupied := occupied + {(t.hour, t.minute)};
        case None =>
      }
    }
    assert existing[..|existing|] == existing;
  }

  /** The scoring loop: every free slot, scored and labelled, in slot order. */
  method ScoreSlots(slots: seq<DateTime>, occupied: set<(int, int)>, sc: Scorer) returns (scored: seq<Suggestion>)
    ensures scored == ScoreFree(slots, occupied, sc)
  {
    scored := [];
    for i := 0 to |slots|
      invariant scored == ScoreFree(slots[..i], occupied, sc)
    {
      assert slots[..i + 1][..i] == slots[..i];
      var slot := slots[i];
      if (slot.hour, slot.minute) !in occupied {
        var score := if sc.useLearned then sc.learned(sc.doctorId, slot) else HeuristicScore(slot.hour);
        var reason := if sc.isTrained then MLRecommended else Heuristic;
        scored := scored + [Suggestion(slot, ClockLabel(slot.hour, slot.minute), score, reason)];
      }
    }
    assert slots[..|slots|] == slots;
  }

  // ------------------------------------------------------------ the object

  /** The scheduler object: its trained flag and the fitted model, which is
      represented by the samples it was fitted on. A scheduler object exists
      only where the learning library is importable (its constructor builds a
      `StandardScaler`), so training with enough data always fits the model. */
  class AppointmentScheduler {
    var isTrained: bool
    var model: Option<seq<Sample>>

    ghost predicate Valid()
      reads this
    {
      isTrained ==> model.Some?
    }

    constructor ()
      ensures Valid() && !isTrained && model == None
    {
      isTrained := false;
      model := None;
    }

    /** `train_model`: fewer than 10 records resets the flag; otherwise the
        model is fitted when more than 5 samples were built, and when 5 or
        fewer were, nothing changes. */
    method TrainModel(records: seq<Appointment>)
      requires Valid()
      modifies this
      ensures Valid()
      ensures |records| < 10 ==> !isTrained && model == old(model)
      ensures |records| >= 10 && |TrainingSamples(records)| > 5 ==>
        isTrained && model == Some(TrainingSamples(records))
      ensures |records| >= 10 && |TrainingSamples(records)| <= 5 ==>
        isTrained == old(isTrained) && model == old(model)
    {
      if |records| < 10 {
        isTrained := false;
        return;
      }
      var samples := BuildTrainingSamples(records);
      if |samples| > 5 {
        model := Some(samples);
        isTrained := true;
      }
    }

    /** `suggest_optimal_times`. `learned(doctorId, slot)` stands for the
        fitted regressor's prediction for that slot and a new patient. */
    method SuggestOptimalTimes(doctorId: int, date: IsoText, existing: seq<Appointment>,
                               history: seq<Appointment>, learned: (int, DateTime) -> real)
      returns (r: seq<Suggestion>)
      requires Valid()
      ensures UsesLearned(isTrained, history) ==> model.Some?
      ensures r == Suggestions(isTrained, doctorId, date, existing, history, learned)
      ensures |r| <= 5
      ensures date.parsed.None? ==> r == []
      ensures forall i :: 0 <= i < |r| ==>
        (date.parsed.Some? && WellFormed(r[i], isTrained, doctorId, date.parsed.value.date, existing, history, learned))
      ensures Ranked(r)
    {
      SuggestionsSpec(isTrained, doctorId, date, existing, history, learned);
      if date.parsed.None? {
        return [];
      }
      var day := date.parsed.value.date;
      var slots := CandidateSlots(day);
      var occupied := OccupiedSlots(existing);
      var scored := ScoreSlots(slots, occupied, ScorerFor(isTrained, doctorId, history, learned));
      r := TopFive(scored);
    }
  }
}
