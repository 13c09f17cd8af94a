/** The two app.py endpoints that do more than plumbing: the free-slot
    listing of `get_slots` and the input check and same-day filter of
    `ai_suggest_appointment`. */
module Api {
  import opened Common

  // -------------------------------------------------------------- slot grid

  /** The label of a minute of the day, as `f"{t // 60:02d}:{t % 60:02d}"`. */
  function MinuteLabel(t: nat): string {
    ClockLabel(t / 60, t % 60)
  }

  /** The minutes of the day the slot loop visits: from `cur` up to (not
      including) `end`, every `interval` minutes. */
  function SlotMinutes(cur: nat, end: nat, interval: nat): seq<nat>
    requires interval > 0
    decreases end - cur
  {
    if cur >= end then [] else [cur] + SlotMinutes(cur + interval, end, interval)
  }

  /** The labels of a list of minutes. */
  function Labels(minutes: seq<nat>): seq<string> {
    seq(|minutes|, i requires 0 <= i < |minutes| => MinuteLabel(minutes[i]))
  }

  /** The slots from `startH` o'clock to `endH` o'clock every `interval` minutes. */
  function Slots(startH: nat, endH: nat, interval: nat): seq<string>
    requires interval > 0
  {
    Labels(SlotMinutes(startH * 60, endH * 60, interval))
  }

  /** `generate_slots()` with its defaults: 09:00 to 17:00 every 30 minutes. */
  function DefaultSlots(): seq<string> {
    Slots(9, 17, 30)
  }

  /** `generate_slots`. */
  method GenerateSlots(startH: nat, endH: nat, interval: nat) returns (slots: seq<string>)
    requires interval > 0
    ensures slots == Slots(startH, endH, interval)
  {
    ghost var all := SlotMinutes(startH * 60, endH * 60, interval);
    slots := [];
    var curMinutes := startH * 60;
    var endMinutes := endH * 60;
    ghost var k := 0;
    while curMinutes < endMinutes
      invariant k <= |all| && SlotMinutes(curMinutes, endMinutes, interval) == all[k..]
      invariant slots == Labels(all)[..k]
      decreases endMinutes - curMinutes
    {
      var hh := curMinutes / 60;
      var mm := curMinutes % 60;
      assert all[k..] == [curMinutes] + SlotMinutes(curMinutes + interval, endMinutes, interval);
      assert all[k] == curMinutes && all[k + 1..] == all[k..][1..];
      assert Labels(all)[..k + 1] == Labels(all)[..k] + [MinuteLabel(all[k])];
      slots := slots + [ClockLabel(hh, mm)];
      curMinutes := curMinutes + interval;
      k := k + 1;
    }
    assert k == |all|;
  }

  /** Slot i falls at minute `cur + i * interval`. */
  lemma {:induction false} SlotMinutesElements(cur: nat, end: nat, interval: nat)
    requires interval > 0
    ensures forall i :: 0 <= i < |SlotMinutes(cur, end, interval)| ==> SlotMinutes(cur, end, interval)[i] == cur + i * interval
    decreases end - cur
  {
    if cur < end {
      var m := SlotMinutes(cur, end, interval);
      var tail := SlotMinutes(cur + interval, end, interval);
      SlotMinutesElements(cur + interval, end, interval);
      assert m == [cur] + tail;
      forall i | 1 <= i < |m|
        ensures m[i] == cur + i * interval
      {
        var k := i - 1;
        assert m[i] == tail[k];
        assert tail[k] == cur + interval + k * interval;
        MultiplySucc(k, interval);
      }
    }
  }

  /** There are `ceil((end - cur) / interval)` slots: enough to cover the
      span, and not one more. */
  lemma {:induction false} SlotMinutesCount(cur: nat, end: nat, interval: nat)
    requires interval > 0
    ensures var n := |SlotMinutes(cur, end, interval)|;
      && n * interval >= end - cur
      && (cur < end ==> (n - 1) * interval < end - cur)
    decreases end - cur
  {
    if cur < end {
      var n := |SlotMinutes(cur + interval, end, interval)|;
      SlotMinutesCount(cur + interval, end, interval);
      MultiplySucc(n, interval);
    }
  }

  lemma MultiplySucc(a: nat, c: nat)
    ensures (a + 1) * c == a * c + c
  {
  }

  /** Reads an "HH:MM" label back as a minute of the day (-1 if it is not one). */
  function ClockMinutes(s: string): int {
    match ParseClock(s)
    case Some((h, m)) => h * 60 + m
    case None => -1
  }

  lemma MinuteLabelRoundTrip(t: nat)
    requires t < 6000
    ensures |MinuteLabel(t)| == 5
    ensures ClockMinutes(MinuteLabel(t)) == t
  {
    ClockLabelRoundTrip(t / 60, t % 60);
  }

  /** For hours before 100, every slot is a five-character "HH:MM" label that
      reads back as its minute, and the slots rise strictly in time. */
  lemma SlotsInTimeOrder(startH: nat, endH: nat, interval: nat)
    requires interval > 0 && endH <= 100
    ensures LabelsFrom(Slots(startH, endH, interval), startH * 60, interval)
    ensures InTimeOrder(Slots(startH, endH, interval))
  {
    var r := Slots(startH, endH, interval);
    forall i | 0 <= i < |r|
      ensures |r[i]| == 5 && ClockMinutes(r[i]) == startH * 60 + i * interval
    {
      SlotAt(startH, endH, interval, i);
    }
    LabelsFromInOrder(r, startH * 60, interval);
  }

  /** Labels that read back as a rising arithmetic sequence are in time order. */
  lemma LabelsFromInOrder(r: seq<string>, start: nat, interval: nat)
    requires interval > 0 && LabelsFrom(r, start, interval)
    ensures InTimeOrder(r)
  {
    forall i, j | 0 <= i < j < |r|
      ensures ClockMinutes(r[i]) < ClockMinutes(r[j])
    {
      MultiplyMonotone(i, j - 1, interval);
      MultiplySucc(j - 1, interval);
    }
  }

  lemma SlotAt(startH: nat, endH: nat, interval: nat, i: nat)
    requires interval > 0 && endH <= 100
    requires i < |Slots(startH, endH, interval)|
    ensures |Slots(startH, endH, interval)[i]| == 5
    ensures ClockMinutes(Slots(startH, endH, interval)[i]) == startH * 60 + i * interval
  {
    var m := SlotMinutes(startH * 60, endH * 60, interval);
    var n := |m|;
    SlotMinutesElements(startH * 60, endH * 60, interval);
    SlotMinutesCount(startH * 60, endH * 60, interval);
    MultiplyMonotone(i, n - 1, interval);
    assert m[i] < 6000;
    MinuteLabelRoundTrip(m[i]);
  }

  /** Every label is five characters and reads back as minute
      `start + i * interval`. */
  predicate LabelsFrom(r: seq<string>, start: nat, interval: nat) {
    forall i :: 0 <= i < |r| ==> |r[i]| == 5 && ClockMinutes(r[i]) == start + i * interval
  }

  /** The labels rise strictly in time. */
  predicate InTimeOrder(r: seq<string>) {
    forall i, j :: 0 <= i < j < |r| ==> ClockMinutes(r[i]) < ClockMinutes(r[j])
  }

  lemma MultiplyMonotone(a: nat, b: nat, c: nat)
    requires a <= b
    ensures a * c <= b * c
  {
  }

  /** The default grid is the sixteen half hours from 09:00 to 16:30. */
  lemma DefaultSlotsAreHalfHours()
    ensures |DefaultSlots()| == 16
    ensures forall i :: 0 <= i < 16 ==> DefaultSlots()[i] == ClockLabel(9 + i / 2, i % 2 * 30)
  {
    DefaultSlotCount();
    forall i | 0 <= i < 16
      ensures DefaultSlots()[i] == ClockLabel(9 + i / 2, i % 2 * 30)
    {
      DefaultSlotAt(i);
    }
  }

  /** The default grid opens at 09:00 and its last slot is 16:30. */
  lemma DefaultSlotsEnds()
    ensures |DefaultSlots()| == 16 && DefaultSlots()[0] == "09:00" && DefaultSlots()[15] == "16:30"
  {
    DefaultSlotAt(0);
    DefaultSlotAt(15);
    FirstAndLastLabels();
  }

  lemma FirstAndLastLabels()
    ensures ClockLabel(9, 0) == "09:00" && ClockLabel(16, 30) == "16:30"
  {
    TwoDigits(9);
    TwoDigits(0);
    TwoDigits(16);
    TwoDigits(30);
  }

  lemma DefaultSlotCount()
    ensures |DefaultSlots()| == 16
  {
    SlotMinutesCount(540, 1020, 30);
  }

  lemma DefaultSlotAt(i: nat)
    requires i < 16
    ensures |DefaultSlots()| == 16 && DefaultSlots()[i] == ClockLabel(9 + i / 2, i % 2 * 30)
  {
    DefaultSlotCount();
    SlotMinutesElements(540, 1020, 30);
    var m := SlotMinutes(540, 1020, 30);
    assert m[i] == 540 + i * 30;
    HalfHour(i);
    assert DefaultSlots()[i] == MinuteLabel(m[i]);
  }

  /** The i-th half hour from 09:00 is hour 9 + i/2, minute 0 or 30. */
  lemma HalfHour(i: nat)
    ensures (540 + i * 30) / 60 == 9 + i / 2 && (540 + i * 30) % 60 == i % 2 * 30
  {
    var q, r := i / 2, i % 2;
    assert 540 + i * 30 == 60 * (9 + q) + 30 * r;
  }

  // ---------------------------------------------------------- occupied times

  /** The first position of c in s. */
  function IndexOf(s: string, c: char): (r: Option<nat>)
    ensures r.Some? ==> r.value < |s| && s[r.value] == c && c !in s[..r.value]
    ensures r.None? ==> c !in s
  {
    if s == [] then None
    else if s[0] == c then Some(0)
    else
      var r := IndexOf(s[1..], c);
      if r.Some? then
        assert s[..r.value + 1] == [s[0]] + s[1..][..r.value];
        Some(r.value + 1)
      else None
  }

  /** `s[:n]`. */
  function Take(s: string, n: nat): string {
    if |s| <= n then s else s[..n]
  }

  /** The fallback date part: `s.split('T')[0] if 'T' in s else s`. */
  function DatePart(s: string): string {
    var k := IndexOf(s, 'T');
    if k.Some? then s[..k.value] else s
  }

  /** The fallback time part: `s.split('T')[1][:5]`, and "" when there is no
      second piece. */
  function TimePart(s: string): string {
    var k := IndexOf(s, 'T');
    if k.None? then ""
    else
      var rest := s[k.value + 1..];
      var j := IndexOf(rest, 'T');
      Take(if j.Some? then rest[..j.value] else rest, 5)
  }

  /** The day and "HH:MM" time of a stored date text: from what
      `fromisoformat` reads when it reads the text, else from splitting it
      at 'T'. */
  function DayAndTime(t: IsoText): (string, string) {
    if t.parsed.Some? then (IsoDate(t.parsed.value.date), ClockLabel(t.parsed.value.hour, t.parsed.value.minute))
    else (DatePart(t.text), TimePart(t.text))
  }

  /** The time one stored appointment takes on `date`, if it takes one: a
      NULL or empty date takes none. */
  function Occupies(a: Appointment, date: string): Option<string> {
    if a.date.None? || a.date.value.text == "" then None
    else
      var (adate, atime) := DayAndTime(a.date.value);
      if adate == date && atime != "" then Some(atime) else None
  }

  /** What each stored appointment contributes to `occupied`: the time it
      takes on `date` when it is the doctor's, else nothing. */
  function TakenTimes(appts: seq<Appointment>, doctorId: int, date: string): seq<Option<string>> {
    seq(|appts|, i requires 0 <= i < |appts| =>
      if appts[i].doctorId == Some(doctorId) then Occupies(appts[i], date) else None)
  }

  /** The values present in a list of options. */
  function Values(opts: seq<Option<string>>): set<string> {
    if opts == [] then {}
    else
      var n := |opts| - 1;
      Values(opts[..n]) + (if opts[n].Some? then {opts[n].value} else {})
  }

  /** The `occupied` set: the times the doctor's appointments take on `date`. */
  function OccupiedTimes(appts: seq<Appointment>, doctorId: int, date: string): set<string> {
    Values(TakenTimes(appts, doctorId, date))
  }

  /** `[s for s in all_slots if s not in occupied]`. */
  function FreeSlots(all: seq<string>, occupied: set<string>): seq<string> {
    if all == [] then []
    else
      var n := |all| - 1;
      FreeSlots(all[..n], occupied) + (if all[n] in occupied then [] else [all[n]])
  }

  /** `get_slots(doctor_id, date)` over the stored appointments. */
  method GetSlots(doctorId: int, date: string, appts: seq<Appointment>) returns (free: seq<string>)
    ensures free == FreeSlots(DefaultSlots(), OccupiedTimes(appts, doctorId, date))
  {
    var allSlots := GenerateSlots(9, 17, 30);
    var occupied := CollectOccupied(doctorId, date, appts);
    free := FilterFree(allSlots, occupied);
  }

  /** The loop filling `occupied` from the doctor's appointments. */
  method CollectOccupied(doctorId: int, date: string, appts: seq<Appointment>) returns (occupied: set<string>)
    ensures occupied == OccupiedTimes(appts, doctorId, date)
  {
    occupied := {};
    ghost var taken := TakenTimes(appts, doctorId, date);
    for i := 0 to |appts|
      invariant occupied == Values(taken[..i])
    {
      assert taken[..i + 1][..i] == taken[..i];
      var a := appts[i];
      if a.doctorId == Some(doctorId) {
        var t := Occupies(a, date);
        if t.Some? {
          occupied := occupied + {t.value};
        }
      }
    }
    assert taken[..|appts|] == taken;
  }

  /** `[s for s in all_slots if s not in occupied]`, as a loop. */
  method FilterFree(all: seq<string>, occupied: set<string>) returns (free: seq<string>)
    ensures free == FreeSlots(all, occupied)
  {
    free := [];
    for i := 0 to |all|
      invariant free == FreeSlots(all[..i], occupied)
    {
      assert all[..i + 1][..i] == all[..i];
      if all[i] !in occupied {
        free := free + [all[i]];
      }
    }
    assert all[..|all|] == all;
  }

  // ------------------------------------------------------------------ lemmas

  lemma {:induction false} ValuesMembers(opts: seq<Option<string>>, t: string)
    ensures t in Values(opts) <==> exists i :: 0 <= i < |opts| && opts[i] == Some(t)
  {
    if opts != [] {
      var n := |opts| - 1;
      var front := opts[..n];
      ValuesMembers(front, t);
      if t in Values(front) {
        var i :| 0 <= i < n && front[i] == Some(t);
        assert opts[i] == front[i];
      }
      if exists i :: 0 <= i < |opts| && opts[i] == Some(t) {
        var i :| 0 <= i < |opts| && opts[i] == Some(t);
        if i < n {
          assert front[i] == opts[i];
        }
      }
    }
  }

  /** A time is occupied iff one of the doctor's appointments takes it. */
  lemma OccupiedTimesMembers(appts: seq<Appointment>, doctorId: int, date: string, t: string)
    ensures t in OccupiedTimes(appts, doctorId, date) <==>
      exists i :: 0 <= i < |appts| && appts[i].doctorId == Some(doctorId) && Occupies(appts[i], date) == Some(t)
  {
    var taken := TakenTimes(appts, doctorId, date);
    ValuesMembers(taken, t);
    if exists i :: 0 <= i < |appts| && appts[i].doctorId == Some(doctorId) && Occupies(appts[i], date) == Some(t) {
      var i :| 0 <= i < |appts| && appts[i].doctorId == Some(doctorId) && Occupies(appts[i], date) == Some(t);
      assert taken[i] == Some(t);
    }
  }

  /** What an appointment occupies: never anything for a NULL or empty date;
      for a date `fromisoformat` reads, its "HH:MM" exactly when it falls on
      the requested day; otherwise its split time part, exactly when its
      split date part is the requested day and the time part is not empty.
      A fallback time is one to five characters of text that has a 'T'. */
  lemma OccupiesSpec(a: Appointment, date: string)
    ensures a.date.None? || a.date.value.text == "" ==> Occupies(a, date).None?
    ensures a.date.Some? && a.date.value.text != "" && a.date.value.parsed.Some? ==>
      var dt := a.date.value.parsed.value;
      Occupies(a, date) == if IsoDate(dt.date) == date then Some(ClockLabel(dt.hour, dt.minute)) else None
    ensures a.date.Some? && a.date.value.text != "" && a.date.value.parsed.None? ==>
      var text := a.date.value.text;
      Occupies(a, date) == if DatePart(text) == date && TimePart(text) != "" then Some(TimePart(text)) else None
    ensures a.date.Some? && a.date.value.parsed.None? && Occupies(a, date).Some? ==>
      'T' in a.date.value.text && 1 <= |Occupies(a, date).value| <= 5 && DatePart(a.date.value.text) == date
  {
    if a.date.Some? && a.date.value.text != "" && a.date.value.parsed.Some? {
      var dt := a.date.value.parsed.value;
      ClockLabelRoundTrip(dt.hour, dt.minute);
    }
  }

  predicate NoT(s: string) {
    forall i :: 0 <= i < |s| ==> s[i] != 'T'
  }

  lemma DigitsHaveNoT(s: string)
    requires AllDigits(s)
    ensures NoT(s)
  {
  }

  /** The fallback split agrees with the parsed path on canonical text: for
      "YYYY-MM-DDTHH:MM" followed by anything without a 'T', the date part is
      the day and the time part the clock label. */
  lemma FallbackAgreesOnCanonicalText(d: Date, hour: Hour, minute: Minute, tail: string)
    requires NoT(tail)
    ensures DatePart(IsoDate(d) + "T" + ClockLabel(hour, minute) + tail) == IsoDate(d)
    ensures TimePart(IsoDate(d) + "T" + ClockLabel(hour, minute) + tail) == ClockLabel(hour, minute)
  {
    IsoDateHasNoT(d);
    ClockLabelHasNoT(hour, minute);
    SplitAtFirstT(IsoDate(d), ClockLabel(hour, minute), tail);
  }

  lemma IsoDateHasNoT(d: Date)
    ensures NoT(IsoDate(d))
  {
    DigitsHaveNoT(ZeroPad(d.year, 4));
    DigitsHaveNoT(ZeroPad(d.month, 2));
    DigitsHaveNoT(ZeroPad(d.day, 2));
  }

  lemma ClockLabelHasNoT(hour: Hour, minute: Minute)
    ensures NoT(ClockLabel(hour, minute)) && |ClockLabel(hour, minute)| == 5
  {
    DigitsHaveNoT(ZeroPad(hour, 2));
    DigitsHaveNoT(ZeroPad(minute, 2));
    ClockLabelRoundTrip(hour, minute);
  }

  /** Splitting day + "T" + clock + tail at 'T', with no other 'T' in it,
      gives the day and the first five characters after the 'T'. */
  lemma SplitAtFirstT(day: string, clock: string, tail: string)
    requires NoT(day) && NoT(clock) && NoT(tail) && |clock| == 5
    ensures DatePart(day + "T" + clock + tail) == day
    ensures TimePart(day + "T" + clock + tail) == clock
  {
    var s := day + "T" + clock + tail;
    assert s == day + ("T" + clock + tail);
    NoTIndex(day, "T" + clock + tail);
    var rest := s[|day| + 1..];
    assert rest == clock + tail;
    assert NoT(rest);
    assert IndexOf(rest, 'T').None?;
    assert Take(rest, 5) == clock;
  }

  lemma {:induction false} NoTIndex(prefix: string, s: string)
    requires NoT(prefix) && |s| > 0 && s[0] == 'T'
    ensures IndexOf(prefix + s, 'T') == Some(|prefix|)
  {
    if prefix != [] {
      assert (prefix + s)[1..] == prefix[1..] + s;
      NoTIndex(prefix[1..], s);
    }
  }

  /** The free list keeps the slots not occupied, in their order: a slot is
      free iff it is in the grid and not occupied, and no more come back than
      the grid has. */
  lemma {:induction false} FreeSlotsMembers(all: seq<string>, occupied: set<string>)
    ensures |FreeSlots(all, occupied)| <= |all|
    ensures forall s :: s in FreeSlots(all, occupied) <==> s in all && s !in occupied
  {
    if all != [] {
      var n := |all| - 1;
      FreeSlotsMembers(all[..n], occupied);
      assert all == all[..n] + [all[n]];
    }
  }

  /** A filtered grid stays in time order. */
  lemma {:induction false} FreeSlotsInOrder(all: seq<string>, occupied: set<string>)
    requires InTimeOrder(all)
    ensures InTimeOrder(FreeSlots(all, occupied))
  {
    if all != [] {
      var n := |all| - 1;
      var front := FreeSlots(all[..n], occupied);
      FreeSlotsInOrder(all[..n], occupied);
      FreeSlotsMembers(all[..n], occupied);
      forall x | x in front
        ensures ClockMinutes(x) < ClockMinutes(all[n])
      {
        var k :| 0 <= k < n && all[..n][k] == x;
      }
    }
  }

  /** The free slots of a day are the default half hours the doctor has not
      booked, in time order; a half hour booked (through any date text that
      yields its label) is not offered. */
  lemma GetSlotsSpec(doctorId: int, date: string, appts: seq<Appointment>)
    ensures |FreeSlots(DefaultSlots(), OccupiedTimes(appts, doctorId, date))| <= 16
    ensures forall s :: s in FreeSlots(DefaultSlots(), OccupiedTimes(appts, doctorId, date)) <==>
      s in DefaultSlots() && s !in OccupiedTimes(appts, doctorId, date)
    ensures InTimeOrder(FreeSlots(DefaultSlots(), OccupiedTimes(appts, doctorId, date)))
    ensures forall i :: 0 <= i < |appts| && appts[i].doctorId == Some(doctorId) && Occupies(appts[i], date).Some? ==>
      Occupies(appts[i], date).value !in FreeSlots(DefaultSlots(), OccupiedTimes(appts, doctorId, date))
  {
    var occ := OccupiedTimes(appts, doctorId, date);
    DefaultSlotsAreHalfHours();
    SlotsInTimeOrder(9, 17, 30);
    FreeSlotsMembers(DefaultSlots(), occ);
    FreeSlotsInOrder(DefaultSlots(), occ);
    forall i | 0 <= i < |appts| && appts[i].doctorId == Some(doctorId) && Occupies(appts[i], date).Some?
      ensures Occupies(appts[i], date).value in occ
    {
      OccupiedTimesMembers(appts, doctorId, date, Occupies(appts[i], date).value);
    }
  }

  // ------------------------------------------------------- suggestion inputs

  /** An endpoint's answer: a value, or an HTTP error status with a message. */
  datatype Response<T> = Ok(value: T) | Error(status: nat, message: string)

  /** Python truthiness of the two request fields: a missing or null field,
      a zero doctor id and an empty date are all false. */
  predicate Present(doctorId: Option<int>, date: Option<string>) {
    doctorId.Some? && doctorId.value != 0 && date.Some? && date.value != ""
  }

  /** Whether a stored appointment goes into `existing_appts_data`: the
      requested doctor's, with a non-empty date text starting with `date`. */
  predicate SameDay(a: Appointment, doctorId: int, date: string) {
    a.doctorId == Some(doctorId) && a.date.Some? && a.date.value.text != "" && date <= a.date.value.text
  }

  /** `existing_appts_data` of `ai_suggest_appointment`, or its 400 answer. */
  function SuggestionExisting(doctorId: Option<int>, date: Option<string>, appts: seq<Appointment>): Response<seq<Appointment>> {
    if !Present(doctorId, date) then Error(400, "doctor_id and date required")
    else Ok(SameDayRecords(appts, doctorId.value, date.value))
  }

  function SameDayRecords(appts: seq<Appointment>, doctorId: int, date: string): seq<Appointment> {
    if appts == [] then []
    else
      var n := |appts| - 1;
      SameDayRecords(appts[..n], doctorId, date) + (if SameDay(appts[n], doctorId, date) then [appts[n]] else [])
  }

  /** The request check and the collection loop of `ai_suggest_appointment`. */
  method CollectExisting(doctorId: Option<int>, date: Option<string>, appts: seq<Appointment>)
    returns (r: Response<seq<Appointment>>)
    ensures r == SuggestionExisting(doctorId, date, appts)
  {
    if doctorId.None? || doctorId.value == 0 || date.None? || date.value == "" {
      return Error(400, "doctor_id and date required");
    }
    var existing: seq<Appointment> := [];
    for i := 0 to |appts|
      invariant existing == SameDayRecords(appts[..i], doctorId.value, date.value)
    {
      assert appts[..i + 1][..i] == appts[..i];
      var appt := appts[i];
      if appt.doctorId == Some(doctorId.value) && appt.date.Some? && appt.date.value.text != "" && date.value <= appt.date.value.text {
        existing := existing + [appt];
      }
    }
    assert appts[..|appts|] == appts;
    r := Ok(existing);
  }

  /** The endpoint answers 400 exactly when a field is missing or false;
      otherwise it keeps exactly the doctor's records whose date text starts
      with the requested date (`SameDayRecordsAppend` gives their stored
      order). */
  lemma {:induction false} SuggestionExistingSpec(doctorId: Option<int>, date: Option<string>, appts: seq<Appointment>)
    ensures SuggestionExisting(doctorId, date, appts).Error? <==> !Present(doctorId, date)
    ensures SuggestionExisting(doctorId, date, appts).Error? ==> SuggestionExisting(doctorId, date, appts).status == 400
    ensures Present(doctorId, date) ==>
      var kept := SuggestionExisting(doctorId, date, appts).value;
      && |kept| <= |appts|
      && (forall a :: a in kept <==> a in appts && SameDay(a, doctorId.value, date.value))
  {
    if Present(doctorId, date) {
      SameDayRecordsMembers(appts, doctorId.value, date.value);
    }
  }

  /** The kept records of two lists one after the other are those of the
      first followed by those of the second, so the records keep their
      stored order. */
  lemma {:induction false} SameDayRecordsAppend(xs: seq<Appointment>, ys: seq<Appointment>, doctorId: int, date: string)
    ensures SameDayRecords(xs + ys, doctorId, date) == SameDayRecords(xs, doctorId, date) + SameDayRecords(ys, doctorId, date)
    decreases |ys|
  {
    if ys == [] {
      assert xs + ys == xs;
    } else {
      var n := |ys| - 1;
      assert (xs + ys)[..|xs + ys| - 1] == xs + ys[..n];
      SameDayRecordsAppend(xs, ys[..n], doctorId, date);
    }
  }

  lemma {:induction false} SameDayRecordsMembers(appts: seq<Appointment>, doctorId: int, date: string)
    ensures |SameDayRecords(appts, doctorId, date)| <= |appts|
    ensures forall a :: a in SameDayRecords(appts, doctorId, date) <==> a in appts && SameDay(a, doctorId, date)
  {
    if appts != [] {
      var n := |appts| - 1;
      SameDayRecordsMembers(appts[..n], doctorId, date);
      assert appts == appts[..n] + [appts[n]];
    }
  }
}
