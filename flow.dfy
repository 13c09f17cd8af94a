/** `PatientFlowPredictor` of ai_service.py: buckets a day's appointments by
    hour, reports the busy hours of the clinic day and estimates no-shows at a
    flat ten per cent. */
module Flow {
  import opened Common

  datatype Status = Busy | Moderate

  /** One entry of `predicted_peak_hours`. */
  datatype PeakHour = PeakHour(hour: int, count: nat, status: Status)

  datatype Forecast = Forecast(
    date: string,
    total: nat,
    peakHours: seq<PeakHour>,
    noShows: nat,
    arrivals: nat,
    busyPeriods: seq<PeakHour>)

  /** The forecast, or the `{'error': ...}` answer when something raised. */
  datatype FlowResult = Predicted(forecast: Forecast) | FlowError

  const OpeningHour := 9
  const ClosingHour := 17
  const PeakThreshold := 3
  const BusyThreshold := 5

  predicate OnDay(a: Appointment, day: Date) {
    ParsedDate(a).Some? && ParsedDate(a).value.date == day
  }

  /** Records on `day` whose time falls in hour h. */
  function HourCount(appts: seq<Appointment>, day: Date, h: int): nat {
    if appts == [] then 0
    else
      var a := appts[|appts| - 1];
      HourCount(appts[..|appts| - 1], day, h) + (if OnDay(a, day) && ParsedDate(a).value.hour == h then 1 else 0)
  }

  /** Records on `day`, at any hour. */
  function DayTotal(appts: seq<Appointment>, day: Date): nat {
    if appts == [] then 0
    else DayTotal(appts[..|appts| - 1], day) + (if OnDay(appts[|appts| - 1], day) then 1 else 0)
  }

  predicate AllParse(appts: seq<Appointment>) {
    forall i :: 0 <= i < |appts| ==> ParsedDate(appts[i]).Some?
  }

  function StatusOf(count: nat): Status {
    if count >= BusyThreshold then Busy else Moderate
  }

  /** The peak-hour entries for the hours lo .. hi-1, in hour order. */
  function PeaksBetween(appts: seq<Appointment>, day: Date, lo: int, hi: int): seq<PeakHour>
    decreases hi - lo
  {
    if hi <= lo then []
    else
      var c := HourCount(appts, day, hi - 1);
      PeaksBetween(appts, day, lo, hi - 1) + (if c >= PeakThreshold then [PeakHour(hi - 1, c, StatusOf(c))] else [])
  }

  /** The entries whose status is busy, in order. */
  function BusyOnly(peaks: seq<PeakHour>): seq<PeakHour> {
    if peaks == [] then []
    else BusyOnly(peaks[..|peaks| - 1]) + (if peaks[|peaks| - 1].status == Busy then [peaks[|peaks| - 1]] else [])
  }

  /** What `predict_flow` returns. The total is counted without a guard, so
      one record whose date does not parse turns the answer into an error. */
  function Prediction(date: IsoText, appts: seq<Appointment>): FlowResult {
    if date.parsed.None? || !AllParse(appts) then FlowError
    else
      var day := date.parsed.value.date;
      var total := DayTotal(appts, day);
      var peaks := PeaksBetween(appts, day, OpeningHour, ClosingHour);
      Predicted(Forecast(date.text, total, peaks, total / 10, total - total / 10, BusyOnly(peaks)))
  }

  // ------------------------------------------------------------ lemmas

  /** The peak entries are exactly the hours of the window with at least three
      records, in ascending order, each busy iff it has at least five. */
  lemma PeaksExact(appts: seq<Appointment>, day: Date, lo: int, hi: int)
    ensures ValidPeaks(PeaksBetween(appts, day, lo, hi), appts, day, lo, hi)
    ensures HoursRising(PeaksBetween(appts, day, lo, hi))
    ensures CoversPeaks(PeaksBetween(appts, day, lo, hi), appts, day, lo, hi)
  {
    PeaksValid(appts, day, lo, hi);
    PeaksRising(appts, day, lo, hi);
    PeaksCover(appts, day, lo, hi);
  }

  /** The entries of hours lo .. hi-1 so far, and the entry of hour hi - 1
      when it is a peak. */
  lemma PeaksStep(appts: seq<Appointment>, day: Date, lo: int, hi: int)
    requires lo < hi
    ensures var c := HourCount(appts, day, hi - 1);
      PeaksBetween(appts, day, lo, hi) == PeaksBetween(appts, day, lo, hi - 1) +
        (if c >= PeakThreshold then [PeakHour(hi - 1, c, StatusOf(c))] else [])
  {
  }

  lemma {:induction false} PeaksValid(appts: seq<Appointment>, day: Date, lo: int, hi: int)
    ensures ValidPeaks(PeaksBetween(appts, day, lo, hi), appts, day, lo, hi)
    decreases hi - lo
  {
    if hi > lo {
      PeaksValid(appts, day, lo, hi - 1);
      PeaksStep(appts, day, lo, hi);
      var q := PeaksBetween(appts, day, lo, hi - 1);
      var p := PeaksBetween(appts, day, lo, hi);
      forall i | 0 <= i < |p| ensures ValidPeak(p[i], appts, day, lo, hi) {
        if i < |q| {
          assert p[i] == q[i] && ValidPeak(q[i], appts, day, lo, hi - 1);
        }
      }
    }
  }

  lemma {:induction false} PeaksRising(appts: seq<Appointment>, day: Date, lo: int, hi: int)
    ensures HoursRising(PeaksBetween(appts, day, lo, hi))
    decreases hi - lo
  {
    if hi > lo {
      PeaksRising(appts, day, lo, hi - 1);
      PeaksValid(appts, day, lo, hi - 1);
      PeaksStep(appts, day, lo, hi);
      var q := PeaksBetween(appts, day, lo, hi - 1);
      var p := PeaksBetween(appts, day, lo, hi);
      forall i, j | 0 <= i < j < |p| ensures p[i].hour < p[j].hour {
        assert p[i] == q[i] && ValidPeak(q[i], appts, day, lo, hi - 1);
        if j < |q| {
          assert p[j] == q[j];
        }
      }
    }
  }

  lemma {:induction false} PeaksCover(appts: seq<Appointment>, day: Date, lo: int, hi: int)
    ensures CoversPeaks(PeaksBetween(appts, day, lo, hi), appts, day, lo, hi)
    decreases hi - lo
  {
    if hi > lo {
      PeaksCover(appts, day, lo, hi - 1);
      PeaksStep(appts, day, lo, hi);
      var q := PeaksBetween(appts, day, lo, hi - 1);
      var p := PeaksBetween(appts, day, lo, hi);
      forall h | lo <= h < hi && HourCount(appts, day, h) >= PeakThreshold
        ensures exists i :: 0 <= i < |p| && p[i].hour == h
      {
        if h < hi - 1 {
          var i :| 0 <= i < |q| && q[i].hour == h;
          assert p[i] == q[i];
        } else {
          assert p[|p| - 1].hour == h;
        }
      }
    }
  }

  /** An entry for an hour from lo to hi - 1 with that hour's count, at
      least the peak threshold, busy iff at least the busy threshold. */
  predicate ValidPeak(x: PeakHour, appts: seq<Appointment>, day: Date, lo: int, hi: int) {
    && lo <= x.hour < hi
    && x.count == HourCount(appts, day, x.hour)
    && x.count >= PeakThreshold
    && (x.status == Busy <==> x.count >= BusyThreshold)
  }

  predicate ValidPeaks(p: seq<PeakHour>, appts: seq<Appointment>, day: Date, lo: int, hi: int) {
    forall i :: 0 <= i < |p| ==> ValidPeak(p[i], appts, day, lo, hi)
  }

  predicate HoursRising(p: seq<PeakHour>) {
    forall i, j :: 0 <= i < j < |p| ==> p[i].hour < p[j].hour
  }

  /** Every hour from lo to hi - 1 that reaches the peak threshold has an entry. */
  predicate CoversPeaks(p: seq<PeakHour>, appts: seq<Appointment>, day: Date, lo: int, hi: int) {
    forall h :: lo <= h < hi && HourCount(appts, day, h) >= PeakThreshold ==>
      exists i :: 0 <= i < |p| && p[i].hour == h
  }

  /** busy_periods holds exactly the busy peak entries, in their order. */
  lemma {:induction false} BusyOnlyExact(peaks: seq<PeakHour>)
    ensures forall x :: x in BusyOnly(peaks) <==> x in peaks && x.status == Busy
    ensures |BusyOnly(peaks)| <= |peaks|
  {
    if peaks != [] {
      var n := |peaks| - 1;
      BusyOnlyExact(peaks[..n]);
      assert peaks == peaks[..n] + [peaks[n]];
    }
  }

  /** busy_periods keeps the peak entries' hour order: it is the
      subsequence of the busy ones. */
  lemma {:induction false} BusyOnlyInOrder(peaks: seq<PeakHour>)
    requires HoursRising(peaks)
    ensures HoursRising(BusyOnly(peaks))
  {
    if peaks != [] {
      var n := |peaks| - 1;
      var front := peaks[..n];
      assert HoursRising(front) by {
        forall i, j | 0 <= i < j < n ensures front[i].hour < front[j].hour {
          assert front[i] == peaks[i] && front[j] == peaks[j];
        }
      }
      BusyOnlyInOrder(front);
      BusyOnlyExact(front);
      forall x | x in BusyOnly(front) ensures x.hour < peaks[n].hour {
        var i :| 0 <= i < n && front[i] == x;
        assert peaks[i] == x;
      }
    }
  }

  /** Counting by hour over the whole day gives the day's total. */
  lemma {:induction false} HoursMakeTotal(appts: seq<Appointment>, day: Date)
    ensures SumHours(appts, day, 24) == DayTotal(appts, day)
  {
    if appts != [] {
      var n := |appts| - 1;
      HoursMakeTotal(appts[..n], day);
      SumHoursStep(appts, day, 24);
      var a := appts[n];
      assert DayTotal(appts, day) == DayTotal(appts[..n], day) + (if OnDay(a, day) then 1 else 0);
      assert SumHours(appts, day, 24) == SumHours(appts[..n], day, 24) + (if OnDay(a, day) && ParsedDate(a).value.hour < 24 then 1 else 0);
      if OnDay(a, day) {
        assert ParsedDate(a).value.hour < 24;
      }
    } else {
      SumHoursNone(appts, day, 24);
    }
  }

  /** HourCount summed over the hours 0 .. h-1. */
  function SumHours(appts: seq<Appointment>, day: Date, h: int): nat
    decreases h
  {
    if h <= 0 then 0 else SumHours(appts, day, h - 1) + HourCount(appts, day, h - 1)
  }

  lemma {:induction false} SumHoursNone(appts: seq<Appointment>, day: Date, h: int)
    requires appts == []
    ensures SumHours(appts, day, h) == 0
    decreases h
  {
    if h > 0 {
      SumHoursNone(appts, day, h - 1);
    }
  }

  lemma {:induction false} SumHoursStep(appts: seq<Appointment>, day: Date, h: int)
    requires appts != [] && 0 <= h <= 24
    ensures var a := appts[|appts| - 1];
      SumHours(appts, day, h) == SumHours(appts[..|appts| - 1], day, h)
        + (if OnDay(a, day) && ParsedDate(a).value.hour < h then 1 else 0)
    decreases h
  {
    if h > 0 {
      SumHoursStep(appts, day, h - 1);
    }
  }

  /** The counts reported for peak hours never exceed the day's total. */
  lemma PeakCountsWithinTotal(appts: seq<Appointment>, day: Date, h: int)
    requires 0 <= h < 24
    ensures HourCount(appts, day, h) <= DayTotal(appts, day)
  {
    HoursMakeTotal(appts, day);
    SumHoursCovers(appts, day, h, 24);
  }

  lemma {:induction false} SumHoursCovers(appts: seq<Appointment>, day: Date, h: int, n: int)
    requires 0 <= h < n
    ensures HourCount(appts, day, h) <= SumHours(appts, day, n)
    decreases n
  {
    if h < n - 1 {
      SumHoursCovers(appts, day, h, n - 1);
    }
  }

  /** The guarantees of `predict_flow`: an error exactly when the date or
      some record does not parse; otherwise ten per cent no-shows rounded
      down, arrivals the rest, and busy periods the busy peak entries. */
  lemma PredictionSpec(date: IsoText, appts: seq<Appointment>)
    ensures Prediction(date, appts).FlowError? <==> date.parsed.None? || exists i :: 0 <= i < |appts| && ParsedDate(appts[i]).None?
    ensures Prediction(date, appts).Predicted? ==>
      var f := Prediction(date, appts).forecast;
      && f.date == date.text
      && f.total == DayTotal(appts, date.parsed.value.date)
      && f.noShows * 10 <= f.total < (f.noShows + 1) * 10
      && f.arrivals + f.noShows == f.total
      && (forall x :: x in f.busyPeriods <==> x in f.peakHours && x.status == Busy)
      && HoursRising(f.peakHours) && HoursRising(f.busyPeriods)
      && (forall i :: 0 <= i < |f.peakHours| ==>
            OpeningHour <= f.peakHours[i].hour < ClosingHour && f.peakHours[i].count <= f.total)
  {
    if Prediction(date, appts).Predicted? {
      var day := date.parsed.value.date;
      var peaks := PeaksBetween(appts, day, OpeningHour, ClosingHour);
      PeaksExact(appts, day, OpeningHour, ClosingHour);
      BusyOnlyExact(peaks);
      BusyOnlyInOrder(peaks);
      forall i | 0 <= i < |peaks| ensures peaks[i].count <= DayTotal(appts, day) {
        PeakCountsWithinTotal(appts, day, peaks[i].hour);
      }
    }
  }

  /** No records: zero counts and empty lists. */
  lemma EmptyDay(date: IsoText)
    requires date.parsed.Some?
    ensures Prediction(date, []) == Predicted(Forecast(date.text, 0, [], 0, 0, []))
  {
    var day := date.parsed.value.date;
    assert forall h :: HourCount([], day, h) == 0;
    ZeroPeaks([], day, OpeningHour, ClosingHour);
  }

  lemma {:induction false} ZeroPeaks(appts: seq<Appointment>, day: Date, lo: int, hi: int)
    requires forall h :: HourCount(appts, day, h) == 0
    ensures PeaksBetween(appts, day, lo, hi) == []
    decreases hi - lo
  {
    if hi > lo {
      ZeroPeaks(appts, day, lo, hi - 1);
    }
  }

  /** A stored record whose date text is "YYYY-MM-DDTHH:MM" of at, which
      `fromisoformat` reads back as at. */
  function RecordAt(at: DateTime): Appointment {
    Appointment(Some(IsoText(IsoDate(at.date) + "T" + ClockLabel(at.hour, at.minute), Some(at))), None, 0)
  }

  /** Ten appointments, all at 11 o'clock of the requested day: one busy
      peak at 11 with ten, one no-show, nine arrivals. */
  lemma TenAtEleven(date: IsoText, at: DateTime)
    requires date.parsed.Some? && at.date == date.parsed.value.date && at.hour == 11
    ensures var appts := seq(10, _ => RecordAt(at));
      var p := PeakHour(11, 10, Busy);
      Prediction(date, appts) == Predicted(Forecast(date.text, 10, [p], 1, 9, [p]))
  {
    var appts := seq(10, _ => RecordAt(at));
    var day := at.date;
    ConstantCounts(appts, day, at);
    var p := PeakHour(11, 10, Busy);
    assert PeaksBetween(appts, day, 9, 11) == [] by {
      assert PeaksBetween(appts, day, 9, 9) == [];
      assert PeaksBetween(appts, day, 9, 10) == [];
    }
    assert PeaksBetween(appts, day, 9, 12) == [p];
    assert PeaksBetween(appts, day, 9, 17) == [p] by {
      assert PeaksBetween(appts, day, 9, 13) == [p];
      assert PeaksBetween(appts, day, 9, 14) == [p];
      assert PeaksBetween(appts, day, 9, 15) == [p];
      assert PeaksBetween(appts, day, 9, 16) == [p];
    }
    assert BusyOnly([p]) == [p] by {
      assert [p][..0] == [];
    }
  }

  lemma {:induction false} ConstantCounts(appts: seq<Appointment>, day: Date, at: DateTime)
    requires forall i :: 0 <= i < |appts| ==> appts[i] == RecordAt(at)
    requires at.date == day
    ensures AllParse(appts)
    ensures DayTotal(appts, day) == |appts|
    ensures forall h :: HourCount(appts, day, h) == if h == at.hour then |appts| else 0
  {
    if appts != [] {
      ConstantCounts(appts[..|appts| - 1], day, at);
    }
  }

  /** The hourly counters hold the count of every hour; absent is zero. */
  ghost predicate CountsOf(hourly: map<int, nat>, appts: seq<Appointment>, day: Date) {
    forall h :: (if h in hourly then hourly[h] else 0) == HourCount(appts, day, h)
  }

  /** The hourly counting loop; records that do not parse are skipped. */
  method CountByHour(appts: seq<Appointment>, day: Date) returns (hourly: map<int, nat>)
    ensures CountsOf(hourly, appts, day)
  {
    hourly := map[];
    for i := 0 to |appts|
      invariant CountsOf(hourly, appts[..i], day)
    {
      assert appts[..i + 1][..i] == appts[..i];
      var a := appts[i];
      if a.date.Some? && a.date.value.parsed.Some? && a.date.value.parsed.value.date == day {
        var h := a.date.value.parsed.value.hour;
        hourly := hourly[h := (if h in hourly then hourly[h] else 0) + 1];
      }
    }
    assert appts[..|appts|] == appts;
  }

  /** The loop over the clinic hours 9 to 16 keeping those with at least three. */
  method PeakHours(appts: seq<Appointment>, day: Date, hourly: map<int, nat>) returns (peaks: seq<PeakHour>)
    requires CountsOf(hourly, appts, day)
    ensures peaks == PeaksBetween(appts, day, OpeningHour, ClosingHour)
  {
    peaks := [];
    for hour := OpeningHour to ClosingHour
      invariant peaks == PeaksBetween(appts, day, OpeningHour, hour)
    {
      var count := if hour in hourly then hourly[hour] else 0;
      assert count == HourCount(appts, day, hour);
      if count >= PeakThreshold {
        peaks := peaks + [PeakHour(hour, count, if count >= BusyThreshold then Busy else Moderate)];
      }
    }
  }

  /** The unguarded total: it fails at the first record whose date does not
      parse, else counts the records of the day. */
  method CountDay(appts: seq<Appointment>, day: Date) returns (total: Option<nat>)
    ensures total.None? <==> !AllParse(appts)
    ensures total.Some? ==> total.value == DayTotal(appts, day)
  {
    var n := 0;
    for i := 0 to |appts|
      invariant n == DayTotal(appts[..i], day)
      invariant AllParse(appts[..i])
    {
      assert appts[..i + 1][..i] == appts[..i];
      var a := appts[i];
      if a.date.None? || a.date.value.parsed.None? {
        assert ParsedDate(appts[i]).None?;
        return None;
      }
      if a.date.value.parsed.value.date == day {
        n := n + 1;
      }
    }
    assert appts[..|appts|] == appts;
    return Some(n);
  }

  // ------------------------------------------------------------ the object

  class PatientFlowPredictor {
    var isTrained: bool

    constructor ()
      ensures !isTrained
    {
      isTrained := false;
    }

    /** `train_model`: trained exactly when there are at least 10 records. */
    method TrainModel(records: seq<Appointment>)
      modifies this
      ensures isTrained <==> |records| >= 10
    {
      if |records| < 10 {
        isTrained := false;
        return;
      }
      isTrained := true;
    }

    /** `predict_flow`. */
    method PredictFlow(date: IsoText, appts: seq<Appointment>) returns (r: FlowResult)
      ensures r == Prediction(date, appts)
      ensures r.FlowError? <==> date.parsed.None? || exists i :: 0 <= i < |appts| && ParsedDate(appts[i]).None?
      ensures r.Predicted? ==> r.forecast.arrivals + r.forecast.noShows == r.forecast.total
    {
      PredictionSpec(date, appts);
      if date.parsed.None? {
        return FlowError;
      }
      var day := date.parsed.value.date;
      var hourly := CountByHour(appts, day);
      var peaks := PeakHours(appts, day, hourly);
      var counted := CountDay(appts, day);
      if counted.None? {
        return FlowError;
      }
      var total := counted.value;
      var noShows := total / 10;
      r := Predicted(Forecast(date.text, total, peaks, noShows, total - noShows, BusyOnly(peaks)));
    }
  }
}
