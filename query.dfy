/** `NLPQueryProcessor.parse_query` of ai_service.py: a priority-ordered,
    first-match-wins intent classifier over fixed regular expressions, run by
    a backtracking matcher with the same search order as Python's `re`. */
module Query {
  import opened Common

  // ------------------------------------------------------------ characters

  /** ASCII whitespace as `str.strip()` and `\s` see it: tab, newline,
      vertical tab, form feed, carriage return, the separators 0x1c-0x1f and
      space. */
  predicate IsSpace(c: char) {
    (9 <= c as int <= 13) || (28 <= c as int <= 32)
  }

  predicate IsUpper(c: char) {
    'A' <= c <= 'Z'
  }

  predicate IsLower(c: char) {
    'a' <= c <= 'z'
  }

  predicate IsLetter(c: char) {
    IsUpper(c) || IsLower(c)
  }

  /** `\w`: a letter, a digit or the underscore. */
  predicate IsWord(c: char) {
    IsLetter(c) || IsDigit(c) || c == '_'
  }

  function ToLower(c: char): char {
    if IsUpper(c) then (c as int + 32) as char else c
  }

  function ToUpper(c: char): char {
    if IsLower(c) then (c as int - 32) as char else c
  }

  /** `str.lower()`. */
  function Lower(s: string): (r: string)
    ensures |r| == |s|
    ensures forall i :: 0 <= i < |s| ==> r[i] == ToLower(s[i])
  {
    seq(|s|, i requires 0 <= i < |s| => ToLower(s[i]))
  }

  /** After `lower()` no upper-case letter is left; letters stay letters,
      lower-case letters and every other character are kept as they are,
      word characters and whitespace stay what they were, and lower-casing
      again changes nothing. */
  lemma LowerSpec(s: string)
    ensures |Lower(s)| == |s|
    ensures forall i :: 0 <= i < |s| ==> !IsUpper(Lower(s)[i])
    ensures forall i :: 0 <= i < |s| && !IsUpper(s[i]) ==> Lower(s)[i] == s[i]
    ensures forall i :: 0 <= i < |s| ==>
      && (IsLetter(Lower(s)[i]) <==> IsLetter(s[i]))
      && (IsWord(Lower(s)[i]) <==> IsWord(s[i]))
      && (IsSpace(Lower(s)[i]) <==> IsSpace(s[i]))
    ensures Lower(Lower(s)) == Lower(s)
  {
    forall i | 0 <= i < |s| ensures IsUpper(s[i]) ==> IsLower(Lower(s)[i]) {
    }
  }

  function StripLeft(s: string): string {
    if s != [] && IsSpace(s[0]) then StripLeft(s[1..]) else s
  }

  function StripRight(s: string): string {
    if s != [] && IsSpace(s[|s| - 1]) then StripRight(s[..|s| - 1]) else s
  }

  /** `str.lstrip()` drops exactly the leading whitespace. */
  lemma {:induction false} StripLeftSpec(s: string)
    ensures |StripLeft(s)| <= |s| && StripLeft(s) == s[|s| - |StripLeft(s)|..]
    ensures forall k :: 0 <= k < |s| - |StripLeft(s)| ==> IsSpace(s[k])
    ensures StripLeft(s) == [] || !IsSpace(StripLeft(s)[0])
    decreases |s|
  {
    if s != [] && IsSpace(s[0]) {
      StripLeftSpec(s[1..]);
    }
  }

  /** `str.rstrip()` drops exactly the trailing whitespace. */
  lemma {:induction false} StripRightSpec(s: string)
    ensures |StripRight(s)| <= |s| && StripRight(s) == s[..|StripRight(s)|]
    ensures forall k :: |StripRight(s)| <= k < |s| ==> IsSpace(s[k])
    ensures StripRight(s) == [] || !IsSpace(StripRight(s)[|StripRight(s)| - 1])
    decreases |s|
  {
    if s != [] && IsSpace(s[|s| - 1]) {
      StripRightSpec(s[..|s| - 1]);
    }
  }

  /** r is s[a..a + |r|] and everything of s around it is whitespace. */
  predicate Trimmed(s: string, a: int, r: string) {
    0 <= a <= |s| - |r| && r == s[a..a + |r|] &&
    (forall k :: 0 <= k < a ==> IsSpace(s[k])) && (forall k :: a + |r| <= k < |s| ==> IsSpace(s[k]))
  }

  /** `str.strip()`. */
  function Strip(s: string): string {
    StripRight(StripLeft(s))
  }

  /** `str.strip()` gives the slice of s between its leading and its
      trailing whitespace, which begins and ends with a non-space. */
  lemma StripSpec(s: string)
    ensures exists a :: Trimmed(s, a, Strip(s))
    ensures Strip(s) == [] || (!IsSpace(Strip(s)[0]) && !IsSpace(Strip(s)[|Strip(s)| - 1]))
  {
    var a := StripTrimmed(s);
    StripEnds(s);
  }

  /** Where `str.strip()` cuts: at the end of the leading whitespace. */
  lemma StripTrimmed(s: string) returns (a: nat)
    ensures Trimmed(s, a, Strip(s))
  {
    var l := StripLeft(s);
    StripLeftSpec(s);
    var r := StripRight(l);
    StripRightSpec(l);
    a := |s| - |l|;
    assert r == s[a..a + |r|];
    forall k | a + |r| <= k < |s| ensures IsSpace(s[k]) {
      assert s[k] == l[k - a];
    }
    assert Trimmed(s, a, r);
  }

  /** What `str.strip()` leaves begins and ends with a non-space. */
  lemma StripEnds(s: string)
    ensures Strip(s) == [] || (!IsSpace(Strip(s)[0]) && !IsSpace(Strip(s)[|Strip(s)| - 1]))
  {
    var l := StripLeft(s);
    var r := StripRight(l);
    StripLeftSpec(s);
    StripRightSpec(l);
    if r != [] {
      assert r[0] == l[0];
    }
  }

  /** `query.lower().strip()`. */
  function Normalize(query: string): string {
    Strip(Lower(query))
  }

  /** `str.title()`: a letter is upper-cased when the character before it is
      not a letter, lower-cased otherwise. */
  function Title(s: string): (r: string)
    ensures |r| == |s|
  {
    seq(|s|, i requires 0 <= i < |s| =>
      if i > 0 && IsLetter(s[i - 1]) then ToLower(s[i]) else ToUpper(s[i]))
  }

  /** t occurs in s at position a. */
  predicate OccursAt(s: string, t: string, a: int) {
    0 <= a && a + |t| <= |s| && s[a..a + |t|] == t
  }

  /** `t in s`. */
  function Contains(s: string, t: string): bool
    decreases |s|
  {
    if |t| > |s| then false else s[..|t|] == t || Contains(s[1..], t)
  }

  // ---------------------------------------------------------------- patterns

  /** The pieces the fixed patterns are made of: a literal, `.*`, an optional
      character such as `\.?`, `\s*`, the capture `(\w+)`, and a literal
      alternation such as `(?:for|with)`. */
  datatype Elem = Lit(text: string) | AnyRun | OptChar(c: char) | SpaceRun | WordCapture | OneOf(alts: seq<string>)

  type Pattern = seq<Elem>

  /** A successful match: where it ends and what group 1 captured. */
  datatype Hit = Hit(end: nat, group: Option<string>)

  datatype CharClass = Dot | Space | Word

  /** `.` is any character but a newline. */
  predicate InClass(c: char, cls: CharClass) {
    match cls
    case Dot => c != '\n'
    case Space => IsSpace(c)
    case Word => IsWord(c)
  }

  /** The length of the longest run of `cls` characters starting at i. */
  function RunLen(s: string, i: nat, cls: CharClass): (n: nat)
    requires i <= |s|
    ensures i + n <= |s|
    ensures forall k :: i <= k < i + n ==> InClass(s[k], cls)
    ensures i + n == |s| || !InClass(s[i + n], cls)
    decreases |s| - i
  {
    if i < |s| && InClass(s[i], cls) then 1 + RunLen(s, i + 1, cls) else 0
  }

  /** The group after taking k characters of a run: the run itself when the
      run is the capture, else the group so far. */
  function Captured(s: string, i: nat, k: nat, g: Option<string>, capture: bool): Option<string>
    requires i + k <= |s|
  {
    if capture then Some(s[i..i + k]) else g
  }

  /** The first match of pattern p at position i of s, trying alternatives in
      the order Python's backtracking matcher does: greedy runs longest
      first, an optional character taken before it is skipped, alternatives
      left to right. */
  function MatchAt(s: string, i: nat, p: Pattern, g: Option<string>): (r: Option<Hit>)
    requires i <= |s|
    ensures r.Some? ==> i <= r.value.end <= |s|
    decreases |p|, 0, 0
  {
    if p == [] then Some(Hit(i, g))
    else match p[0]
      case Lit(t) =>
        if i + |t| <= |s| && s[i..i + |t|] == t then MatchAt(s, i + |t|, p[1..], g) else None
      case OptChar(c) =>
        var taken := if i < |s| && s[i] == c then MatchAt(s, i + 1, p[1..], g) else None;
        if taken.Some? then taken else MatchAt(s, i, p[1..], g)
      case AnyRun => TryRuns(s, i, RunLen(s, i, Dot), 0, p[1..], g, false)
      case SpaceRun => TryRuns(s, i, RunLen(s, i, Space), 0, p[1..], g, false)
      case WordCapture =>
        var n := RunLen(s, i, Word);
        if n == 0 then None else TryRuns(s, i, n, 1, p[1..], g, true)
      case OneOf(alts) => FirstAlt(s, i, alts, p[1..], g)
  }

  /** Backtracking over a run: take k characters, then k - 1, ..., down to lo. */
  function TryRuns(s: string, i: nat, k: nat, lo: nat, rest: Pattern, g: Option<string>, capture: bool): (r: Option<Hit>)
    requires i + k <= |s| && lo <= k
    ensures r.Some? ==> i <= r.value.end <= |s|
    decreases |rest|, 1, k
  {
    var r := MatchAt(s, i + k, rest, Captured(s, i, k, g, capture));
    if r.Some? || k == lo then r else TryRuns(s, i, k - 1, lo, rest, g, capture)
  }

  /** Backtracking over a literal alternation, left to right. */
  function FirstAlt(s: string, i: nat, alts: seq<string>, rest: Pattern, g: Option<string>): (r: Option<Hit>)
    requires i <= |s|
    ensures r.Some? ==> i <= r.value.end <= |s|
    decreases |rest|, 1, |alts|
  {
    if alts == [] then None
    else
      var t := alts[0];
      var r := if i + |t| <= |s| && s[i..i + |t|] == t then MatchAt(s, i + |t|, rest, g) else None;
      if r.Some? then r else FirstAlt(s, i, alts[1..], rest, g)
  }

  /** `re.search`: the match at the leftmost position where there is one. */
  function SearchFrom(s: string, p: Pattern, i: nat): Option<Hit>
    requires i <= |s|
    decreases |s| - i
  {
    var r := MatchAt(s, i, p, None);
    if r.Some? || i == |s| then r else SearchFrom(s, p, i + 1)
  }

  function Search(s: string, p: Pattern): Option<Hit> {
    SearchFrom(s, p, 0)
  }

  /** The first pattern of a list that matches somewhere, with its match. */
  function FirstMatch(s: string, pats: seq<Pattern>): Option<Hit> {
    if pats == [] then None
    else
      var r := Search(s, pats[0]);
      if r.Some? then r else FirstMatch(s, pats[1..])
  }

  // ------------------------------------------------------ the fixed patterns

  const Dr: Pattern := [Lit("dr"), OptChar('.'), SpaceRun, WordCapture]

  const TodayPatterns: seq<Pattern> := [
    [Lit("show"), AnyRun, Lit("today"), AnyRun, Lit("appointments")],
    [Lit("today"), AnyRun, Lit("appointments")],
    [Lit("appointments"), AnyRun, Lit("today")],
    [Lit("what"), AnyRun, Lit("appointments"), AnyRun, Lit("today")]
  ]

  const DoctorPatterns: seq<Pattern> := [
    [Lit("show"), AnyRun, Lit("appointments"), AnyRun, OneOf(["for", "with"]), AnyRun] + Dr,
    [Lit("appointments"), AnyRun] + Dr,
    Dr + [AnyRun, Lit("appointments")]
  ]

  const PatientPatterns: seq<Pattern> := [
    [Lit("find"), AnyRun, Lit("patient"), AnyRun, WordCapture],
    [Lit("search"), AnyRun, Lit("patient"), AnyRun, WordCapture],
    [Lit("patient"), AnyRun, Lit("named"), AnyRun, WordCapture]
  ]

  const SchedulePatterns: seq<Pattern> := [
    [Lit("schedule"), AnyRun, Lit("appointment")],
    [Lit("book"), AnyRun, Lit("appointment")],
    [Lit("create"), AnyRun, Lit("appointment")]
  ]

  const DoctorSchedulePatterns: seq<Pattern> := [
    [Lit("show"), AnyRun, Lit("schedule"), AnyRun, OneOf(["for", "of"]), AnyRun] + Dr,
    [Lit("when"), AnyRun] + Dr + [AnyRun, Lit("available")]
  ]

  // ------------------------------------------------------------ parse_query

  datatype Intent = TodayAppointments | DoctorAppointments | PatientSearch | ScheduleAppointment | DoctorSchedule | Unknown

  /** The `entities` dictionary; None is an absent key. Dates are rendered
      YYYY-MM-DD. */
  datatype Entities = Entities(date: Option<string>, doctorName: Option<string>, patientName: Option<string>)

  datatype QueryResult = QueryResult(intent: Intent, entities: Entities, originalQuery: string)

  const NoEntities := Entities(None, None, None)

  /** `match.group(1).title()`. */
  function GroupTitle(h: Hit): string {
    Title(h.group.GetOr(""))
  }

  /** `parse_query`, with `datetime.now()`'s date passed in as `today`. */
  function ParseQuery(query: string, today: Date): QueryResult {
    var s := Normalize(query);
    if FirstMatch(s, TodayPatterns).Some? then
      QueryResult(TodayAppointments, Entities(Some(IsoDate(today)), None, None), query)
    else if FirstMatch(s, DoctorPatterns).Some? then
      var date :=
        if Contains(s, "today") then Some(IsoDate(today))
        else if Contains(s, "tomorrow") then Some(IsoDate(NextDay(today)))
        else None;
      QueryResult(DoctorAppointments, Entities(date, Some(GroupTitle(FirstMatch(s, DoctorPatterns).value)), None), query)
    else if FirstMatch(s, PatientPatterns).Some? then
      QueryResult(PatientSearch, Entities(None, None, Some(GroupTitle(FirstMatch(s, PatientPatterns).value))), query)
    else if FirstMatch(s, SchedulePatterns).Some? then
      QueryResult(ScheduleAppointment, NoEntities, query)
    else if FirstMatch(s, DoctorSchedulePatterns).Some? then
      QueryResult(DoctorSchedule, Entities(None, Some(GroupTitle(FirstMatch(s, DoctorSchedulePatterns).value)), None), query)
    else
      QueryResult(Unknown, NoEntities, query)
  }

  // ---------------------------------------------------- matcher properties

  /** Taking m characters of the run lets the rest of the pattern match. */
  predicate RunFits(s: string, i: nat, m: nat, rest: Pattern, g: Option<string>, capture: bool)
    requires i + m <= |s|
  {
    MatchAt(s, i + m, rest, Captured(s, i, m, g, capture)).Some?
  }

  /** The run length the backtracking settles on: the longest from lo to k
      that lets the rest match, or lo when none does. */
  function FitLen(s: string, i: nat, k: nat, lo: nat, rest: Pattern, g: Option<string>, capture: bool): nat
    requires i + k <= |s| && lo <= k
    decreases k
  {
    if RunFits(s, i, k, rest, g, capture) || k == lo then k else FitLen(s, i, k - 1, lo, rest, g, capture)
  }

  /** Backtracking over a run returns the match for the longest length from
      lo to k that lets the rest match, and succeeds iff there is one. */
  lemma TryRunsLongest(s: string, i: nat, k: nat, lo: nat, rest: Pattern, g: Option<string>, capture: bool)
    requires i + k <= |s| && lo <= k
    ensures lo <= FitLen(s, i, k, lo, rest, g, capture) <= k
    ensures TryRuns(s, i, k, lo, rest, g, capture) ==
      MatchAt(s, i + FitLen(s, i, k, lo, rest, g, capture), rest, Captured(s, i, FitLen(s, i, k, lo, rest, g, capture), g, capture))
    ensures forall m' :: FitLen(s, i, k, lo, rest, g, capture) < m' <= k ==> !RunFits(s, i, m', rest, g, capture)
    ensures TryRuns(s, i, k, lo, rest, g, capture).Some? <==>
      exists m :: lo <= m <= k && RunFits(s, i, m, rest, g, capture)
  {
    TryRunsAtFitLen(s, i, k, lo, rest, g, capture);
    FitLenMaximal(s, i, k, lo, rest, g, capture);
  }

  /** Backtracking over a run stops at the length FitLen picks. */
  lemma {:induction false} TryRunsAtFitLen(s: string, i: nat, k: nat, lo: nat, rest: Pattern, g: Option<string>, capture: bool)
    requires i + k <= |s| && lo <= k
    ensures lo <= FitLen(s, i, k, lo, rest, g, capture) <= k
    ensures TryRuns(s, i, k, lo, rest, g, capture) ==
      MatchAt(s, i + FitLen(s, i, k, lo, rest, g, capture), rest, Captured(s, i, FitLen(s, i, k, lo, rest, g, capture), g, capture))
    decreases k
  {
    if !RunFits(s, i, k, rest, g, capture) && k > lo {
      TryRunsStep(s, i, k, lo, rest, g, capture);
      TryRunsAtFitLen(s, i, k - 1, lo, rest, g, capture);
    } else {
      TryRunsStop(s, i, k, lo, rest, g, capture);
    }
  }

  /** A length that does not fit and is above lo: both move on to k - 1. */
  lemma TryRunsStep(s: string, i: nat, k: nat, lo: nat, rest: Pattern, g: Option<string>, capture: bool)
    requires i + k <= |s| && lo < k && !RunFits(s, i, k, rest, g, capture)
    ensures TryRuns(s, i, k, lo, rest, g, capture) == TryRuns(s, i, k - 1, lo, rest, g, capture)
    ensures FitLen(s, i, k, lo, rest, g, capture) == FitLen(s, i, k - 1, lo, rest, g, capture)
  {
  }

  /** A length that fits, or lo itself: both stop there. */
  lemma TryRunsStop(s: string, i: nat, k: nat, lo: nat, rest: Pattern, g: Option<string>, capture: bool)
    requires i + k <= |s| && lo <= k && (RunFits(s, i, k, rest, g, capture) || k == lo)
    ensures FitLen(s, i, k, lo, rest, g, capture) == k
    ensures TryRuns(s, i, k, lo, rest, g, capture) == MatchAt(s, i + k, rest, Captured(s, i, k, g, capture))
  {
  }

  /** FitLen is the longest fitting length, and it fits iff some length does. */
  lemma {:induction false} FitLenMaximal(s: string, i: nat, k: nat, lo: nat, rest: Pattern, g: Option<string>, capture: bool)
    requires i + k <= |s| && lo <= k
    ensures lo <= FitLen(s, i, k, lo, rest, g, capture) <= k
    ensures forall m' :: FitLen(s, i, k, lo, rest, g, capture) < m' <= k ==> !RunFits(s, i, m', rest, g, capture)
    ensures RunFits(s, i, FitLen(s, i, k, lo, rest, g, capture), rest, g, capture) <==>
      exists m :: lo <= m <= k && RunFits(s, i, m, rest, g, capture)
    decreases k
  {
    if !RunFits(s, i, k, rest, g, capture) && k > lo {
      FitLenMaximal(s, i, k - 1, lo, rest, g, capture);
      assert FitLen(s, i, k, lo, rest, g, capture) == FitLen(s, i, k - 1, lo, rest, g, capture);
      if exists m :: lo <= m <= k && RunFits(s, i, m, rest, g, capture) {
        var m :| lo <= m <= k && RunFits(s, i, m, rest, g, capture);
        assert m <= k - 1;
      }
    }
  }

  /** Alternative a of alts occurs at i and the rest matches after it with h. */
  predicate AltHit(s: string, i: nat, alts: seq<string>, a: int, rest: Pattern, g: Option<string>, h: Option<Hit>)
    requires i <= |s|
  {
    0 <= a < |alts| && OccursAt(s, alts[a], i) && MatchAt(s, i + |alts[a]|, rest, g) == h
  }

  /** A literal alternation matches through one of its alternatives. */
  lemma {:induction false} FirstAltSome(s: string, i: nat, alts: seq<string>, rest: Pattern, g: Option<string>)
    requires i <= |s|
    ensures FirstAlt(s, i, alts, rest, g).Some? ==>
      exists a :: AltHit(s, i, alts, a, rest, g, FirstAlt(s, i, alts, rest, g))
    decreases |alts|
  {
    if alts != [] {
      var h := FirstAlt(s, i, alts, rest, g);
      var t := alts[0];
      if OccursAt(s, t, i) && MatchAt(s, i + |t|, rest, g).Some? {
        assert h == MatchAt(s, i + |t|, rest, g);
        assert AltHit(s, i, alts, 0, rest, g, h);
      } else {
        assert h == FirstAlt(s, i, alts[1..], rest, g);
        FirstAltSome(s, i, alts[1..], rest, g);
        if h.Some? {
          var a :| AltHit(s, i, alts[1..], a, rest, g, h);
          assert alts[a + 1] == alts[1..][a];
          assert AltHit(s, i, alts, a + 1, rest, g, h);
        }
      }
    }
  }

  /** s[a..b] is a non-empty run of word characters. */
  predicate WordSpan(s: string, a: nat, b: nat) {
    a < b <= |s| && forall k :: a <= k < b ==> IsWord(s[k])
  }

  predicate CaptureFree(q: Pattern) {
    forall k :: 0 <= k < |q| ==> q[k] != WordCapture
  }

  /** A match of p at i goes on as the match of p[1..] at j with group g';
      g' is g unless p[0] is the capture, which takes the word s[i..j]. */
  predicate StepTo(s: string, i: nat, p: Pattern, g: Option<string>, j: int, g': Option<string>)
    requires i <= |s| && p != []
  {
    i <= j <= |s| && MatchAt(s, j, p[1..], g') == MatchAt(s, i, p, g) &&
    (p[0] != WordCapture ==> g' == g) &&
    (p[0] == WordCapture ==> WordSpan(s, i, j) && g' == Some(s[i..j]))
  }

  /** One step of a match: a match of p passes through a match of p[1..]
      further on, which brings the same group unless p[0] is the capture. */
  lemma StepMatch(s: string, i: nat, p: Pattern, g: Option<string>)
    requires i <= |s| && p != [] && MatchAt(s, i, p, g).Some?
    ensures exists j, g' :: StepTo(s, i, p, g, j, g')
  {
    match p[0]
    case Lit(w) =>
      assert StepTo(s, i, p, g, i + |w|, g);
    case OptChar(c) =>
      if i < |s| && s[i] == c && MatchAt(s, i + 1, p[1..], g).Some? {
        assert StepTo(s, i, p, g, i + 1, g);
      } else {
        assert StepTo(s, i, p, g, i, g);
      }
    case AnyRun =>
      StepRun(s, i, p, g, Dot);
    case SpaceRun =>
      StepRun(s, i, p, g, Space);
    case WordCapture =>
      StepCapture(s, i, p, g);
    case OneOf(alts) =>
      FirstAltSome(s, i, alts, p[1..], g);
      var a :| AltHit(s, i, alts, a, p[1..], g, MatchAt(s, i, p, g));
      assert StepTo(s, i, p, g, i + |alts[a]|, g);
  }

  /** The step over `.*` or `\s*`. */
  lemma StepRun(s: string, i: nat, p: Pattern, g: Option<string>, cls: CharClass)
    requires i <= |s| && p != [] && MatchAt(s, i, p, g).Some?
    requires (p[0] == AnyRun && cls == Dot) || (p[0] == SpaceRun && cls == Space)
    ensures exists j, g' :: StepTo(s, i, p, g, j, g')
  {
    var n := RunLen(s, i, cls);
    assert MatchAt(s, i, p, g) == TryRuns(s, i, n, 0, p[1..], g, false);
    TryRunsAtFitLen(s, i, n, 0, p[1..], g, false);
    var m := FitLen(s, i, n, 0, p[1..], g, false);
    assert Captured(s, i, m, g, false) == g;
    assert StepTo(s, i, p, g, i + m, g);
  }

  /** The step over the capture `(\w+)`. */
  lemma StepCapture(s: string, i: nat, p: Pattern, g: Option<string>)
    requires i <= |s| && p != [] && MatchAt(s, i, p, g).Some? && p[0] == WordCapture
    ensures exists j, g' :: StepTo(s, i, p, g, j, g')
  {
    var n := RunLen(s, i, Word);
    assert n > 0 && MatchAt(s, i, p, g) == TryRuns(s, i, n, 1, p[1..], g, true);
    TryRunsAtFitLen(s, i, n, 1, p[1..], g, true);
    var m := FitLen(s, i, n, 1, p[1..], g, true);
    assert WordSpan(s, i, i + m);
    assert StepTo(s, i, p, g, i + m, Some(s[i..i + m]));
  }

  /** A match of q + t passes through a match of t further on; the group it
      brings there is the one it started with when q captures nothing. */
  lemma {:induction false} SplitMatch(s: string, i: nat, q: Pattern, t: Pattern, g: Option<string>)
    requires i <= |s| && MatchAt(s, i, q + t, g).Some?
    ensures exists j, g' :: i <= j <= |s| && MatchAt(s, j, t, g') == MatchAt(s, i, q + t, g) && (CaptureFree(q) ==> g' == g)
    decreases |q|
  {
    if q == [] {
      assert q + t == t;
    } else {
      var p := q + t;
      assert p[1..] == q[1..] + t;
      assert p[0] == q[0];
      StepMatch(s, i, p, g);
      var j, g' :| StepTo(s, i, p, g, j, g');
      SplitMatch(s, j, q[1..], t, g');
      assert CaptureFree(q) ==> CaptureFree(q[1..]) && q[0] != WordCapture;
    }
  }

  /** `re.search` finds a match iff the pattern matches at some position, and
      what it returns is a match at some position. */
  lemma {:induction false} SearchFromSome(s: string, p: Pattern, i: nat)
    requires i <= |s|
    ensures SearchFrom(s, p, i).Some? <==> exists j :: i <= j <= |s| && MatchAt(s, j, p, None).Some?
    ensures SearchFrom(s, p, i).Some? ==> exists j :: i <= j <= |s| && MatchAt(s, j, p, None) == SearchFrom(s, p, i)
    decreases |s| - i
  {
    if MatchAt(s, i, p, None).Some? {
      assert MatchAt(s, i, p, None) == SearchFrom(s, p, i);
    } else if i < |s| {
      SearchFromSome(s, p, i + 1);
      if exists j :: i <= j <= |s| && MatchAt(s, j, p, None).Some? {
        var j :| i <= j <= |s| && MatchAt(s, j, p, None).Some?;
        assert j >= i + 1;
      }
    }
  }

  /** The first matching pattern of a list: it is one of the list's. */
  lemma {:induction false} FirstMatchSome(s: string, pats: seq<Pattern>)
    ensures FirstMatch(s, pats).Some? <==> exists k :: 0 <= k < |pats| && Search(s, pats[k]).Some?
    ensures FirstMatch(s, pats).Some? ==> exists k :: 0 <= k < |pats| && Search(s, pats[k]) == FirstMatch(s, pats)
  {
    if pats != [] && Search(s, pats[0]).None? {
      FirstMatchSome(s, pats[1..]);
      if exists k :: 0 <= k < |pats| && Search(s, pats[k]).Some? {
        var k :| 0 <= k < |pats| && Search(s, pats[k]).Some?;
        assert pats[1..][k - 1] == pats[k];
      }
      if FirstMatch(s, pats).Some? {
        var k :| 0 <= k < |pats[1..]| && Search(s, pats[1..][k]) == FirstMatch(s, pats[1..]);
        assert pats[k + 1] == pats[1..][k];
      }
    }
  }

  /** A match of a pattern whose prefix q captures nothing implies a match
      of what follows q. */
  lemma SearchSuffix(s: string, q: Pattern, t: Pattern)
    requires CaptureFree(q) && Search(s, q + t).Some?
    ensures Search(s, t).Some?
  {
    SearchFromSome(s, q + t, 0);
    var i :| 0 <= i <= |s| && MatchAt(s, i, q + t, None) == Search(s, q + t);
    SplitMatch(s, i, q, t, None);
    var j, g' :| i <= j <= |s| && MatchAt(s, j, t, g') == MatchAt(s, i, q + t, None) && (CaptureFree(q) ==> g' == None);
    SearchFromSome(s, t, 0);
  }

  // --------------------------------------------------- today's appointments

  /** No newline between positions a and b. */
  predicate NoNewline(s: string, a: nat, b: nat)
    requires a <= b <= |s|
  {
    forall k :: a <= k < b ==> s[k] != '\n'
  }

  /** t1 and later t2 on the same line of s. */
  ghost predicate OnOneLine(s: string, t1: string, t2: string) {
    exists a: nat, b: nat :: OccursAt(s, t1, a) && a + |t1| <= b && OccursAt(s, t2, b) && NoNewline(s, a + |t1|, b)
  }

  /** `t1.*t2` matches at i iff t1 is at i and t2 follows on the same line. */
  lemma PairMatchAt(s: string, i: nat, t1: string, t2: string, g: Option<string>)
    requires i <= |s|
    ensures MatchAt(s, i, [Lit(t1), AnyRun, Lit(t2)], g).Some? <==>
      OccursAt(s, t1, i) && exists b: nat :: i + |t1| <= b && OccursAt(s, t2, b) && NoNewline(s, i + |t1|, b)
  {
    if MatchAt(s, i, [Lit(t1), AnyRun, Lit(t2)], g).Some? {
      var b := PairMatchSound(s, i, t1, t2, g);
    }
    if OccursAt(s, t1, i) && exists b: nat :: i + |t1| <= b && OccursAt(s, t2, b) && NoNewline(s, i + |t1|, b) {
      var b: nat :| i + |t1| <= b && OccursAt(s, t2, b) && NoNewline(s, i + |t1|, b);
      PairMatchComplete(s, i, t1, t2, g, b);
    }
  }

  /** A match of `t1.*t2` at i finds t1 at i and t2 later on its line. */
  lemma PairMatchSound(s: string, i: nat, t1: string, t2: string, g: Option<string>) returns (b: nat)
    requires i <= |s| && MatchAt(s, i, [Lit(t1), AnyRun, Lit(t2)], g).Some?
    ensures OccursAt(s, t1, i) && i + |t1| <= b && OccursAt(s, t2, b) && NoNewline(s, i + |t1|, b)
  {
    assert [Lit(t1), AnyRun, Lit(t2)] == [Lit(t1)] + ([AnyRun] + [Lit(t2)]);
    LitStep(s, i, t1, [AnyRun] + [Lit(t2)], g);
    var j := i + |t1|;
    AnyRunSome(s, j, [Lit(t2)], g);
    var m :| 0 <= m <= RunLen(s, j, Dot) && RunFits(s, j, m, [Lit(t2)], g, false);
    assert Captured(s, j, m, g, false) == g;
    LitAlone(s, j + m, t2, g);
    b := j + m;
  }

  /** t1 at i and t2 at b later on the same line make `t1.*t2` match at i. */
  lemma PairMatchComplete(s: string, i: nat, t1: string, t2: string, g: Option<string>, b: nat)
    requires i <= |s| && OccursAt(s, t1, i) && i + |t1| <= b && OccursAt(s, t2, b) && NoNewline(s, i + |t1|, b)
    ensures MatchAt(s, i, [Lit(t1), AnyRun, Lit(t2)], g).Some?
  {
    assert [Lit(t1), AnyRun, Lit(t2)] == [Lit(t1)] + ([AnyRun] + [Lit(t2)]);
    LitStep(s, i, t1, [AnyRun] + [Lit(t2)], g);
    var j := i + |t1|;
    RunCoversLine(s, j, b);
    LitAlone(s, b, t2, g);
    assert Captured(s, j, b - j, g, false) == g;
    assert RunFits(s, j, b - j, [Lit(t2)], g, false);
    AnyRunSome(s, j, [Lit(t2)], g);
  }

  /** A literal first: it must be at i, then the rest matches after it. */
  lemma LitStep(s: string, i: nat, t: string, rest: Pattern, g: Option<string>)
    requires i <= |s|
    ensures MatchAt(s, i, [Lit(t)] + rest, g) == if OccursAt(s, t, i) then MatchAt(s, i + |t|, rest, g) else None
  {
    var p := [Lit(t)] + rest;
    assert p[0] == Lit(t) && p[1..] == rest;
  }

  /** A lone literal matches at x iff it occurs at x. */
  lemma LitAlone(s: string, x: nat, t: string, g: Option<string>)
    requires x <= |s|
    ensures MatchAt(s, x, [Lit(t)], g).Some? <==> OccursAt(s, t, x)
  {
    LitStep(s, x, t, [], g);
    assert [Lit(t)] + [] == [Lit(t)];
  }

  /** `.*` then the rest matches iff the rest matches after some part of the
      line. */
  lemma AnyRunSome(s: string, j: nat, rest: Pattern, g: Option<string>)
    requires j <= |s|
    ensures MatchAt(s, j, [AnyRun] + rest, g).Some? <==>
      exists m :: 0 <= m <= RunLen(s, j, Dot) && RunFits(s, j, m, rest, g, false)
  {
    var p := [AnyRun] + rest;
    assert p[0] == AnyRun && p[1..] == rest;
    assert MatchAt(s, j, p, g) == TryRuns(s, j, RunLen(s, j, Dot), 0, rest, g, false);
    TryRunsLongest(s, j, RunLen(s, j, Dot), 0, rest, g, false);
  }

  /** `.*` can reach any position before the next newline. */
  lemma {:induction false} RunCoversLine(s: string, j: nat, b: nat)
    requires j <= b <= |s| && NoNewline(s, j, b)
    ensures b - j <= RunLen(s, j, Dot)
    decreases b - j
  {
    if j < b {
      RunCoversLine(s, j + 1, b);
    }
  }

  /** `re.search(t1 + ".*" + t2, s)` finds a match iff t1 and later t2 are
      on one line of s. */
  lemma SearchPair(s: string, t1: string, t2: string)
    ensures Search(s, [Lit(t1), AnyRun, Lit(t2)]).Some? <==> OnOneLine(s, t1, t2)
  {
    var p := [Lit(t1), AnyRun, Lit(t2)];
    SearchFromSome(s, p, 0);
    if Search(s, p).Some? {
      var i :| 0 <= i <= |s| && MatchAt(s, i, p, None).Some?;
      PairMatchAt(s, i, t1, t2, None);
    }
    if OnOneLine(s, t1, t2) {
      var a: nat, b: nat :| OccursAt(s, t1, a) && a + |t1| <= b && OccursAt(s, t2, b) && NoNewline(s, a + |t1|, b);
      PairMatchAt(s, a, t1, t2, None);
    }
  }

  /** The today intent fires iff some line of the lower-cased, stripped query
      has "today" and later "appointments", or "appointments" and later
      "today". A query with the two words on different lines is not a
      today query. */
  lemma TodayIntent(query: string, today: Date)
    ensures var s := Normalize(query);
      ParseQuery(query, today).intent == TodayAppointments <==>
        OnOneLine(s, "today", "appointments") || OnOneLine(s, "appointments", "today")
    ensures ParseQuery(query, today).intent == TodayAppointments ==>
      ParseQuery(query, today).entities == Entities(Some(IsoDate(today)), None, None)
  {
    var s := Normalize(query);
    var P := TodayPatterns;
    FirstMatchSome(s, P);
    SearchPair(s, "today", "appointments");
    SearchPair(s, "appointments", "today");
    assert P[1] == [Lit("today"), AnyRun, Lit("appointments")];
    assert P[2] == [Lit("appointments"), AnyRun, Lit("today")];
    if Search(s, P[0]).Some? {
      assert P[0] == [Lit("show"), AnyRun] + P[1];
      SearchSuffix(s, [Lit("show"), AnyRun], P[1]);
    }
    if Search(s, P[3]).Some? {
      assert P[3] == [Lit("what"), AnyRun] + P[2];
      SearchSuffix(s, [Lit("what"), AnyRun], P[2]);
    }
  }

  // ---------------------------------------------------------------- captures

  /** Whatever group a match brings back is a non-empty run of word
      characters of s, or, when the pattern captures nothing, the group it
      started with. */
  lemma {:induction false} GroupIsWord(s: string, i: nat, p: Pattern, g: Option<string>)
    requires i <= |s| && MatchAt(s, i, p, g).Some?
    ensures (CaptureFree(p) && MatchAt(s, i, p, g).value.group == g) ||
      exists a: nat, b: nat :: WordSpan(s, a, b) && MatchAt(s, i, p, g).value.group == Some(s[a..b])
    decreases |p|
  {
    if p != [] {
      StepMatch(s, i, p, g);
      var j, g' :| StepTo(s, i, p, g, j, g');
      GroupIsWord(s, j, p[1..], g');
      assert CaptureFree(p[1..]) && p[0] != WordCapture ==> CaptureFree(p);
    }
  }

  /** `(\w+)` at the end of a pattern matches at x iff a word character is
      there, and then takes the whole word. */
  lemma WordCaptureAtEnd(s: string, x: nat, g: Option<string>)
    requires x <= |s|
    ensures MatchAt(s, x, [WordCapture], g).Some? <==> x < |s| && IsWord(s[x])
    ensures MatchAt(s, x, [WordCapture], g).Some? ==>
      var h := MatchAt(s, x, [WordCapture], g).value;
      && WordSpan(s, x, h.end) && h.group == Some(s[x..h.end])
      && (h.end == |s| || !IsWord(s[h.end]))
  {
    var p: Pattern := [WordCapture];
    assert p[0] == WordCapture && p[1..] == [];
    var n := RunLen(s, x, Word);
    if n > 0 {
      assert MatchAt(s, x, p, g) == TryRuns(s, x, n, 1, [], g, true);
      assert MatchAt(s, x, p, g) == Some(Hit(x + n, Some(s[x..x + n])));
    }
  }

  /** The group of h is the single word character just before h's end. */
  predicate LastCharGroup(s: string, h: Hit) {
    0 < h.end <= |s| && IsWord(s[h.end - 1]) && h.group == Some([s[h.end - 1]])
  }

  /** s[x] is a word character and no word character follows it on its
      line. */
  predicate LastWordOfLine(s: string, x: nat) {
    x < |s| && IsWord(s[x]) && forall k :: x < k < |s| && NoNewline(s, x + 1, k) ==> !IsWord(s[k])
  }

  /** `.*(\w+)` at the end of a pattern captures exactly one character: the
      greedy `.*` leaves only the last word character of the line. */
  lemma AnyThenWord(s: string, j: nat, g: Option<string>)
    requires j <= |s| && MatchAt(s, j, [AnyRun, WordCapture], g).Some?
    ensures LastCharGroup(s, MatchAt(s, j, [AnyRun, WordCapture], g).value)
    ensures LastWordOfLine(s, MatchAt(s, j, [AnyRun, WordCapture], g).value.end - 1)
  {
    assert [AnyRun] + [WordCapture] == [AnyRun, WordCapture];
    var n := RunLen(s, j, Dot);
    var m := AnyRunNoLater(s, j, [WordCapture], g);
    var h := MatchAt(s, j + m, [WordCapture], g).value;
    if m < n {
      assert s[j + m] != '\n';
      assert NoNewline(s, j + m, j + m + 1);
    }
    LastWordOfRun(s, j, n, m, g, h);
    forall k | j + m < k < |s| && NoNewline(s, j + m + 1, k) ensures !IsWord(s[k]) {
      assert NoNewline(s, j + m, k);
      WordCaptureAtEnd(s, k, g);
    }
  }

  /** `.*` then the rest matches as the rest does after the longest part of
      the line that lets it match. */
  lemma AnyRunFit(s: string, j: nat, rest: Pattern, g: Option<string>) returns (m: nat)
    requires j <= |s|
    ensures m <= RunLen(s, j, Dot)
    ensures MatchAt(s, j, [AnyRun] + rest, g) == MatchAt(s, j + m, rest, g)
    ensures m < RunLen(s, j, Dot) ==> MatchAt(s, j + m + 1, rest, g).None?
  {
    var p := [AnyRun] + rest;
    assert p[0] == AnyRun && p[1..] == rest;
    var n := RunLen(s, j, Dot);
    assert MatchAt(s, j, p, g) == TryRuns(s, j, n, 0, rest, g, false);
    TryRunsAtFitLen(s, j, n, 0, rest, g, false);
    FitLenMaximal(s, j, n, 0, rest, g, false);
    m := FitLen(s, j, n, 0, rest, g, false);
    assert Captured(s, j, m, g, false) == g;
    if m < n {
      assert !RunFits(s, j, m + 1, rest, g, false);
      assert Captured(s, j, m + 1, g, false) == g;
    }
  }

  /** `.*` then the rest matches as the rest does at some point j + m of the
      line, and the rest matches at no later point of that line. */
  lemma AnyRunNoLater(s: string, j: nat, rest: Pattern, g: Option<string>) returns (m: nat)
    requires j <= |s|
    ensures m <= RunLen(s, j, Dot)
    ensures MatchAt(s, j, [AnyRun] + rest, g) == MatchAt(s, j + m, rest, g)
    ensures forall x :: j + m < x <= |s| && NoNewline(s, j + m, x) ==> MatchAt(s, x, rest, g).None?
  {
    var p := [AnyRun] + rest;
    assert p[0] == AnyRun && p[1..] == rest;
    var n := RunLen(s, j, Dot);
    assert MatchAt(s, j, p, g) == TryRuns(s, j, n, 0, rest, g, false);
    TryRunsAtFitLen(s, j, n, 0, rest, g, false);
    FitLenMaximal(s, j, n, 0, rest, g, false);
    m := FitLen(s, j, n, 0, rest, g, false);
    assert Captured(s, j, m, g, false) == g;
    NoFitLater(s, j, m, rest, g);
  }

  /** When no longer part of the line than m lets the rest match, the rest
      matches nowhere after j + m on that line. */
  lemma NoFitLater(s: string, j: nat, m: nat, rest: Pattern, g: Option<string>)
    requires j <= |s| && m <= RunLen(s, j, Dot)
    requires forall m' :: m < m' <= RunLen(s, j, Dot) ==> !RunFits(s, j, m', rest, g, false)
    ensures forall x :: j + m < x <= |s| && NoNewline(s, j + m, x) ==> MatchAt(s, x, rest, g).None?
  {
    var n := RunLen(s, j, Dot);
    forall x | j + m < x <= |s| && NoNewline(s, j + m, x) ensures MatchAt(s, x, rest, g).None? {
      assert j + n == |s| || s[j + n] == '\n';
      assert x <= j + n;
      assert !RunFits(s, j, x - j, rest, g, false);
      assert Captured(s, j, x - j, g, false) == g;
    }
  }

  lemma LastWordOfRun(s: string, j: nat, n: nat, m: nat, g: Option<string>, h: Hit)
    requires j + n <= |s| && m <= n
    requires j + n == |s| || s[j + n] == '\n'
    requires MatchAt(s, j + m, [WordCapture], g) == Some(h)
    requires m < n ==> MatchAt(s, j + m + 1, [WordCapture], g).None?
    ensures LastCharGroup(s, h)
  {
    WordCaptureAtEnd(s, j + m, g);
    assert m < n;
    WordCaptureAtEnd(s, j + m + 1, g);
    assert h.end == j + m + 1;
    assert s[j + m..h.end] == [s[h.end - 1]];
  }

  /** The patient patterns end in `.*(\w+)` after a capture-free prefix. */
  lemma PatientPatternShape(k: nat)
    requires k < |PatientPatterns|
    ensures exists q: Pattern :: CaptureFree(q) && PatientPatterns[k] == q + [AnyRun, WordCapture]
  {
    var q: Pattern := PatientPatterns[k][..3];
    assert PatientPatterns[k] == q + [AnyRun, WordCapture];
  }

  /** What a patient pattern captures is one word character. */
  lemma PatientGroup(s: string)
    requires FirstMatch(s, PatientPatterns).Some?
    ensures LastCharGroup(s, FirstMatch(s, PatientPatterns).value)
    ensures LastWordOfLine(s, FirstMatch(s, PatientPatterns).value.end - 1)
  {
    var h := FirstMatch(s, PatientPatterns).value;
    FirstMatchSome(s, PatientPatterns);
    var k :| 0 <= k < |PatientPatterns| && Search(s, PatientPatterns[k]) == Some(h);
    SearchFromSome(s, PatientPatterns[k], 0);
    var i :| 0 <= i <= |s| && MatchAt(s, i, PatientPatterns[k], None) == Some(h);
    PatientPatternShape(k);
    var q: Pattern :| CaptureFree(q) && PatientPatterns[k] == q + [AnyRun, WordCapture];
    SplitMatch(s, i, q, [AnyRun, WordCapture], None);
    var j, g' :| i <= j <= |s| && MatchAt(s, j, [AnyRun, WordCapture], g') == Some(h) && (CaptureFree(q) ==> g' == None);
    AnyThenWord(s, j, None);
  }

  /** A patient name is always a single character: the last word character
      of the matched line, title-cased (`FindPatientJohn` works one out). */
  lemma PatientNameIsOneCharacter(query: string, today: Date)
    requires ParseQuery(query, today).intent == PatientSearch
    ensures var e := ParseQuery(query, today).entities;
      && e.date.None? && e.doctorName.None? && e.patientName.Some?
      && |e.patientName.value| == 1 && IsWord(e.patientName.value[0]) && !IsLower(e.patientName.value[0])
    ensures exists x: nat :: (LastWordOfLine(Normalize(query), x) &&
      ParseQuery(query, today).entities.patientName == Some([ToUpper(Normalize(query)[x])]))
  {
    var s := Normalize(query);
    var h := FirstMatch(s, PatientPatterns).value;
    PatientGroup(s);
    var c := s[h.end - 1];
    assert GroupTitle(h) == Title([c]);
    assert Title([c]) == [ToUpper(c)];
  }

  // ------------------------------------------------------- `dr\.?\s*(\w+)`

  /** s[x..a] is what `\.?\s*` takes: an optional '.' then whitespace. */
  predicate DrGap(s: string, x: nat, a: nat) {
    x <= a <= |s| && forall k :: x <= k < a ==> IsSpace(s[k]) || (k == x && s[k] == '.')
  }

  /** `dr\.?\s*(\w+)` can match at d: "dr" is there, then the gap, then a
      word character. */
  ghost predicate UsableDr(s: string, d: nat) {
    OccursAt(s, "dr", d) && exists a: nat :: DrGap(s, d + 2, a) && a < |s| && IsWord(s[a])
  }

  /** An optional character: taken when it is there and the rest then
      matches, skipped otherwise. */
  lemma OptStep(s: string, i: nat, c: char, rest: Pattern, g: Option<string>)
    requires i <= |s|
    ensures MatchAt(s, i, [OptChar(c)] + rest, g) ==
      if i < |s| && s[i] == c && MatchAt(s, i + 1, rest, g).Some? then MatchAt(s, i + 1, rest, g) else MatchAt(s, i, rest, g)
  {
    var p := [OptChar(c)] + rest;
    assert p[0] == OptChar(c) && p[1..] == rest;
  }

  /** `\s*` then the rest matches as the rest does after some whitespace. */
  lemma SpaceStep(s: string, x: nat, rest: Pattern, g: Option<string>) returns (y: nat)
    requires x <= |s|
    ensures x <= y <= |s| && forall k :: x <= k < y ==> IsSpace(s[k])
    ensures MatchAt(s, x, [SpaceRun] + rest, g) == MatchAt(s, y, rest, g)
  {
    var p := [SpaceRun] + rest;
    assert p[0] == SpaceRun && p[1..] == rest;
    var n := RunLen(s, x, Space);
    assert MatchAt(s, x, p, g) == TryRuns(s, x, n, 0, rest, g, false);
    TryRunsAtFitLen(s, x, n, 0, rest, g, false);
    y := x + FitLen(s, x, n, 0, rest, g, false);
    assert Captured(s, x, y - x, g, false) == g;
  }

  /** Whitespace up to a word character lets `\s*(\w+)` match. */
  lemma SpaceThenWord(s: string, x: nat, a: nat, g: Option<string>)
    requires x <= a < |s| && IsWord(s[a]) && forall k :: x <= k < a ==> IsSpace(s[k])
    ensures MatchAt(s, x, [SpaceRun, WordCapture], g).Some?
  {
    var p: Pattern := [SpaceRun, WordCapture];
    assert p[0] == SpaceRun && p[1..] == [WordCapture];
    var n := RunLen(s, x, Space);
    assert a - x <= n;
    WordCaptureAtEnd(s, a, g);
    assert Captured(s, x, a - x, g, false) == g;
    assert RunFits(s, x, a - x, [WordCapture], g, false);
    TryRunsLongest(s, x, n, 0, [WordCapture], g, false);
  }

  /** A pattern free of captures hands on the group it was given. */
  lemma CaptureFreeKeeps(s: string, i: nat, t: Pattern, g: Option<string>)
    requires i <= |s| && CaptureFree(t) && MatchAt(s, i, t, g).Some?
    ensures MatchAt(s, i, t, g).value.group == g
  {
    assert t + [] == t;
    SplitMatch(s, i, t, [], g);
  }

  /** A match of `dr\.?\s*(\w+)` followed by a capture-free t at d: "dr" is
      at d, the gap runs from d + 2 to a, and the group is the word s[a..b]
      that the capture took there. */
  lemma DrSound(s: string, d: nat, t: Pattern, g: Option<string>) returns (a: nat, b: nat)
    requires d <= |s| && CaptureFree(t) && MatchAt(s, d, Dr + t, g).Some?
    ensures OccursAt(s, "dr", d) && DrGap(s, d + 2, a) && WordSpan(s, a, b)
    ensures MatchAt(s, d, Dr + t, g).value.group == Some(s[a..b])
    ensures MatchAt(s, a, [WordCapture] + t, g) == MatchAt(s, d, Dr + t, g)
  {
    var h := MatchAt(s, d, Dr + t, g).value;
    var r := [SpaceRun] + ([WordCapture] + t);
    assert Dr + t == [Lit("dr")] + ([OptChar('.')] + r);
    LitStep(s, d, "dr", [OptChar('.')] + r, g);
    var e := d + 2;
    OptStep(s, e, '.', r, g);
    var x := if e < |s| && s[e] == '.' && MatchAt(s, e + 1, r, g).Some? then e + 1 else e;
    assert MatchAt(s, x, r, g) == Some(h);
    a := SpaceStep(s, x, [WordCapture] + t, g);
    assert DrGap(s, e, a);
    var p := [WordCapture] + t;
    assert p[0] == WordCapture && p[1..] == t;
    StepMatch(s, a, p, g);
    var j, g' :| StepTo(s, a, p, g, j, g');
    CaptureFreeKeeps(s, j, t, g');
    b := j;
  }

  /** "dr", the gap and a word character make `dr\.?\s*(\w+)` match. */
  lemma DrComplete(s: string, d: nat, a: nat, g: Option<string>)
    requires d <= |s| && OccursAt(s, "dr", d) && DrGap(s, d + 2, a) && a < |s| && IsWord(s[a])
    ensures MatchAt(s, d, Dr, g).Some?
  {
    var r: Pattern := [SpaceRun, WordCapture];
    assert Dr == [Lit("dr")] + ([OptChar('.')] + r);
    LitStep(s, d, "dr", [OptChar('.')] + r, g);
    var e := d + 2;
    OptStep(s, e, '.', r, g);
    if e < a && s[e] == '.' {
      SpaceThenWord(s, e + 1, a, g);
    } else {
      SpaceThenWord(s, e, a, g);
    }
  }

  /** `dr\.?\s*(\w+)` matches at d iff a usable "dr" is there. */
  lemma DrMatchIff(s: string, d: nat, g: Option<string>)
    requires d <= |s|
    ensures MatchAt(s, d, Dr, g).Some? <==> UsableDr(s, d)
  {
    assert Dr + [] == Dr;
    if MatchAt(s, d, Dr, g).Some? {
      var a, b := DrSound(s, d, [], g);
    }
    if UsableDr(s, d) {
      var a: nat :| DrGap(s, d + 2, a) && a < |s| && IsWord(s[a]);
      DrComplete(s, d, a, g);
    }
  }

  /** Each doctor pattern is a capture-free q, then `dr\.?\s*(\w+)`, then a
      capture-free t. */
  predicate DrShaped(p: Pattern, q: Pattern, t: Pattern) {
    CaptureFree(q) && CaptureFree(t) && p == q + Dr + t
  }

  lemma DoctorPatternShape(k: nat) returns (q: Pattern, t: Pattern, q': Pattern, t': Pattern)
    ensures k < |DoctorPatterns| ==> DrShaped(DoctorPatterns[k], q, t)
    ensures k < |DoctorSchedulePatterns| ==> DrShaped(DoctorSchedulePatterns[k], q', t')
  {
    q, t, q', t' := [], [], [], [];
    if k < |DoctorPatterns| {
      var p := DoctorPatterns[k];
      if k == 2 {
        t := [AnyRun, Lit("appointments")];
      } else {
        q := p[..|p| - 4];
      }
      assert p == q + Dr + t;
    }
    if k < |DoctorSchedulePatterns| {
      var p := DoctorSchedulePatterns[k];
      if k == 1 {
        q' := [Lit("when"), AnyRun];
        t' := [AnyRun, Lit("available")];
      } else {
        q' := p[..|p| - 4];
      }
      assert p == q' + Dr + t';
    }
  }

  /** A doctor name is a non-empty word of the query, title-cased, that
      follows a "dr", an optional '.' and whitespace. */
  lemma DoctorNameIsWord(query: string, today: Date)
    requires ParseQuery(query, today).intent in {DoctorAppointments, DoctorSchedule}
    ensures var s := Normalize(query);
      var e := ParseQuery(query, today).entities;
      && e.patientName.None? && e.doctorName.Some?
      && exists d: nat, a: nat, b: nat :: (OccursAt(s, "dr", d) && DrGap(s, d + 2, a) && WordSpan(s, a, b) &&
           e.doctorName.value == Title(s[a..b]))
  {
    var s := Normalize(query);
    var r := ParseQuery(query, today);
    var pats := if r.intent == DoctorAppointments then DoctorPatterns else DoctorSchedulePatterns;
    var h := FirstMatch(s, pats).value;
    assert r.entities.doctorName == Some(GroupTitle(h));
    FirstMatchSome(s, pats);
    var k :| 0 <= k < |pats| && Search(s, pats[k]) == Some(h);
    var q1, t1, q2, t2 := DoctorPatternShape(k);
    var q, t := if r.intent == DoctorAppointments then q1 else q2, if r.intent == DoctorAppointments then t1 else t2;
    var d, a, b := DrPatternName(s, pats[k], q, t);
    assert GroupTitle(h) == Title(s[a..b]);
  }

  /** What a search for q, `dr\.?\s*(\w+)`, t captures, with q and t free of
      captures: the word after a "dr" and its gap. */
  lemma DrPatternName(s: string, p: Pattern, q: Pattern, t: Pattern) returns (d: nat, a: nat, b: nat)
    requires DrShaped(p, q, t) && Search(s, p).Some?
    ensures OccursAt(s, "dr", d) && DrGap(s, d + 2, a) && WordSpan(s, a, b)
    ensures Search(s, p).value.group == Some(s[a..b])
  {
    var h := Search(s, p).value;
    SearchFromSome(s, p, 0);
    var i :| 0 <= i <= |s| && MatchAt(s, i, p, None) == Some(h);
    assert p == q + (Dr + t);
    SplitMatch(s, i, q, Dr + t, None);
    var g';
    d, g' :| i <= d <= |s| && MatchAt(s, d, Dr + t, g') == Some(h) && (CaptureFree(q) ==> g' == None);
    a, b := DrSound(s, d, t, None);
  }

  /** Every doctor pattern has the capture `(\w+)`. */
  lemma DoctorPatternsCapture(k: nat)
    ensures k < |DoctorPatterns| ==> !CaptureFree(DoctorPatterns[k])
    ensures k < |DoctorSchedulePatterns| ==> !CaptureFree(DoctorSchedulePatterns[k])
  {
    assert DoctorPatterns[0][9] == WordCapture;
    assert DoctorPatterns[1][5] == WordCapture;
    assert DoctorPatterns[2][3] == WordCapture;
    assert DoctorSchedulePatterns[0][9] == WordCapture;
    assert DoctorSchedulePatterns[1][5] == WordCapture;
  }

  // ---------------------------------------------------------------- keywords

  /** `t in s` iff t occurs in s at some position. */
  lemma {:induction false} ContainsIff(s: string, t: string)
    ensures Contains(s, t) <==> exists a :: OccursAt(s, t, a)
    decreases |s|
  {
    if |t| <= |s| {
      if s[..|t|] == t {
        assert OccursAt(s, t, 0);
      } else {
        ContainsIff(s[1..], t);
        if exists a :: OccursAt(s[1..], t, a) {
          var a :| OccursAt(s[1..], t, a);
          assert s[a + 1..a + 1 + |t|] == s[1..][a..a + |t|];
          assert OccursAt(s, t, a + 1);
        }
        if exists a :: OccursAt(s, t, a) {
          var a :| OccursAt(s, t, a);
          assert a != 0;
          assert s[1..][a - 1..a - 1 + |t|] == s[a..a + |t|];
          assert OccursAt(s[1..], t, a - 1);
        }
      }
    }
  }

  /** Every literal of a pattern that matches occurs in the string. */
  lemma {:induction false} MatchLiterals(s: string, i: nat, p: Pattern, g: Option<string>)
    requires i <= |s| && MatchAt(s, i, p, g).Some?
    ensures forall k :: 0 <= k < |p| && p[k].Lit? ==> exists a :: OccursAt(s, p[k].text, a)
    decreases |p|
  {
    if p != [] {
      if p[0].Lit? {
        assert OccursAt(s, p[0].text, i);
      }
      StepMatch(s, i, p, g);
      var j, g' :| StepTo(s, i, p, g, j, g');
      MatchLiterals(s, j, p[1..], g');
      forall k | 1 <= k < |p| && p[k].Lit? ensures exists a :: OccursAt(s, p[k].text, a) {
        assert p[k] == p[1..][k - 1];
      }
    }
  }

  /** The literal at index k of the pattern that a search finds is in s. */
  lemma SearchLiteral(s: string, p: Pattern, k: nat)
    requires Search(s, p).Some? && k < |p| && p[k].Lit?
    ensures Contains(s, p[k].text)
  {
    SearchFromSome(s, p, 0);
    var i :| 0 <= i <= |s| && MatchAt(s, i, p, None).Some?;
    MatchLiterals(s, i, p, None);
    ContainsIff(s, p[k].text);
  }

  /** The pattern of a list that a first-match search picks contains, at
      index at[k], the literal w; then w is in s. */
  lemma FirstMatchLiteral(s: string, pats: seq<Pattern>, at: seq<nat>, w: string)
    requires FirstMatch(s, pats).Some? && |at| == |pats|
    requires forall k :: 0 <= k < |pats| ==> at[k] < |pats[k]| && pats[k][at[k]] == Lit(w)
    ensures Contains(s, w)
  {
    FirstMatchSome(s, pats);
    var k :| 0 <= k < |pats| && Search(s, pats[k]).Some?;
    SearchLiteral(s, pats[k], at[k]);
  }

  /** Each intent needs its keywords in the lower-cased, stripped query:
      "today" and "appointments" for today's appointments, "dr" and
      "appointments" for a doctor's appointments, "patient" for a patient
      search, "appointment" for scheduling and "dr" for a doctor's schedule. */
  lemma IntentKeywords(query: string, today: Date)
    ensures var s := Normalize(query);
      var intent := ParseQuery(query, today).intent;
      && (intent == TodayAppointments ==> Contains(s, "today") && Contains(s, "appointments"))
      && (intent == DoctorAppointments ==> Contains(s, "dr") && Contains(s, "appointments"))
      && (intent == PatientSearch ==> Contains(s, "patient"))
      && (intent == ScheduleAppointment ==> Contains(s, "appointment"))
      && (intent == DoctorSchedule ==> Contains(s, "dr"))
  {
    var s := Normalize(query);
    var intent := ParseQuery(query, today).intent;
    if intent == TodayAppointments {
      TodayKeywords(s);
    } else if intent == DoctorAppointments {
      DoctorKeywords(s);
    } else if intent == PatientSearch {
      FirstMatchLiteral(s, PatientPatterns, [2, 2, 0], "patient");
    } else if intent == ScheduleAppointment {
      FirstMatchLiteral(s, SchedulePatterns, [2, 2, 2], "appointment");
    } else if intent == DoctorSchedule {
      DoctorScheduleKeywords(s);
    }
  }

  lemma TodayKeywords(s: string)
    requires FirstMatch(s, TodayPatterns).Some?
    ensures Contains(s, "today") && Contains(s, "appointments")
  {
    FirstMatchLiteral(s, TodayPatterns, [2, 0, 2, 4], "today");
    FirstMatchLiteral(s, TodayPatterns, [4, 2, 0, 2], "appointments");
  }

  lemma DoctorKeywords(s: string)
    requires FirstMatch(s, DoctorPatterns).Some?
    ensures Contains(s, "dr") && Contains(s, "appointments")
  {
    assert DoctorPatterns[0][6] == Lit("dr") && DoctorPatterns[0][2] == Lit("appointments");
    assert DoctorPatterns[1][2] == Lit("dr") && DoctorPatterns[1][0] == Lit("appointments");
    assert DoctorPatterns[2][0] == Lit("dr") && DoctorPatterns[2][5] == Lit("appointments");
    FirstMatchLiteral(s, DoctorPatterns, [6, 2, 0], "dr");
    FirstMatchLiteral(s, DoctorPatterns, [2, 0, 5], "appointments");
  }

  lemma DoctorScheduleKeywords(s: string)
    requires FirstMatch(s, DoctorSchedulePatterns).Some?
    ensures Contains(s, "dr")
  {
    assert DoctorSchedulePatterns[0][6] == Lit("dr") && DoctorSchedulePatterns[1][2] == Lit("dr");
    FirstMatchLiteral(s, DoctorSchedulePatterns, [6, 2], "dr");
  }


  /** A query that is empty once stripped has no intent and no entities. */
  lemma BlankQueryIsUnknown(query: string, today: Date)
    requires Normalize(query) == ""
    ensures ParseQuery(query, today) == QueryResult(Unknown, NoEntities, query)
  {
    IntentKeywords(query, today);
    var r := ParseQuery(query, today);
    if r.intent != Unknown {
      assert false;
    }
  }

  /** t placed d characters after w agrees with w wherever the two meet. */
  predicate Agree(t: string, w: string, d: int) {
    forall k :: 0 <= k < |t| && 0 <= d + k < |w| ==> t[k] == w[d + k]
  }

  /** Two occurrences in one string agree where they meet. */
  lemma OccurrencesAgree(s: string, t: string, a: nat, w: string, b: nat)
    requires OccursAt(s, t, a) && OccursAt(s, w, b)
    ensures Agree(t, w, a - b)
  {
    forall k | 0 <= k < |t| && 0 <= a - b + k < |w| ensures t[k] == w[a - b + k] {
      assert s[a..a + |t|][k] == s[a + k];
      assert s[b..b + |w|][a - b + k] == s[a + k];
    }
  }

  /** "today" and "appointments" never overlap in a string. */
  lemma TodayAppointmentsApart(s: string, a: nat, b: nat)
    requires OccursAt(s, "today", a) && OccursAt(s, "appointments", b)
    ensures a + 5 <= b || b + 12 <= a
  {
    var t, w := "today", "appointments";
    forall d | -5 < d < 12 ensures !Agree(t, w, d) {
      if d == 6 || d == 10 {
        assert t[1] != w[d + 1];
      } else if d >= 0 {
        assert t[0] != w[d];
      } else if d == -3 {
        assert t[4] != w[1];
      } else {
        assert t[-d] != w[0];
      }
    }
    OccurrencesAgree(s, t, a, w, b);
  }

  /** On a query of one line, a doctor-appointments result never carries
      today's date: "today" with "appointments" on the same line is a
      today query first. The date is tomorrow's when "tomorrow" is there,
      else absent. */
  lemma SingleLineDoctorDate(query: string, today: Date)
    requires '\n' !in Normalize(query)
    requires ParseQuery(query, today).intent == DoctorAppointments
    ensures ParseQuery(query, today).entities.date ==
      if Contains(Normalize(query), "tomorrow") then Some(IsoDate(NextDay(today))) else None
  {
    var s := Normalize(query);
    if Contains(s, "today") {
      IntentKeywords(query, today);
      TodayNearAppointments(s);
      TodayIntent(query, today);
      assert false;
    }
  }

  /** In a string of one line that has both words, "today" and
      "appointments" come one after the other on that line. */
  lemma TodayNearAppointments(s: string)
    requires '\n' !in s && Contains(s, "today") && Contains(s, "appointments")
    ensures OnOneLine(s, "today", "appointments") || OnOneLine(s, "appointments", "today")
  {
    ContainsIff(s, "today");
    ContainsIff(s, "appointments");
    var a :| OccursAt(s, "today", a);
    var b :| OccursAt(s, "appointments", b);
    TodayAppointmentsApart(s, a, b);
    if a + 5 <= b {
      assert NoNewline(s, a + 5, b);
      assert OnOneLine(s, "today", "appointments");
    } else {
      assert NoNewline(s, b + 12, a);
      assert OnOneLine(s, "appointments", "today");
    }
  }

  /** h's group is the word of s from a to h's end, and that word cannot be
      extended to the right. */
  predicate WholeWordGroup(s: string, a: nat, h: Hit) {
    WordSpan(s, a, h.end) && h.group == Some(s[a..h.end]) && (h.end == |s| || !IsWord(s[h.end]))
  }

  /** A pattern that ends in its only capture `(\w+)` captures a word up to
      its last character. */
  lemma EndCaptureWholeWord(s: string, q: Pattern)
    requires CaptureFree(q) && Search(s, q + [WordCapture]).Some?
    ensures exists a: nat :: WholeWordGroup(s, a, Search(s, q + [WordCapture]).value)
  {
    var h := Search(s, q + [WordCapture]).value;
    SearchFromSome(s, q + [WordCapture], 0);
    var i :| 0 <= i <= |s| && MatchAt(s, i, q + [WordCapture], None) == Some(h);
    SplitMatch(s, i, q, [WordCapture], None);
    var j, g' :| i <= j <= |s| && MatchAt(s, j, [WordCapture], g') == Some(h) && (CaptureFree(q) ==> g' == None);
    WordCaptureAtEnd(s, j, g');
    assert WholeWordGroup(s, j, h);
  }

  /** The name `dr\.?\s*(\w+)` takes after the last "dr" of its line from
      which it can match: "dr" at d, the gap up to a, a whole word s[a..b],
      and no usable "dr" later on that line. */
  ghost predicate NameAfterLastDr(s: string, d: nat, a: nat, b: nat) {
    && OccursAt(s, "dr", d) && DrGap(s, d + 2, a) && WordSpan(s, a, b) && (b == |s| || !IsWord(s[b]))
    && forall d': nat :: d < d' <= |s| && NoNewline(s, d, d') ==> !UsableDr(s, d')
  }

  /** When one of the first two doctor patterns (those ending in
      `.*dr\.?\s*(\w+)`) matches, the greedy `.*` passes over every "dr"
      but the last usable one of the line, and the doctor name is the whole
      word after it: "appointments for dr smith at the drugstore" names
      "Ugstore" (`DrugstoreQuery`). */
  lemma DoctorNameWholeWord(query: string, today: Date)
    requires ParseQuery(query, today).intent == DoctorAppointments
    requires Search(Normalize(query), DoctorPatterns[0]).Some? || Search(Normalize(query), DoctorPatterns[1]).Some?
    ensures exists a: nat, b: nat :: (WordSpan(Normalize(query), a, b) &&
      (b == |Normalize(query)| || !IsWord(Normalize(query)[b])) &&
      ParseQuery(query, today).entities.doctorName == Some(Title(Normalize(query)[a..b])))
    ensures exists d: nat, a: nat, b: nat :: (NameAfterLastDr(Normalize(query), d, a, b) &&
      ParseQuery(query, today).entities.doctorName == Some(Title(Normalize(query)[a..b])))
  {
    var s := Normalize(query);
    var k := if Search(s, DoctorPatterns[0]).Some? then 0 else 1;
    var p := DoctorPatterns[k];
    var h := Search(s, p).value;
    assert FirstMatch(s, DoctorPatterns) == Some(h);
    var q := p[..|p| - 5];
    assert p == q + ([AnyRun] + Dr);
    assert CaptureFree(q);
    var d, a, b := LastDrName(s, q);
    assert GroupTitle(h) == Title(s[a..b]);
  }

  /** A search for q, `.*dr\.?\s*(\w+)` with q free of captures takes the
      name after the last usable "dr" of the line. */
  lemma LastDrName(s: string, q: Pattern) returns (d: nat, a: nat, b: nat)
    requires CaptureFree(q) && Search(s, q + ([AnyRun] + Dr)).Some?
    ensures NameAfterLastDr(s, d, a, b) && Search(s, q + ([AnyRun] + Dr)).value.group == Some(s[a..b])
  {
    var h := Search(s, q + ([AnyRun] + Dr)).value;
    d := LastDrMatch(s, q);
    NoLaterDr(s, d);
    assert Dr + [] == Dr && [WordCapture] + [] == [WordCapture];
    var b0;
    a, b0 := DrSound(s, d, [], None);
    WordCaptureAtEnd(s, a, None);
    b := h.end;
    assert WholeWordGroup(s, a, h);
  }

  /** Where the search's `dr\.?\s*(\w+)` matches: at d, and at no later
      point of d's line. */
  lemma LastDrMatch(s: string, q: Pattern) returns (d: nat)
    requires CaptureFree(q) && Search(s, q + ([AnyRun] + Dr)).Some?
    ensures d <= |s| && MatchAt(s, d, Dr, None) == Search(s, q + ([AnyRun] + Dr))
    ensures forall x :: d < x <= |s| && NoNewline(s, d, x) ==> MatchAt(s, x, Dr, None).None?
  {
    var j := SearchThroughPrefix(s, q, [AnyRun] + Dr);
    var m := AnyRunNoLater(s, j, Dr, None);
    d := j + m;
  }

  /** A search for q + t with q free of captures finds a match of t, with
      nothing captured before it. */
  lemma SearchThroughPrefix(s: string, q: Pattern, t: Pattern) returns (j: nat)
    requires CaptureFree(q) && Search(s, q + t).Some?
    ensures j <= |s| && MatchAt(s, j, t, None) == Search(s, q + t)
  {
    var p := q + t;
    var h := Search(s, p).value;
    SearchFromSome(s, p, 0);
    var i :| 0 <= i <= |s| && MatchAt(s, i, p, None) == Some(h);
    SplitMatch(s, i, q, t, None);
    var g';
    j, g' :| i <= j <= |s| && MatchAt(s, j, t, g') == Some(h) && (CaptureFree(q) ==> g' == None);
  }

  /** No match of `dr\.?\s*(\w+)` later on d's line: no usable "dr" there. */
  lemma NoLaterDr(s: string, d: nat)
    requires d <= |s| && forall x :: d < x <= |s| && NoNewline(s, d, x) ==> MatchAt(s, x, Dr, None).None?
    ensures forall d': nat :: d < d' <= |s| && NoNewline(s, d, d') ==> !UsableDr(s, d')
  {
    forall d': nat | d < d' <= |s| && NoNewline(s, d, d') ensures !UsableDr(s, d') {
      DrMatchIff(s, d', None);
    }
  }

  // ------------------------------------------------------- worked examples

  /** A word whose character at index k is nowhere in s is not in s. */
  lemma Lacks(s: string, t: string, k: nat)
    requires k < |t| && forall i :: 0 <= i < |s| ==> s[i] != t[k]
    ensures !Contains(s, t)
  {
    ContainsIff(s, t);
    forall a | 0 <= a <= |s| - |t| ensures !OccursAt(s, t, a) {
      assert s[a..a + |t|][k] == s[a + k];
    }
  }

  /** "find patient john" is a patient search for "N": the greedy `.*`
      leaves `(\w+)` only the final "n". */
  lemma FindPatientJohn(query: string, today: Date)
    requires query == "find patient john"
    ensures ParseQuery(query, today) == QueryResult(PatientSearch, Entities(None, None, Some("N")), query)
  {
    var s := query;
    JohnText(s);
    JohnEnd(s);
    Lacks(s, "today", 4);
    Lacks(s, "dr", 1);
    FindPatientMatches(s);
    PatientIntent(s, today);
    PatientOneLine(s, today);
  }

  /** Without "today" and "dr", a match of the first patient pattern makes
      the query a patient search. */
  lemma PatientIntent(s: string, today: Date)
    requires Normalize(s) == s && !Contains(s, "today") && !Contains(s, "dr")
    requires Search(s, PatientPatterns[0]).Some?
    ensures ParseQuery(s, today).intent == PatientSearch
  {
    IntentKeywords(s, today);
    FirstMatchSome(s, PatientPatterns);
  }

  /** On a one-line query that ends in a word character, a patient search
      names that last character. */
  lemma PatientOneLine(s: string, today: Date)
    requires Normalize(s) == s && ParseQuery(s, today).intent == PatientSearch
    requires |s| > 0 && NoNewline(s, 0, |s|) && IsWord(s[|s| - 1])
    ensures ParseQuery(s, today) == QueryResult(PatientSearch, Entities(None, None, Some([ToUpper(s[|s| - 1])])), s)
  {
    PatientNameIsOneCharacter(s, today);
    var x: nat :| LastWordOfLine(s, x) && ParseQuery(s, today).entities.patientName == Some([ToUpper(s[x])]);
    assert x == |s| - 1;
  }

  lemma JohnText(s: string)
    requires s == "find patient john"
    ensures Normalize(s) == s
    ensures forall i :: 0 <= i < |s| ==> s[i] != 'y' && s[i] != 'r'
  {
    LowerSpec(s);
    assert forall i :: 0 <= i < |s| ==> !IsUpper(s[i]);
    assert Lower(s) == s;
    assert StripLeft(s) == s;
    assert StripRight(s) == s;
  }

  lemma JohnEnd(s: string)
    requires s == "find patient john"
    ensures |s| > 0 && NoNewline(s, 0, |s|) && IsWord(s[|s| - 1]) && [ToUpper(s[|s| - 1])] == "N"
  {
  }

  /** The first patient pattern matches "find patient john" at 0. */
  lemma FindPatientMatches(s: string)
    requires s == "find patient john"
    ensures Search(s, PatientPatterns[0]).Some?
  {
    var r: Pattern := [Lit("patient"), AnyRun, WordCapture];
    JohnFromPatient(s);
    assert s[0..4] == "find";
    LitStep(s, 0, "find", [AnyRun] + r, None);
    assert RunLen(s, 4, Dot) >= 1 && RunFits(s, 4, 1, r, None, false);
    AnyRunSome(s, 4, r, None);
    assert PatientPatterns[0] == [Lit("find")] + ([AnyRun] + r);
    SearchFromSome(s, PatientPatterns[0], 0);
  }

  lemma JohnFromPatient(s: string)
    requires s == "find patient john"
    ensures MatchAt(s, 5, [Lit("patient"), AnyRun, WordCapture], None).Some?
  {
    var tail: Pattern := [AnyRun, WordCapture];
    assert s[5..12] == "patient";
    LitStep(s, 5, "patient", tail, None);
    WordCaptureAtEnd(s, 13, None);
    assert RunLen(s, 12, Dot) >= 1 && RunFits(s, 12, 1, [WordCapture], None, false);
    AnyRunSome(s, 12, [WordCapture], None);
    assert [AnyRun] + [WordCapture] == tail && [Lit("patient")] + tail == [Lit("patient"), AnyRun, WordCapture];
  }

  /** "appointments for dr smith at the drugstore" asks for the appointments
      of "Dr Ugstore", with no date. */
  lemma DrugstoreQuery(query: string, today: Date)
    requires query == "appointments for dr smith at the drugstore"
    ensures ParseQuery(query, today) == QueryResult(DoctorAppointments, Entities(None, Some("Ugstore"), None), query)
  {
    var s := query;
    DrugstoreNormal(s);
    DrugstoreLetters(s);
    Lacks(s, "today", 4);
    Lacks(s, "tomorrow", 7);
    DrugstoreMatches(s);
    DrugstoreIntent(s, today);
    DrugstoreName(s, today);
    DoctorWithoutDate(s, today);
  }

  /** No today pattern can match without "today"; the second doctor pattern
      matches, so the query asks for a doctor's appointments. */
  lemma DrugstoreIntent(s: string, today: Date)
    requires Normalize(s) == s && !Contains(s, "today") && Search(s, DoctorPatterns[1]).Some?
    ensures ParseQuery(s, today).intent == DoctorAppointments
  {
    if FirstMatch(s, TodayPatterns).Some? {
      TodayKeywords(s);
    }
    FirstMatchSome(s, DoctorPatterns);
  }

  /** A doctor query without "today" or "tomorrow" carries no date. */
  lemma DoctorWithoutDate(s: string, today: Date)
    requires Normalize(s) == s && ParseQuery(s, today).intent == DoctorAppointments
    requires !Contains(s, "today") && !Contains(s, "tomorrow")
    ensures ParseQuery(s, today) == QueryResult(DoctorAppointments, Entities(None, ParseQuery(s, today).entities.doctorName, None), s)
  {
  }

  /** The doctor named in the query is "Ugstore". */
  lemma DrugstoreName(s: string, today: Date)
    requires s == "appointments for dr smith at the drugstore"
    requires Normalize(s) == s && ParseQuery(s, today).intent == DoctorAppointments
    requires Search(s, DoctorPatterns[1]).Some?
    ensures ParseQuery(s, today).entities.doctorName == Some("Ugstore")
  {
    DoctorNameWholeWord(s, today);
    var d: nat, a: nat, b: nat :| NameAfterLastDr(s, d, a, b) &&
      ParseQuery(s, today).entities.doctorName == Some(Title(s[a..b]));
    DrugstoreOneLine(s);
    DrugstoreEnd(s);
    DrugstoreTitle(s);
    FinalDrWord(s, 33, d, a, b);
  }

  /** On a one-line string whose last word begins with "dr" at e, followed
      by neither '.' nor a space, and with no 'd' after e, the last usable
      "dr" is that one and its name runs to the end. */
  lemma FinalDrWord(s: string, e: nat, d: nat, a: nat, b: nat)
    requires e + 2 < |s| && NoNewline(s, 0, |s|) && OccursAt(s, "dr", e)
    requires (forall k :: e < k < |s| ==> s[k] != 'd') && !IsSpace(s[e + 2]) && s[e + 2] != '.'
    requires forall k :: e + 2 <= k < |s| ==> IsWord(s[k])
    requires NameAfterLastDr(s, d, a, b)
    ensures d == e && a == e + 2 && b == |s|
  {
    assert DrGap(s, e + 2, e + 2);
    assert UsableDr(s, e);
    assert s[d] == s[d..d + 2][0] == 'd';
  }

  lemma DrugstoreNormal(s: string)
    requires s == "appointments for dr smith at the drugstore"
    ensures Normalize(s) == s
  {
    LowerSpec(s);
    assert forall i :: 0 <= i < |s| ==> !IsUpper(s[i]);
    assert Lower(s) == s;
    assert StripLeft(s) == s;
    assert StripRight(s) == s;
  }

  lemma DrugstoreLetters(s: string)
    requires s == "appointments for dr smith at the drugstore"
    ensures forall i :: 0 <= i < |s| ==> s[i] != 'y' && s[i] != 'w'
  {
  }

  lemma DrugstoreOneLine(s: string)
    requires s == "appointments for dr smith at the drugstore"
    ensures NoNewline(s, 0, |s|)
  {
  }

  lemma DrugstoreEnd(s: string)
    requires s == "appointments for dr smith at the drugstore"
    ensures |s| == 42 && OccursAt(s, "dr", 33) && forall k :: 33 < k < |s| ==> s[k] != 'd'
    ensures !IsSpace(s[35]) && s[35] != '.' && forall k :: 35 <= k < |s| ==> IsWord(s[k])
  {
    assert s[33] == 'd' && s[34] == 'r';
  }

  lemma DrugstoreTitle(s: string)
    requires s == "appointments for dr smith at the drugstore"
    ensures Title(s[35..42]) == "Ugstore"
  {
    assert s[35..42] == "ugstore";
  }

  /** `appointments.*dr\.?\s*(\w+)` matches the query at 0. */
  lemma DrugstoreMatches(s: string)
    requires s == "appointments for dr smith at the drugstore"
    ensures Search(s, DoctorPatterns[1]).Some?
  {
    DrugstoreStart(s);
    DrugstoreFirstDr(s);
    DrugstoreOneLine(s);
    AppointmentsThenDr(s, 17, 20);
  }

  lemma DrugstoreStart(s: string)
    requires s == "appointments for dr smith at the drugstore"
    ensures OccursAt(s, "appointments", 0)
  {
    assert s[..12] == "appointments";
  }

  lemma DrugstoreFirstDr(s: string)
    requires s == "appointments for dr smith at the drugstore"
    ensures OccursAt(s, "dr", 17) && DrGap(s, 19, 20) && 20 < |s| && IsWord(s[20])
  {
    assert s[17] == 'd' && s[18] == 'r' && s[19] == ' ' && s[20] == 's';
  }

  /** "appointments" at the start and a usable "dr" later on its line make
      the second doctor pattern match. */
  lemma AppointmentsThenDr(s: string, d: nat, a: nat)
    requires OccursAt(s, "appointments", 0) && 12 <= d && OccursAt(s, "dr", d) && NoNewline(s, 12, d)
    requires DrGap(s, d + 2, a) && a < |s| && IsWord(s[a])
    ensures Search(s, DoctorPatterns[1]).Some?
  {
    DrComplete(s, d, a, None);
    RunCoversLine(s, 12, d);
    assert RunFits(s, 12, d - 12, Dr, None, false);
    AnyRunSome(s, 12, Dr, None);
    LitStep(s, 0, "appointments", [AnyRun] + Dr, None);
    assert DoctorPatterns[1] == [Lit("appointments")] + ([AnyRun] + Dr);
    SearchFromSome(s, DoctorPatterns[1], 0);
  }
}
