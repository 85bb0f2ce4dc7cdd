/**
  A mentor's weekly availability rules: their validity, the conflict test between two
  rules, and the rule book whose checked operations keep the active rules of a mentor
  free of conflicts.
 */
module Availability {
  import opened Wrappers
  import opened Calendar

  type MentorId = nat
  type UserId = nat
  type RuleId = nat

  type Time = s: string | IsTime(s) witness Midnight()
  type CalendarDate = d: Date | ValidDate(d) witness Date(1970, 1, 1)

  function Midnight(): (s: string)
    ensures IsTime(s)
  {
    ToMinutesToHHMM(0);
    ToHHMM(0)
  }

  /** The clock time of a minute of the day. */
  function Clock(minute: nat): (t: Time)
    requires minute < 1440
    ensures ToMinutes(t) == minute
  {
    ToMinutesToHHMM(minute);
    ToHHMM(minute)
  }

  datatype Day = Sunday | Monday | Tuesday | Wednesday | Thursday | Friday | Saturday

  datatype Break = Break(startTime: Time, endTime: Time)

  datatype Rule = Rule(
    mentorId: MentorId, days: set<Day>, startTime: Time, endTime: Time,
    startDate: CalendarDate, endDate: CalendarDate,
    breakTimes: seq<Break>, slotDuration: nat, bufferTime: int, status: bool)

  // ---- breaks ------------------------------------------------------------------------

  datatype Span = Span(start: nat, end: nat)

  datatype RuleError =
    | NoDays | InvalidTimeRange | TooShort | DatesOutOfOrder | BufferOutOfRange | BufferTooLong
    | TooManyBreaks | BreakEmpty | BreakOutside | BreaksOverlap

  const MAX_BREAKS := 3

  function Spans(breaks: seq<Break>): (r: seq<Span>)
    ensures |r| == |breaks|
  {
    seq(|breaks|, i requires 0 <= i < |breaks| =>
      Span(ToMinutes(breaks[i].startTime), ToMinutes(breaks[i].endTime)))
  }

  function SpanError(s: Span, lo: nat, hi: nat): Option<RuleError> {
    if s.start >= s.end then Some(BreakEmpty)
    else if s.start < lo || s.end > hi then Some(BreakOutside)
    else None
  }

  function FirstSpanError(s: seq<Span>, lo: nat, hi: nat): Option<RuleError> {
    if s == [] then None
    else if SpanError(s[0], lo, hi).Some? then SpanError(s[0], lo, hi)
    else FirstSpanError(s[1..], lo, hi)
  }

  function InsertByStart(x: Span, s: seq<Span>): seq<Span> {
    if s == [] || x.start <= s[0].start then [x] + s else [s[0]] + InsertByStart(x, s[1..])
  }

  /** `parsed.sort((a, b) => a.start - b.start)`. */
  function SortByStart(s: seq<Span>): seq<Span> {
    if s == [] then [] else InsertByStart(s[0], SortByStart(s[1..]))
  }

  predicate OverlapsPrevious(s: seq<Span>, i: nat)
    requires 1 <= i < |s|
  {
    s[i].start < s[i - 1].end
  }

  predicate NeighboursOverlap(s: seq<Span>) {
    exists i :: 1 <= i < |s| && OverlapsPrevious(s, i)
  }

  function BreaksError(breaks: seq<Break>, startTime: Time, endTime: Time): Option<RuleError> {
    var first := FirstSpanError(Spans(breaks), ToMinutes(startTime), ToMinutes(endTime));
    if |breaks| > MAX_BREAKS then Some(TooManyBreaks)
    else if first.Some? then first
    else if NeighboursOverlap(SortByStart(Spans(breaks))) then Some(BreaksOverlap)
    else None
  }

  /** `validateBreaks`: the first problem found, or none. */
  method ValidateBreaks(breaks: seq<Break>, startTime: Time, endTime: Time) returns (r: Option<RuleError>)
    ensures r == BreaksError(breaks, startTime, endTime)
  {
    if |breaks| > MAX_BREAKS {
      return Some(TooManyBreaks);
    }
    var parsed := Spans(breaks);
    var lo, hi := ToMinutes(startTime), ToMinutes(endTime);
    for i := 0 to |parsed|
      invariant FirstSpanError(parsed, lo, hi) == FirstSpanError(parsed[i..], lo, hi)
    {
      var b := parsed[i];
      if b.start >= b.end {
        return Some(BreakEmpty);
      }
      if b.start < lo || b.end > hi {
        return Some(BreakOutside);
      }
    }
    parsed := SortByStart(parsed);
    var i := 1;
    while i < |parsed|
      invariant 1 <= i
      invariant forall j :: 1 <= j < i && j < |parsed| ==> !OverlapsPrevious(parsed, j)
    {
      assert OverlapsPrevious(parsed, i) == (parsed[i].start < parsed[i - 1].end);
      if parsed[i].start < parsed[i - 1].end {
        return Some(BreaksOverlap);
      }
      i := i + 1;
    }
    return None;
  }

  predicate Apart(a: Span, b: Span) {
    a.end <= b.start || b.end <= a.start
  }

  predicate ApartFromAll(x: Span, s: seq<Span>) {
    forall i :: 0 <= i < |s| ==> Apart(x, s[i])
  }

  predicate PairwiseApart(s: seq<Span>) {
    forall i, j :: 0 <= i < j < |s| ==> Apart(s[i], s[j])
  }

  lemma PairwiseApartHead(s: seq<Span>)
    requires s != []
    ensures PairwiseApart(s) <==> ApartFromAll(s[0], s[1..]) && PairwiseApart(s[1..])
  {
    if ApartFromAll(s[0], s[1..]) && PairwiseApart(s[1..]) {
      forall i, j | 0 <= i < j < |s|
        ensures Apart(s[i], s[j])
      {
        assert s[j] == s[1..][j - 1];
        if i > 0 {
          assert s[i] == s[1..][i - 1];
        }
      }
    }
    if PairwiseApart(s) {
      forall i | 0 <= i < |s[1..]|
        ensures Apart(s[0], s[1..][i])
      {
      }
    }
  }

  lemma {:induction false} InsertMembers(x: Span, s: seq<Span>)
    ensures forall y :: y in InsertByStart(x, s) <==> y == x || y in s
  {
    if s != [] && x.start > s[0].start {
      InsertMembers(x, s[1..]);
      assert s == [s[0]] + s[1..];
    }
  }

  lemma ApartMembers(x: Span, s: seq<Span>)
    ensures ApartFromAll(x, s) <==> forall y :: y in s ==> Apart(x, y)
  {
  }

  lemma {:induction false} InsertApart(x: Span, s: seq<Span>)
    ensures PairwiseApart(InsertByStart(x, s)) <==> PairwiseApart(s) && ApartFromAll(x, s)
  {
    var r := InsertByStart(x, s);
    PairwiseApartHead(r);
    if s == [] || x.start <= s[0].start {
      assert r[1..] == s;
    } else {
      var t := InsertByStart(x, s[1..]);
      assert r[1..] == t && s == [s[0]] + s[1..];
      InsertApart(x, s[1..]);
      InsertMembers(x, s[1..]);
      PairwiseApartHead(s);
      ApartMembers(s[0], t);
      ApartMembers(s[0], s[1..]);
      ApartMembers(x, s);
      ApartMembers(x, s[1..]);
      assert ApartFromAll(s[0], t) <==> Apart(s[0], x) && ApartFromAll(s[0], s[1..]);
      assert ApartFromAll(x, s) <==> Apart(x, s[0]) && ApartFromAll(x, s[1..]);
    }
  }

  lemma {:induction false} SortMembers(s: seq<Span>)
    ensures forall y :: y in SortByStart(s) <==> y in s
  {
    if s != [] {
      SortMembers(s[1..]);
      InsertMembers(s[0], SortByStart(s[1..]));
      assert s == [s[0]] + s[1..];
    }
  }

  lemma {:induction false} SortApart(s: seq<Span>)
    ensures PairwiseApart(SortByStart(s)) <==> PairwiseApart(s)
  {
    if s != [] {
      var t := SortByStart(s[1..]);
      SortApart(s[1..]);
      InsertApart(s[0], t);
      SortMembers(s[1..]);
      ApartMembers(s[0], t);
      ApartMembers(s[0], s[1..]);
      PairwiseApartHead(s);
    }
  }

  predicate SortedByStart(s: seq<Span>) {
    forall i, j :: 0 <= i < j < |s| ==> s[i].start <= s[j].start
  }

  lemma {:induction false} InsertSorted(x: Span, s: seq<Span>)
    requires SortedByStart(s)
    ensures SortedByStart(InsertByStart(x, s))
  {
    if s != [] && x.start > s[0].start {
      InsertSorted(x, s[1..]);
      InsertMembers(x, s[1..]);
      var t := InsertByStart(x, s[1..]);
      forall j | 0 <= j < |t|
        ensures s[0].start <= t[j].start
      {
        assert t[j] in t;
        if t[j] != x {
          var k :| 0 <= k < |s[1..]| && s[1..][k] == t[j];
          assert s[k + 1] == t[j];
        }
      }
    }
  }

  lemma {:induction false} SortSorts(s: seq<Span>)
    ensures SortedByStart(SortByStart(s))
  {
    if s != [] {
      SortSorts(s[1..]);
      InsertSorted(s[0], SortByStart(s[1..]));
    }
  }

  /** In a list sorted by start, comparing neighbours is comparing all pairs. */
  lemma {:induction false} NeighboursDecide(s: seq<Span>)
    requires SortedByStart(s) && forall i :: 0 <= i < |s| ==> s[i].start < s[i].end
    ensures NeighboursOverlap(s) <==> !PairwiseApart(s)
  {
    if !NeighboursOverlap(s) {
      forall i, j | 0 <= i < j < |s|
        ensures Apart(s[i], s[j])
      {
        assert !OverlapsPrevious(s, i + 1);
      }
    } else {
      var i :| 1 <= i < |s| && OverlapsPrevious(s, i);
      assert !Apart(s[i - 1], s[i]);
    }
  }

  lemma {:induction false} NoSpanError(s: seq<Span>, lo: nat, hi: nat)
    ensures FirstSpanError(s, lo, hi).None? <==> forall x :: x in s ==> lo <= x.start < x.end <= hi
  {
    if s != [] {
      NoSpanError(s[1..], lo, hi);
      assert s == [s[0]] + s[1..];
    }
  }

  /**
    Breaks are accepted exactly when there are at most three of them, each is a proper
    span inside the window, and no two of them overlap.
   */
  lemma BreaksAcceptedExactly(breaks: seq<Break>, startTime: Time, endTime: Time)
    ensures BreaksError(breaks, startTime, endTime).None? <==>
              && |breaks| <= 3
              && (forall s :: s in Spans(breaks) ==> ToMinutes(startTime) <= s.start < s.end <= ToMinutes(endTime))
              && PairwiseApart(Spans(breaks))
  {
    var spans := Spans(breaks);
    NoSpanError(spans, ToMinutes(startTime), ToMinutes(endTime));
    if FirstSpanError(spans, ToMinutes(startTime), ToMinutes(endTime)).None? {
      SortSorts(spans);
      SortApart(spans);
      SortMembers(spans);
      var sorted := SortByStart(spans);
      forall i | 0 <= i < |sorted|
        ensures sorted[i].start < sorted[i].end
      {
        assert sorted[i] in sorted;
      }
      NeighboursDecide(sorted);
    }
  }

  // ---- rules ---------------------------------------------------------------------------

  function Duration(r: Rule): int {
    ToMinutes(r.endTime) - ToMinutes(r.startTime)
  }

  /** `Availability.create`: the first violated condition, or none. */
  function RuleProblem(r: Rule): Option<RuleError> {
    if r.days == {} then Some(NoDays)
    else if ToMinutes(r.startTime) >= ToMinutes(r.endTime) then Some(InvalidTimeRange)
    else if Duration(r) < 60 then Some(TooShort)
    else if DayNumber(r.startDate) >= DayNumber(r.endDate) then Some(DatesOutOfOrder)
    else if r.bufferTime < 5 || r.bufferTime > 60 then Some(BufferOutOfRange)
    else if r.bufferTime >= r.slotDuration then Some(BufferTooLong)
    else BreaksError(r.breakTimes, r.startTime, r.endTime)
  }

  predicate ValidRule(r: Rule) {
    RuleProblem(r).None?
  }

  /** `isAvailabilityConflict`. */
  predicate Conflict(a: Rule, b: Rule) {
    && DayNumber(a.startDate) <= DayNumber(b.endDate)
    && DayNumber(a.endDate) >= DayNumber(b.startDate)
    && (exists day | day in a.days :: day in b.days)
    && ToMinutes(a.startTime) < ToMinutes(b.endTime)
    && ToMinutes(a.endTime) > ToMinutes(b.startTime)
  }

  function Weekday(dayNumber: int): Day {
    var i := (dayNumber + 4) % 7;
    if i == 0 then Sunday else if i == 1 then Monday else if i == 2 then Tuesday else if i == 3 then Wednesday
    else if i == 4 then Thursday else if i == 5 then Friday else Saturday
  }

  /** The date conditions of `findActiveByMentorIdAndDate`. */
  predicate AppliesOn(r: Rule, dayNumber: int) {
    DayNumber(r.startDate) <= dayNumber <= DayNumber(r.endDate) && Weekday(dayNumber) in r.days
  }

  /** The rule covers that minute of that day. */
  predicate Covers(r: Rule, dayNumber: int, minute: int) {
    AppliesOn(r, dayNumber) && ToMinutes(r.startTime) <= minute < ToMinutes(r.endTime)
  }

  lemma ConflictSymmetric(a: Rule, b: Rule)
    ensures Conflict(a, b) <==> Conflict(b, a)
  {
  }

  /**
    Two rules cover a common minute exactly when they conflict and some day falls under
    both: the test never misses a clash, and is pessimistic only when the common weekday
    does not occur in the common date range.
   */
  lemma ConflictExact(a: Rule, b: Rule)
    requires ToMinutes(a.startTime) < ToMinutes(a.endTime) && ToMinutes(b.startTime) < ToMinutes(b.endTime)
    ensures (exists n, m :: Covers(a, n, m) && Covers(b, n, m))
            <==> Conflict(a, b) && exists n :: AppliesOn(a, n) && AppliesOn(b, n)
  {
    if Conflict(a, b) && exists n :: AppliesOn(a, n) && AppliesOn(b, n) {
      var n :| AppliesOn(a, n) && AppliesOn(b, n);
      var s, t := ToMinutes(a.startTime), ToMinutes(b.startTime);
      var m := if s < t then t else s;
      assert Covers(a, n, m) && Covers(b, n, m);
    }
    if exists n, m :: Covers(a, n, m) && Covers(b, n, m) {
      var n, m :| Covers(a, n, m) && Covers(b, n, m);
      assert Weekday(n) in a.days && Weekday(n) in b.days;
      assert AppliesOn(a, n) && AppliesOn(b, n);
    }
  }

  /** A common date range of at least a week contains every weekday, so there the test is exact. */
  lemma ConflictExactOverAWeek(a: Rule, b: Rule, first: int)
    requires ToMinutes(a.startTime) < ToMinutes(a.endTime) && ToMinutes(b.startTime) < ToMinutes(b.endTime)
    requires DayNumber(a.startDate) <= first && first + 6 <= DayNumber(a.endDate)
    requires DayNumber(b.startDate) <= first && first + 6 <= DayNumber(b.endDate)
    ensures (exists n, m :: Covers(a, n, m) && Covers(b, n, m)) <==> Conflict(a, b)
  {
    ConflictExact(a, b);
    if Conflict(a, b) {
      var day :| day in a.days && day in b.days;
      var n := DayInWeek(day, first);
      assert AppliesOn(a, n) && AppliesOn(b, n);
    }
  }

  function DayIndex(day: Day): (i: nat)
    ensures i < 7
  {
    match day
    case Sunday => 0
    case Monday => 1
    case Tuesday => 2
    case Wednesday => 3
    case Thursday => 4
    case Friday => 5
    case Saturday => 6
  }

  lemma DayInWeek(day: Day, first: int) returns (n: int)
    ensures first <= n <= first + 6 && Weekday(n) == day
  {
    var gap := DayIndex(day) - (first + 4);
    n := first + gap % 7;
    assert n + 4 == DayIndex(day) - 7 * (gap / 7);
    assert (n + 4) % 7 == DayIndex(day);
  }

  // ---- the rule book -----------------------------------------------------------------------

  /** What `CheckAndUpdate` may change; an absent field is left alone. */
  datatype Update = Update(
    days: Option<set<Day>>, startTime: Option<Time>, endTime: Option<Time>,
    startDate: Option<CalendarDate>, endDate: Option<CalendarDate>,
    breakTimes: Option<seq<Break>>, slotDuration: Option<nat>, bufferTime: Option<int>, status: Option<bool>)

  datatype Outcome =
    | Accepted(id: RuleId)
    | Conflicts(with: set<RuleId>)
    | Invalid(error: RuleError)
    | MentorNotFound
    | RuleNotFound
    | Unauthorized

  type Rules = map<RuleId, Rule>

  /** `findByMentorId(mentorId, { status: true })`. */
  function ActiveRules(rules: Rules, mentor: MentorId): set<RuleId> {
    set id | id in rules && rules[id].mentorId == mentor && rules[id].status
  }

  function ConflictsOf(rules: Rules, candidate: Rule, among: set<RuleId>): set<RuleId>
    requires among <= rules.Keys
  {
    set id | id in among && Conflict(candidate, rules[id])
  }

  /** The merged rule that is validated and checked. */
  function Candidate(r: Rule, u: Update): Rule {
    Rule(r.mentorId, u.days.GetOr(r.days), u.startTime.GetOr(r.startTime), u.endTime.GetOr(r.endTime),
         u.startDate.GetOr(r.startDate), u.endDate.GetOr(r.endDate), u.breakTimes.GetOr(r.breakTimes),
         u.slotDuration.GetOr(r.slotDuration), u.bufferTime.GetOr(r.bufferTime), u.status.GetOr(r.status))
  }

  /** The partial overwrite that is stored. */
  function Overwrite(r: Rule, u: Update): Rule {
    Rule(r.mentorId,
         if u.days.Some? then u.days.value else r.days,
         if u.startTime.Some? then u.startTime.value else r.startTime,
         if u.endTime.Some? then u.endTime.value else r.endTime,
         if u.startDate.Some? then u.startDate.value else r.startDate,
         if u.endDate.Some? then u.endDate.value else r.endDate,
         if u.breakTimes.Some? then u.breakTimes.value else r.breakTimes,
         if u.slotDuration.Some? then u.slotDuration.value else r.slotDuration,
         if u.bufferTime.Some? then u.bufferTime.value else r.bufferTime,
         if u.status.Some? then u.status.value else r.status)
  }

  function CheckedCreate(rules: Rules, fresh_id: RuleId, rule: Rule): (Rules, Outcome) {
    var conflicts := ConflictsOf(rules, rule, ActiveRules(rules, rule.mentorId));
    if RuleProblem(rule).Some? then (rules, Invalid(RuleProblem(rule).value))
    else if conflicts != {} then (rules, Conflicts(conflicts))
    else (rules[fresh_id := rule], Accepted(fresh_id))
  }

  function CheckedUpdate(rules: Rules, mentor: MentorId, id: RuleId, u: Update): (Rules, Outcome) {
    if id !in rules || rules[id].mentorId != mentor then (rules, RuleNotFound)
    else
      var candidate := Candidate(rules[id], u);
      var conflicts := ConflictsOf(rules, candidate, ActiveRules(rules, mentor) - {id});
      if RuleProblem(candidate).Some? then (rules, Invalid(RuleProblem(candidate).value))
      else if conflicts != {} then (rules, Conflicts(conflicts))
      else (rules[id := Overwrite(rules[id], u)], Accepted(id))
  }

  function CheckedReenable(rules: Rules, mentor: MentorId, id: RuleId): (Rules, Outcome) {
    if id !in rules then (rules, RuleNotFound)
    else if rules[id].mentorId != mentor then (rules, Unauthorized)
    else if rules[id].status then (rules, Accepted(id))
    else
      var conflicts := ConflictsOf(rules, rules[id], ActiveRules(rules, mentor) - {id});
      if conflicts != {} then (rules, Conflicts(conflicts))
      else (rules[id := rules[id].(status := true)], Accepted(id))
  }

  function Disable(rules: Rules, mentor: MentorId, id: RuleId): (Rules, Outcome) {
    if id !in rules || rules[id].mentorId != mentor then (rules, RuleNotFound)
    else (rules[id := rules[id].(status := false)], Accepted(id))
  }

  /** The rule store behind the checked use cases. */
  class RuleBook {
    var rules: Rules
    var mentorOf: map<UserId, MentorId>

    constructor (mentorOf: map<UserId, MentorId>)
      ensures rules == map[] && this.mentorOf == mentorOf
    {
      rules, this.mentorOf := map[], mentorOf;
    }

    /** `Availability.create`. */
    method Validate(r: Rule) returns (problem: Option<RuleError>)
      ensures problem == RuleProblem(r)
    {
      if r.days == {} {
        return Some(NoDays);
      }
      if !(ToMinutes(r.startTime) < ToMinutes(r.endTime)) {
        return Some(InvalidTimeRange);
      }
      if ToMinutes(r.endTime) - ToMinutes(r.startTime) < 60 {
        return Some(TooShort);
      }
      if DayNumber(r.startDate) >= DayNumber(r.endDate) {
        return Some(DatesOutOfOrder);
      }
      if r.bufferTime < 5 || r.bufferTime > 60 {
        return Some(BufferOutOfRange);
      }
      if r.bufferTime >= r.slotDuration {
        return Some(BufferTooLong);
      }
      problem := ValidateBreaks(r.breakTimes, r.startTime, r.endTime);
    }

    /** `CheckAndCreateAvailabilityUseCase.execute`; the new rule is active and belongs to the caller. */
    method CheckAndCreate(user: UserId, input: Rule, freshId: RuleId) returns (r: Outcome)
      requires freshId !in rules
      modifies this`rules
      ensures user !in mentorOf ==> r == MentorNotFound && rules == old(rules)
      ensures user in mentorOf ==>
                (rules, r) == CheckedCreate(old(rules), freshId, input.(mentorId := mentorOf[user], status := true))
    {
      if user !in mentorOf {
        return MentorNotFound;
      }
      var candidate := input.(mentorId := mentorOf[user], status := true);
      var problem := Validate(candidate);
      if problem.Some? {
        return Invalid(problem.value);
      }
      var existing := ActiveRules(rules, mentorOf[user]);
      var conflicts := ConflictsOf(rules, candidate, existing);
      if conflicts != {} {
        return Conflicts(conflicts);
      }
      rules := rules[freshId := candidate];
      r := Accepted(freshId);
    }

    /** `CheckAndUpdateAvailabilityUseCase.execute`. */
    method CheckAndUpdate(user: UserId, id: RuleId, u: Update) returns (r: Outcome)
      modifies this`rules
      ensures user !in mentorOf ==> r == MentorNotFound && rules == old(rules)
      ensures user in mentorOf ==> (rules, r) == CheckedUpdate(old(rules), mentorOf[user], id, u)
    {
      if user !in mentorOf {
        return MentorNotFound;
      }
      var mentor := mentorOf[user];
      if id !in rules || rules[id].mentorId != mentor {
        return RuleNotFound;
      }
      var candidate := Candidate(rules[id], u);
      var problem := Validate(candidate);
      if problem.Some? {
        return Invalid(problem.value);
      }
      var otherRules := ActiveRules(rules, mentor) - {id};
      var conflicts := ConflictsOf(rules, candidate, otherRules);
      if conflicts != {} {
        return Conflicts(conflicts);
      }
      r := UpdateAvailability(user, id, u);
    }

    /** `UpdateAvailabilityUseCase.execute`. */
    method UpdateAvailability(user: UserId, id: RuleId, u: Update) returns (r: Outcome)
      modifies this`rules
      ensures user in mentorOf && id in old(rules) && old(rules)[id].mentorId == mentorOf[user] ==>
                rules == old(rules)[id := Overwrite(old(rules)[id], u)] && r == Accepted(id)
      ensures !(user in mentorOf && id in old(rules) && old(rules)[id].mentorId == mentorOf[user]) ==>
                rules == old(rules) && (r == MentorNotFound || r == RuleNotFound)
    {
      if user !in mentorOf {
        return MentorNotFound;
      }
      if id !in rules || rules[id].mentorId != mentorOf[user] {
        return RuleNotFound;
      }
      rules := rules[id := Overwrite(rules[id], u)];
      r := Accepted(id);
    }

    /** `CheckAndReenableAvailabilityUseCase.execute`. */
    method CheckAndReenable(user: UserId, id: RuleId) returns (r: Outcome)
      modifies this`rules
      ensures user !in mentorOf ==> r == MentorNotFound && rules == old(rules)
      ensures user in mentorOf ==> (rules, r) == CheckedReenable(old(rules), mentorOf[user], id)
    {
      if user !in mentorOf {
        return MentorNotFound;
      }
      var mentor := mentorOf[user];
      if id !in rules {
        return RuleNotFound;
      }
      if rules[id].mentorId != mentor {
        return Unauthorized;
      }
      if rules[id].status {
        return Accepted(id);
      }
      var others := ActiveRules(rules, mentor) - {id};
      var conflicts := ConflictsOf(rules, rules[id], others);
      if conflicts != {} {
        return Conflicts(conflicts);
      }
      rules := rules[id := rules[id].(status := true)];
      r := Accepted(id);
    }

    /** `DeleteAvailabilityUseCase.execute`: rules are switched off, never removed. */
    method Delete(user: UserId, id: RuleId) returns (r: Outcome)
      modifies this`rules
      ensures user !in mentorOf ==> r == MentorNotFound && rules == old(rules)
      ensures user in mentorOf ==> (rules, r) == Disable(old(rules), mentorOf[user], id)
    {
      if user !in mentorOf {
        return MentorNotFound;
      }
      if id !in rules || rules[id].mentorId != mentorOf[user] {
        return RuleNotFound;
      }
      rules := rules[id := rules[id].(status := false)];
      r := Accepted(id);
    }
  }

  // ---- what every run keeps --------------------------------------------------------------------

  /** Both are active rules of one mentor. */
  predicate Rivals(a: Rule, b: Rule) {
    a.status && b.status && a.mentorId == b.mentorId
  }

  /** No two active rules of a mentor conflict, and every stored rule passed validation. */
  ghost predicate ConflictFree(rules: Rules) {
    && (forall id :: id in rules ==> ValidRule(rules[id]))
    && (forall i, j :: i in rules && j in rules && i != j && Rivals(rules[i], rules[j]) ==>
          !Conflict(rules[i], rules[j]))
  }

  /** The rule that is stored is the rule that was checked. */
  lemma StoredIsChecked(r: Rule, u: Update)
    ensures Overwrite(r, u) == Candidate(r, u)
  {
  }

  datatype Op =
    | CreateOp(id: RuleId, rule: Rule)
    | UpdateOp(mentor: MentorId, id: RuleId, update: Update)
    | ReenableOp(mentor: MentorId, id: RuleId)
    | DeleteOp(mentor: MentorId, id: RuleId)

  /** A creation under an id that is in use is no step (ids are fresh). */
  function Step(rules: Rules, op: Op): Rules {
    match op
    case CreateOp(id, rule) => if id in rules then rules else CheckedCreate(rules, id, rule.(status := true)).0
    case UpdateOp(mentor, id, u) => CheckedUpdate(rules, mentor, id, u).0
    case ReenableOp(mentor, id) => CheckedReenable(rules, mentor, id).0
    case DeleteOp(mentor, id) => Disable(rules, mentor, id).0
  }

  function Run(ops: seq<Op>): Rules {
    if ops == [] then map[] else Step(Run(ops[..|ops| - 1]), ops[|ops| - 1])
  }

  /** Storing a valid rule keeps the book conflict-free when no other active rule of its mentor conflicts. */
  lemma PutKeepsConflictFree(rules: Rules, id: RuleId, r: Rule)
    requires ConflictFree(rules) && ValidRule(r)
    requires r.status ==> ConflictsOf(rules, r, ActiveRules(rules, r.mentorId) - {id}) == {}
    ensures ConflictFree(rules[id := r])
  {
    var after := rules[id := r];
    forall i, j | i in after && j in after && i != j && Rivals(after[i], after[j])
      ensures !Conflict(after[i], after[j])
    {
      PutKeepsPairApart(rules, id, r, i, j);
    }
  }

  lemma PutKeepsPairApart(rules: Rules, id: RuleId, r: Rule, i: RuleId, j: RuleId)
    requires ConflictFree(rules)
    requires r.status ==> ConflictsOf(rules, r, ActiveRules(rules, r.mentorId) - {id}) == {}
    requires var after := rules[id := r]; i in after && j in after && i != j && Rivals(after[i], after[j])
    ensures var after := rules[id := r]; !Conflict(after[i], after[j])
  {
    if i == id {
      NoConflictAmong(rules, id, r, j);
    } else if j == id {
      NoConflictAmong(rules, id, r, i);
    }
  }

  lemma NoConflictAmong(rules: Rules, id: RuleId, r: Rule, j: RuleId)
    requires j in rules && j != id && Rivals(r, rules[j])
    requires ConflictsOf(rules, r, ActiveRules(rules, r.mentorId) - {id}) == {}
    ensures !Conflict(r, rules[j]) && !Conflict(rules[j], r)
  {
    ConflictSymmetric(r, rules[j]);
    assert j !in ConflictsOf(rules, r, ActiveRules(rules, r.mentorId) - {id});
  }

  lemma CreateKeepsConflictFree(rules: Rules, id: RuleId, r: Rule)
    requires ConflictFree(rules) && id !in rules
    ensures ConflictFree(CheckedCreate(rules, id, r).0)
  {
    if CheckedCreate(rules, id, r).1.Accepted? {
      FreshIsInactive(rules, id, r.mentorId);
      PutKeepsConflictFree(rules, id, r);
    }
  }

  lemma FreshIsInactive(rules: Rules, id: RuleId, mentor: MentorId)
    requires id !in rules
    ensures ActiveRules(rules, mentor) - {id} == ActiveRules(rules, mentor)
  {
  }

  lemma UpdateKeepsConflictFree(rules: Rules, mentor: MentorId, id: RuleId, u: Update)
    requires ConflictFree(rules)
    ensures ConflictFree(CheckedUpdate(rules, mentor, id, u).0)
  {
    if CheckedUpdate(rules, mentor, id, u).1.Accepted? {
      StoredIsChecked(rules[id], u);
      var candidate := Candidate(rules[id], u);
      assert candidate.mentorId == mentor;
      PutKeepsConflictFree(rules, id, candidate);
    }
  }

  lemma SetStatusKeepsConflictFree(rules: Rules, id: RuleId, status: bool)
    requires ConflictFree(rules) && id in rules
    requires status ==> ConflictsOf(rules, rules[id], ActiveRules(rules, rules[id].mentorId) - {id}) == {}
    ensures ConflictFree(rules[id := rules[id].(status := status)])
  {
    ValidityIgnoresStatus(rules[id], status);
    PutKeepsConflictFree(rules, id, rules[id].(status := status));
  }

  lemma StepKeepsConflictFree(rules: Rules, op: Op)
    requires ConflictFree(rules)
    ensures ConflictFree(Step(rules, op))
  {
    match op
    case CreateOp(id, rule) =>
      if id !in rules {
        CreateKeepsConflictFree(rules, id, rule.(status := true));
      }
    case UpdateOp(mentor, id, u) =>
      UpdateKeepsConflictFree(rules, mentor, id, u);
    case ReenableOp(mentor, id) =>
      if CheckedReenable(rules, mentor, id).1.Accepted? && !rules[id].status {
        SetStatusKeepsConflictFree(rules, id, true);
      }
    case DeleteOp(mentor, id) =>
      if Disable(rules, mentor, id).1.Accepted? {
        SetStatusKeepsConflictFree(rules, id, false);
      }
  }

  lemma ValidityIgnoresStatus(r: Rule, status: bool)
    ensures ValidRule(r.(status := status)) == ValidRule(r)
    ensures forall other :: Conflict(r.(status := status), other) == Conflict(r, other)
  {
  }

  /** Over any run of checked creates, updates, re-enables and deletes the active rules never conflict. */
  lemma {:induction false} RunConflictFree(ops: seq<Op>)
    ensures ConflictFree(Run(ops))
  {
    if ops != [] {
      RunConflictFree(ops[..|ops| - 1]);
      StepKeepsConflictFree(Run(ops[..|ops| - 1]), ops[|ops| - 1]);
    }
  }

  /** Mondays from 09:00 to 17:00 with a lunch break, throughout January 2026. */
  function OfficeHours(mentor: MentorId): (r: Rule)
    ensures ToMinutes(r.startTime) == 540 && ToMinutes(r.endTime) == 1020
  {
    Rule(mentor, {Monday}, Clock(540), Clock(1020), Date(2026, 1, 1), Date(2026, 1, 31),
         [Break(Clock(780), Clock(840))], 60, 10, true)
  }

  lemma OfficeHoursValid(mentor: MentorId)
    ensures ValidRule(OfficeHours(mentor))
  {
    var r := OfficeHours(mentor);
    OneBreakAccepted(r.breakTimes[0], r.startTime, r.endTime);
    assert r.breakTimes == [r.breakTimes[0]];
  }

  lemma NoBreaksAccepted(startTime: Time, endTime: Time)
    ensures BreaksError([], startTime, endTime).None?
  {
    assert Spans([]) == [];
  }

  lemma OneBreakAccepted(b: Break, startTime: Time, endTime: Time)
    requires ToMinutes(startTime) <= ToMinutes(b.startTime) < ToMinutes(b.endTime) <= ToMinutes(endTime)
    ensures BreaksError([b], startTime, endTime).None?
  {
    var spans := Spans([b]);
    assert spans == [Span(ToMinutes(b.startTime), ToMinutes(b.endTime))];
    BreaksAcceptedExactly([b], startTime, endTime);
    assert forall s :: s in spans ==> s == spans[0];
  }

  lemma StoreFirst(id: RuleId, r: Rule)
    requires ValidRule(r) && r.status
    ensures Run([CreateOp(id, r)]) == map[id := r]
  {
    var op := CreateOp(id, r);
    assert [op][..0] == [];
    assert Run([]) == map[];
    assert ActiveRules(map[], r.mentorId) == {};
    assert CheckedCreate(map[], id, r).1.Accepted?;
  }

  /** A run that stores a rule: the mentor is then open in those hours. */
  lemma OfficeHoursStored(mentor: MentorId, id: RuleId)
    ensures Run([CreateOp(id, OfficeHours(mentor))]) == map[id := OfficeHours(mentor)]
  {
    OfficeHoursValid(mentor);
    StoreFirst(id, OfficeHours(mentor));
  }

  /** So at every moment each minute of each day belongs to at most one active rule of a mentor. */
  lemma RunCoversOnce(ops: seq<Op>, i: RuleId, j: RuleId, dayNumber: int, minute: int)
    requires i in Run(ops) && j in Run(ops) && Rivals(Run(ops)[i], Run(ops)[j])
    requires Covers(Run(ops)[i], dayNumber, minute) && Covers(Run(ops)[j], dayNumber, minute)
    ensures i == j
  {
    RunConflictFree(ops);
    ConflictExact(Run(ops)[i], Run(ops)[j]);
  }
}
