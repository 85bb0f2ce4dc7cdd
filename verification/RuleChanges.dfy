/**
  Which changes to the rule book are accepted, and whose: validity told by its bounds, and
  every operation accepted if and only if it is its owner's and leaves no rival.
 */
module RuleChanges {
  import opened Wrappers
  import opened Calendar
  import opened Availability

  // ---- validity ---------------------------------------------------------------------------------

  /** For some weekday, an hour or more, over two days or more, with 5 to 60 minutes between slots. */
  predicate InBounds(r: Rule) {
    && (exists day :: day in r.days)
    && ToMinutes(r.endTime) - ToMinutes(r.startTime) >= 60
    && DayNumber(r.endDate) - DayNumber(r.startDate) >= 1
    && 5 <= r.bufferTime <= 60 && r.bufferTime < r.slotDuration
  }

  /** At most three breaks, each inside the window, no two at the same time. */
  ghost predicate BreaksInBounds(r: Rule) {
    && |r.breakTimes| <= 3
    && (forall i :: 0 <= i < |r.breakTimes| ==>
          ToMinutes(r.startTime) <= ToMinutes(r.breakTimes[i].startTime)
          < ToMinutes(r.breakTimes[i].endTime) <= ToMinutes(r.endTime))
    && (forall i, j :: 0 <= i < j < |r.breakTimes| ==>
          || ToMinutes(r.breakTimes[i].endTime) <= ToMinutes(r.breakTimes[j].startTime)
          || ToMinutes(r.breakTimes[j].endTime) <= ToMinutes(r.breakTimes[i].startTime))
  }

  /** A rule passes the validation if and only if it is within these bounds. */
  lemma ValidRuleExactly(r: Rule)
    ensures ValidRule(r) <==> InBounds(r) && BreaksInBounds(r)
  {
    BreaksAcceptedExactly(r.breakTimes, r.startTime, r.endTime);
    BreaksBySpans(r);
    ProblemExactly(r);
  }

  lemma ProblemExactly(r: Rule)
    ensures ValidRule(r) <==> InBounds(r) && BreaksError(r.breakTimes, r.startTime, r.endTime).None?
  {
    if r.days != {} {
      var day :| day in r.days;
    }
  }

  lemma BreaksBySpans(r: Rule)
    ensures BreaksInBounds(r) <==>
              && |r.breakTimes| <= 3
              && (forall s :: s in Spans(r.breakTimes) ==>
                    ToMinutes(r.startTime) <= s.start < s.end <= ToMinutes(r.endTime))
              && PairwiseApart(Spans(r.breakTimes))
  {
    var spans := Spans(r.breakTimes);
    forall i | 0 <= i < |spans|
      ensures spans[i] in spans
      ensures spans[i] == Span(ToMinutes(r.breakTimes[i].startTime), ToMinutes(r.breakTimes[i].endTime))
    {
    }
    if BreaksInBounds(r) {
      forall i, j | 0 <= i < j < |spans|
        ensures Availability.Apart(spans[i], spans[j])
      {
      }
    }
    if |r.breakTimes| <= 3 && PairwiseApart(spans) {
      forall i, j | 0 <= i < j < |r.breakTimes|
        ensures || ToMinutes(r.breakTimes[i].endTime) <= ToMinutes(r.breakTimes[j].startTime)
                || ToMinutes(r.breakTimes[j].endTime) <= ToMinutes(r.breakTimes[i].startTime)
      {
        assert Availability.Apart(spans[i], spans[j]);
      }
    }
  }

  /** What a rule that is not valid is told: the first bound it misses, and what is wrong with a break after that. */
  lemma RuleAnswers(r: Rule)
    ensures var e := RuleProblem(r);
            && (e == Some(NoDays) <==> r.days == {})
            && (e == Some(InvalidTimeRange) <==> r.days != {} && ToMinutes(r.startTime) >= ToMinutes(r.endTime))
            && (e == Some(TooShort) <==> r.days != {} && 0 < ToMinutes(r.endTime) - ToMinutes(r.startTime) < 60)
    ensures r.days != {} && ToMinutes(r.endTime) - ToMinutes(r.startTime) >= 60 ==>
              var e := RuleProblem(r);
              && (e == Some(DatesOutOfOrder) <==> DayNumber(r.startDate) >= DayNumber(r.endDate))
              && (DayNumber(r.startDate) < DayNumber(r.endDate) ==>
                    && (e == Some(BufferOutOfRange) <==> r.bufferTime < 5 || r.bufferTime > 60)
                    && (e == Some(BufferTooLong) <==> 5 <= r.bufferTime <= 60 && r.bufferTime >= r.slotDuration))
  {
    SpanErrors(Spans(r.breakTimes), ToMinutes(r.startTime), ToMinutes(r.endTime));
  }

  lemma {:induction false} SpanErrors(s: seq<Span>, lo: nat, hi: nat)
    ensures FirstSpanError(s, lo, hi).None? || FirstSpanError(s, lo, hi).value in {BreakEmpty, BreakOutside}
  {
    if s != [] {
      SpanErrors(s[1..], lo, hi);
    }
  }

  predicate BreakInside(b: Break, lo: int, hi: int) {
    lo <= ToMinutes(b.startTime) < ToMinutes(b.endTime) <= hi
  }

  ghost predicate AllInside(breaks: seq<Break>, lo: int, hi: int) {
    forall i :: 0 <= i < |breaks| ==> BreakInside(breaks[i], lo, hi)
  }

  /** Breaks are too many, or two of them, each inside the window, are at the same time. */
  lemma BreakAnswers(breaks: seq<Break>, startTime: Time, endTime: Time)
    ensures BreaksError(breaks, startTime, endTime) == Some(TooManyBreaks) <==> |breaks| > 3
    ensures BreaksError(breaks, startTime, endTime) == Some(BreaksOverlap) <==>
              && |breaks| <= 3 && AllInside(breaks, ToMinutes(startTime), ToMinutes(endTime))
              && !PairwiseApart(Spans(breaks))
  {
    BreaksAcceptedExactly(breaks, startTime, endTime);
    SpanErrors(Spans(breaks), ToMinutes(startTime), ToMinutes(endTime));
    InsideBySpans(breaks, ToMinutes(startTime), ToMinutes(endTime));
  }

  lemma InsideBySpans(breaks: seq<Break>, lo: nat, hi: nat)
    ensures AllInside(breaks, lo, hi) <==> FirstSpanError(Spans(breaks), lo, hi).None?
  {
    var spans := Spans(breaks);
    NoSpanError(spans, lo, hi);
    if AllInside(breaks, lo, hi) {
      forall s | s in spans
        ensures lo <= s.start < s.end <= hi
      {
        var i :| 0 <= i < |spans| && spans[i] == s;
        assert BreakInside(breaks[i], lo, hi);
      }
    }
    if FirstSpanError(spans, lo, hi).None? {
      forall i | 0 <= i < |breaks|
        ensures BreakInside(breaks[i], lo, hi)
      {
        assert spans[i] in spans;
      }
    }
  }

  /** Otherwise the first break that is empty or outside the window is reported. */
  lemma FirstBadBreak(breaks: seq<Break>, startTime: Time, endTime: Time, i: nat)
    requires i < |breaks| <= 3 && !BreakInside(breaks[i], ToMinutes(startTime), ToMinutes(endTime))
    requires forall j :: 0 <= j < i ==> BreakInside(breaks[j], ToMinutes(startTime), ToMinutes(endTime))
    ensures BreaksError(breaks, startTime, endTime)
         == Some(if ToMinutes(breaks[i].startTime) >= ToMinutes(breaks[i].endTime) then BreakEmpty else BreakOutside)
  {
    FirstErrorAt(Spans(breaks), ToMinutes(startTime), ToMinutes(endTime), i);
  }

  lemma {:induction false} FirstErrorAt(s: seq<Span>, lo: nat, hi: nat, i: nat)
    requires i < |s| && !(lo <= s[i].start < s[i].end <= hi)
    requires forall j :: 0 <= j < i ==> lo <= s[j].start < s[j].end <= hi
    ensures FirstSpanError(s, lo, hi) == Some(if s[i].start >= s[i].end then BreakEmpty else BreakOutside)
  {
    if i > 0 {
      assert lo <= s[0].start < s[0].end <= hi;
      FirstErrorAt(s[1..], lo, hi, i - 1);
    }
  }

  /** Every given field replaces the old one, and an absent one leaves it alone. */
  lemma MergeExactly(r: Rule, u: Update)
    ensures var c := Candidate(r, u);
            && c.mentorId == r.mentorId
            && (if u.days.Some? then u.days == Some(c.days) else c.days == r.days)
            && (if u.startTime.Some? then u.startTime == Some(c.startTime) else c.startTime == r.startTime)
            && (if u.endTime.Some? then u.endTime == Some(c.endTime) else c.endTime == r.endTime)
            && (if u.startDate.Some? then u.startDate == Some(c.startDate) else c.startDate == r.startDate)
            && (if u.endDate.Some? then u.endDate == Some(c.endDate) else c.endDate == r.endDate)
            && (if u.breakTimes.Some? then u.breakTimes == Some(c.breakTimes) else c.breakTimes == r.breakTimes)
            && (if u.slotDuration.Some? then u.slotDuration == Some(c.slotDuration) else c.slotDuration == r.slotDuration)
            && (if u.bufferTime.Some? then u.bufferTime == Some(c.bufferTime) else c.bufferTime == r.bufferTime)
            && (if u.status.Some? then u.status == Some(c.status) else c.status == r.status)
  {
  }

  /** The epoch was a Thursday, and the weekdays follow one another. */
  lemma WeekdaysInTurn(day: int)
    ensures Weekday(0) == Thursday
    ensures match Weekday(day)
            case Sunday => Weekday(day + 1) == Monday
            case Monday => Weekday(day + 1) == Tuesday
            case Tuesday => Weekday(day + 1) == Wednesday
            case Wednesday => Weekday(day + 1) == Thursday
            case Thursday => Weekday(day + 1) == Friday
            case Friday => Weekday(day + 1) == Saturday
            case Saturday => Weekday(day + 1) == Sunday
  {
  }

  // ---- accepted changes -------------------------------------------------------------------------

  /** The other active rules of the mentor that the rule conflicts with. */
  function RivalsOf(rules: Rules, id: RuleId, r: Rule): set<RuleId> {
    set j | j in rules && j != id && rules[j].status && rules[j].mentorId == r.mentorId && Conflict(r, rules[j])
  }

  lemma ConflictsAreRivals(rules: Rules, id: RuleId, r: Rule)
    ensures ConflictsOf(rules, r, ActiveRules(rules, r.mentorId) - {id}) == RivalsOf(rules, id, r)
    ensures id !in rules ==> ConflictsOf(rules, r, ActiveRules(rules, r.mentorId)) == RivalsOf(rules, id, r)
  {
  }

  /** A new rule is stored if and only if it is valid and conflicts with no active rule of its mentor. */
  lemma CreateAcceptedExactly(rules: Rules, id: RuleId, r: Rule)
    requires id !in rules
    ensures CheckedCreate(rules, id, r).1.Accepted? <==> ValidRule(r) && RivalsOf(rules, id, r) == {}
    ensures CheckedCreate(rules, id, r).0
         == if ValidRule(r) && RivalsOf(rules, id, r) == {} then rules[id := r] else rules
  {
    ConflictsAreRivals(rules, id, r);
  }

  /** An update is stored if and only if the rule is the caller's and the merged rule is valid and has no rival. */
  lemma UpdateAcceptedExactly(rules: Rules, mentor: MentorId, id: RuleId, u: Update)
    ensures var accepted := id in rules && rules[id].mentorId == mentor && ValidRule(Candidate(rules[id], u))
                            && RivalsOf(rules, id, Candidate(rules[id], u)) == {};
            && (CheckedUpdate(rules, mentor, id, u).1.Accepted? <==> accepted)
            && CheckedUpdate(rules, mentor, id, u).0
               == if accepted then rules[id := Candidate(rules[id], u)] else rules
  {
    if id in rules && rules[id].mentorId == mentor {
      ConflictsAreRivals(rules, id, Candidate(rules[id], u));
      StoredIsChecked(rules[id], u);
    }
  }

  /** A rule is switched on if and only if it is the caller's and is on already or has no rival. */
  lemma ReenableAcceptedExactly(rules: Rules, mentor: MentorId, id: RuleId)
    ensures var accepted := id in rules && rules[id].mentorId == mentor
                            && (rules[id].status || RivalsOf(rules, id, rules[id]) == {});
            && (CheckedReenable(rules, mentor, id).1.Accepted? <==> accepted)
            && CheckedReenable(rules, mentor, id).0
               == if accepted then rules[id := rules[id].(status := true)] else rules
  {
    if id in rules && rules[id].mentorId == mentor {
      ConflictsAreRivals(rules, id, rules[id]);
      assert rules[id].status ==> rules[id := rules[id].(status := true)] == rules;
    }
  }

  /** What a change that is not accepted is told; conflicts are reported all of them. */
  lemma ChangeAnswers(rules: Rules, mentor: MentorId, id: RuleId, r: Rule, u: Update)
    ensures id !in rules ==>
              CheckedCreate(rules, id, r).1 ==
                if RuleProblem(r).Some? then Invalid(RuleProblem(r).value)
                else if RivalsOf(rules, id, r) != {} then Conflicts(RivalsOf(rules, id, r)) else Accepted(id)
    ensures CheckedUpdate(rules, mentor, id, u).1 ==
              if id !in rules || rules[id].mentorId != mentor then RuleNotFound
              else
                var c := Candidate(rules[id], u);
                if RuleProblem(c).Some? then Invalid(RuleProblem(c).value)
                else if RivalsOf(rules, id, c) != {} then Conflicts(RivalsOf(rules, id, c)) else Accepted(id)
    ensures CheckedReenable(rules, mentor, id).1 ==
              if id !in rules then RuleNotFound
              else if rules[id].mentorId != mentor then Unauthorized
              else if !rules[id].status && RivalsOf(rules, id, rules[id]) != {} then
                Conflicts(RivalsOf(rules, id, rules[id]))
              else Accepted(id)
    ensures Disable(rules, mentor, id).1 ==
              if id !in rules || rules[id].mentorId != mentor then RuleNotFound else Accepted(id)
  {
    ConflictsAreRivals(rules, id, r);
    if id in rules {
      ConflictsAreRivals(rules, id, Candidate(rules[id], u));
      ConflictsAreRivals(rules, id, rules[id]);
    }
  }

  /** The operation comes from the mentor of the rule, or creates it. */
  predicate ByOwner(rules: Rules, op: Op, id: RuleId) {
    match op
    case CreateOp(created, rule) => created == id && id !in rules
    case UpdateOp(mentor, updated, _) => updated == id && id in rules && rules[id].mentorId == mentor
    case ReenableOp(mentor, enabled) => enabled == id && id in rules && rules[id].mentorId == mentor
    case DeleteOp(mentor, disabled) => disabled == id && id in rules && rules[id].mentorId == mentor
  }

  /** The rule is still there, with its mentor, and is the same unless its owner changed it. */
  ghost predicate KeepsRule(rules: Rules, after: Rules, op: Op, id: RuleId)
    requires id in rules
  {
    && id in after && after[id].mentorId == rules[id].mentorId
    && (after[id] != rules[id] ==> ByOwner(rules, op, id))
  }

  lemma UpdateKeepsRule(rules: Rules, mentor: MentorId, updated: RuleId, u: Update, id: RuleId)
    requires id in rules
    ensures KeepsRule(rules, CheckedUpdate(rules, mentor, updated, u).0, UpdateOp(mentor, updated, u), id)
  {
    UpdateAcceptedExactly(rules, mentor, updated, u);
  }

  lemma ReenableKeepsRule(rules: Rules, mentor: MentorId, enabled: RuleId, id: RuleId)
    requires id in rules
    ensures KeepsRule(rules, CheckedReenable(rules, mentor, enabled).0, ReenableOp(mentor, enabled), id)
  {
    ReenableAcceptedExactly(rules, mentor, enabled);
  }

  /** No rule is ever removed or given to another mentor, and only its own mentor changes it. */
  lemma StepByOwner(rules: Rules, op: Op, id: RuleId)
    requires id in rules
    ensures KeepsRule(rules, Step(rules, op), op, id)
  {
    match op
    case CreateOp(created, rule) =>
      if created !in rules {
        CreateAcceptedExactly(rules, created, rule.(status := true));
      }
    case UpdateOp(mentor, updated, u) => UpdateKeepsRule(rules, mentor, updated, u, id);
    case ReenableOp(mentor, enabled) => ReenableKeepsRule(rules, mentor, enabled, id);
    case DeleteOp(_, _) =>
  }

  /** A rule is switched off by its own mentor, whatever its state. */
  lemma DeleteAcceptedExactly(rules: Rules, mentor: MentorId, id: RuleId)
    ensures var accepted := id in rules && rules[id].mentorId == mentor;
            && (Disable(rules, mentor, id).1.Accepted? <==> accepted)
            && Disable(rules, mentor, id).0 == if accepted then rules[id := rules[id].(status := false)] else rules
  {
  }

  /** Over any run every stored rule is within the bounds. */
  lemma RunInBounds(ops: seq<Op>, id: RuleId)
    requires id in Run(ops)
    ensures InBounds(Run(ops)[id]) && BreaksInBounds(Run(ops)[id])
  {
    RunConflictFree(ops);
    ValidRuleExactly(Run(ops)[id]);
  }
}
