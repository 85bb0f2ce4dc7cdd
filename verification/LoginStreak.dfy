/** The login streak of the dashboard. */
module LoginStreak {
  import opened Wrappers
  import opened Calendar

  datatype Session = Session(createdAt: Option<int>, lastUsedAt: Option<int>)

  function LoginDay(s: Session, now: int): int {
    IstDay(s.createdAt.GetOr(s.lastUsedAt.GetOr(now)))
  }

  function LoginDays(sessions: seq<Session>, now: int): set<int> {
    set i | 0 <= i < |sessions| :: LoginDay(sessions[i], now)
  }

  function InsertDay(d: int, days: seq<int>): seq<int> {
    if days == [] || d > days[0] then [d] + days
    else if d == days[0] then days
    else [days[0]] + InsertDay(d, days[1..])
  }

  /** The different login days, latest first. */
  function UniqueDays(sessions: seq<Session>, now: int): seq<int> {
    if sessions == [] then []
    else InsertDay(LoginDay(sessions[|sessions| - 1], now), UniqueDays(sessions[..|sessions| - 1], now))
  }

  ghost predicate Descending(s: seq<int>) {
    forall i, j :: 0 <= i < j < |s| ==> s[i] > s[j]
  }

  lemma {:induction false} InsertDayMembers(d: int, days: seq<int>)
    ensures forall x :: x in InsertDay(d, days) <==> x == d || x in days
  {
    if days != [] {
      assert days == [days[0]] + days[1..];
      if d < days[0] {
        InsertDayMembers(d, days[1..]);
      }
    }
  }

  lemma {:induction false} InsertDayDescending(d: int, days: seq<int>)
    requires Descending(days)
    ensures Descending(InsertDay(d, days))
  {
    if days != [] && d < days[0] {
      InsertDayDescending(d, days[1..]);
      InsertDayMembers(d, days[1..]);
      var t := InsertDay(d, days[1..]);
      forall j | 0 <= j < |t|
        ensures days[0] > t[j]
      {
        assert t[j] in t;
      }
    }
  }

  lemma {:induction false} UniqueDaysExact(sessions: seq<Session>, now: int)
    ensures Descending(UniqueDays(sessions, now))
    ensures forall d :: d in UniqueDays(sessions, now) <==> d in LoginDays(sessions, now)
  {
    if sessions != [] {
      var rest, last := sessions[..|sessions| - 1], sessions[|sessions| - 1];
      UniqueDaysExact(rest, now);
      InsertDayDescending(LoginDay(last, now), UniqueDays(rest, now));
      InsertDayMembers(LoginDay(last, now), UniqueDays(rest, now));
      assert LoginDays(sessions, now) == LoginDays(rest, now) + {LoginDay(last, now)} by {
        forall d | d in LoginDays(rest, now)
          ensures d in LoginDays(sessions, now)
        {
          var i :| 0 <= i < |rest| && LoginDay(rest[i], now) == d;
          assert sessions[i] == rest[i];
        }
        assert LoginDay(sessions[|sessions| - 1], now) in LoginDays(sessions, now);
      }
    }
  }

  /** The `n` days up to the latest day are all there, and the one before them is not. */
  ghost predicate StreakFrom(days: set<int>, latest: int, n: nat) {
    && latest in days && (forall d :: d in days ==> d <= latest)
    && (forall d :: latest - n < d <= latest ==> d in days)
    && latest - n !in days
  }

  ghost predicate IsStreak(days: set<int>, n: nat) {
    if days == {} then n == 0 else exists latest :: StreakFrom(days, latest, n)
  }

  /** `calculateLoginStreak`: the longest run of consecutive login days that ends with the latest one. */
  method CalculateLoginStreak(sessions: seq<Session>, now: int) returns (streak: nat)
    ensures IsStreak(LoginDays(sessions, now), streak)
  {
    var uniqueDays := UniqueDays(sessions, now);
    UniqueDaysExact(sessions, now);
    ghost var days := LoginDays(sessions, now);
    if uniqueDays == [] {
      assert forall d :: d !in days;
      return 0;
    }
    assert uniqueDays[0] in days;
    streak := 1;
    var previousDate := uniqueDays[0] * DAY_MS;
    var index := 1;
    while index < |uniqueDays|
      invariant 1 <= index <= |uniqueDays| && streak == index
      invariant forall k :: 0 <= k < index ==> uniqueDays[k] == uniqueDays[0] - k
      invariant previousDate == uniqueDays[index - 1] * DAY_MS
    {
      var currentDate := uniqueDays[index] * DAY_MS;
      if previousDate - currentDate != DAY_MS {
        break;
      }
      streak := streak + 1;
      previousDate := currentDate;
      index := index + 1;
    }
    StreakEnds(uniqueDays, streak);
    ListIsStreak(uniqueDays, days, streak);
  }

  lemma ListIsStreak(list: seq<int>, days: set<int>, n: nat)
    requires Descending(list) && 1 <= n <= |list| && forall d :: d in list <==> d in days
    requires forall k :: 0 <= k < n ==> list[k] == list[0] - k
    requires list[0] - n !in list
    ensures IsStreak(days, n)
  {
    forall d | list[0] - n < d <= list[0]
      ensures d in days
    {
      assert list[list[0] - d] == d;
    }
    assert StreakFrom(days, list[0], n);
  }

  /** In a descending list whose first `n` days are consecutive and the next is not, the day before them is missing. */
  lemma StreakEnds(days: seq<int>, n: nat)
    requires Descending(days) && 1 <= n <= |days|
    requires forall k :: 0 <= k < n ==> days[k] == days[0] - k
    requires n < |days| ==> days[n - 1] - days[n] != 1
    ensures days[0] - n !in days
  {
    forall i | 0 <= i < |days|
      ensures days[i] != days[0] - n
    {
      if i >= n {
        assert days[n] <= days[n - 1] - 2;
        assert days[i] <= days[n];
      }
    }
  }

  /** The streak is determined by the set of login days, whatever the order and repetitions of the sessions. */
  lemma StreakUnique(days: set<int>, m: nat, n: nat)
    requires IsStreak(days, m) && IsStreak(days, n)
    ensures m == n
  {
    if days != {} {
      var a :| StreakFrom(days, a, m);
      var b :| StreakFrom(days, b, n);
      assert a == b;
      assert !(a - n < a - m) && !(a - m < a - n);
    }
  }

  /** A session counts for the day it was created; without that, for its last use; without either, for today. */
  lemma LoginDaysExactly(sessions: seq<Session>, now: int, d: int)
    ensures d in LoginDays(sessions, now) <==>
              exists i :: 0 <= i < |sessions| &&
                match (sessions[i].createdAt, sessions[i].lastUsedAt)
                case (Some(t), _) => d == IstDay(t)
                case (None, Some(t)) => d == IstDay(t)
                case (None, None) => d == IstDay(now)
  {
    assert forall i :: 0 <= i < |sessions| ==>
      LoginDay(sessions[i], now) ==
        match (sessions[i].createdAt, sessions[i].lastUsedAt)
        case (Some(t), _) => IstDay(t)
        case (None, Some(t)) => IstDay(t)
        case (None, None) => IstDay(now);
  }
}
