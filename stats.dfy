/** `computeStats`: minutes read in the last seven days (a rolling window),
    minutes read today (by local calendar day), and the number of
    sessions. The local calendar day of an instant is a parameter
    (`toDateString` depends on the time zone). */
module Stats {
  import opened Library
  import opened Seqs

  /** Seven days in milliseconds, the source's `7*864e5`. */
  const WEEK_MS := 7 * 86400000

  datatype Stats = Stats(min7: int, minToday: int, sessionCount: nat)

  /** `reduce((a, s) => a + s.minutes, 0)`. */
  function SumMinutes(ss: seq<Session>): int
  {
    if ss == [] then 0 else ss[0].minutes + SumMinutes(ss[1..])
  }

  predicate NonNegative(ss: seq<Session>)
  {
    forall i :: 0 <= i < |ss| ==> ss[i].minutes >= 0
  }

  /** Sessions less than seven days before `now`. */
  function LastWeek(sessions: seq<Session>, now: int): seq<Session>
  {
    Filter(sessions, (s: Session) => now - s.at < WEEK_MS)
  }

  /** Sessions on the same local calendar day as `now`. */
  function SameDay(sessions: seq<Session>, now: int, day: int -> string): seq<Session>
  {
    Filter(sessions, (s: Session) => day(s.at) == day(now))
  }

  /** Part of a history of non-negative sessions never adds up to more than
      the whole. */
  lemma {:induction false} FilteredSumBound(ss: seq<Session>, keep: Session -> bool)
    requires NonNegative(ss)
    ensures 0 <= SumMinutes(Filter(ss, keep)) <= SumMinutes(ss)
  {
    if ss != [] {
      FilteredSumBound(ss[1..], keep);
      var rest := Filter(ss[1..], keep);
      if keep(ss[0]) {
        assert Filter(ss, keep) == [ss[0]] + rest;
        assert ([ss[0]] + rest)[1..] == rest;
      } else {
        assert Filter(ss, keep) == rest;
      }
    }
  }

  /** `computeStats()` at instant `now`. */
  function ComputeStats(sessions: seq<Session>, now: int, day: int -> string): (r: Stats)
    ensures r.sessionCount == |sessions|
    ensures NonNegative(sessions) ==>
      0 <= r.min7 <= SumMinutes(sessions) && 0 <= r.minToday <= SumMinutes(sessions)
  {
    var week := LastWeek(sessions, now);
    var today := SameDay(sessions, now, day);
    if NonNegative(sessions) then
      FilteredSumBound(sessions, (s: Session) => now - s.at < WEEK_MS);
      FilteredSumBound(sessions, (s: Session) => day(s.at) == day(now));
      Stats(SumMinutes(week), SumMinutes(today), |sessions|)
    else
      Stats(SumMinutes(week), SumMinutes(today), |sessions|)
  }

  /** A session logged now adds its minutes to both the week and today, and
      one to the count. */
  lemma StatsAfterLog(s: Session, ss: seq<Session>, now: int, day: int -> string)
    requires s.at == now
    ensures var before, after := ComputeStats(ss, now, day), ComputeStats([s] + ss, now, day);
      after == Stats(before.min7 + s.minutes, before.minToday + s.minutes, before.sessionCount + 1)
  {
    var all := [s] + ss;
    assert all[0] == s && all[1..] == ss;
    var w := LastWeek(ss, now);
    assert LastWeek(all, now) == [s] + w;
    assert ([s] + w)[1..] == w;
    var t := SameDay(ss, now, day);
    assert SameDay(all, now, day) == [s] + t;
    assert ([s] + t)[1..] == t;
  }

  /** Three sessions of 10, 15 and 5 minutes today and one of 20 minutes ten
      days ago give 30 minutes this week, 30 today, four sessions. */
  lemma StatsExample(a: Session, b: Session, c: Session, old10: Session, now: int, day: int -> string)
    requires a.at == b.at == c.at == now
    requires a.minutes == 10 && b.minutes == 15 && c.minutes == 5
    requires old10.minutes == 20 && old10.at == now - 10 * 86400000
    requires day(old10.at) != day(now)
    ensures ComputeStats([a, b, c, old10], now, day) == Stats(30, 30, 4)
  {
    OldSessionOnly(old10, now, day);
    var s2 := [c] + [old10];
    StatsAfterLog(c, [old10], now, day);
    var s3 := [b] + s2;
    StatsAfterLog(b, s2, now, day);
    StatsAfterLog(a, s3, now, day);
    HistoryOfFour(a, b, c, old10);
  }

  lemma HistoryOfFour(a: Session, b: Session, c: Session, d: Session)
    ensures [a, b, c, d] == [a] + ([b] + ([c] + [d]))
  {
  }

  /** A single session from ten days ago (and another calendar day) counts
      as a session but adds no minutes to the week or today. */
  lemma OldSessionOnly(old10: Session, now: int, day: int -> string)
    requires old10.at == now - 10 * 86400000
    requires day(old10.at) != day(now)
    ensures ComputeStats([old10], now, day) == Stats(0, 0, 1)
  {
    assert [old10][1..] == [];
    assert LastWeek([old10], now) == [];
    assert SameDay([old10], now, day) == [];
  }
}
