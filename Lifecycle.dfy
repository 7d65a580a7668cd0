/**
 * The competition lifecycle: the id of a competition, its expiry, and the
 * "is the competition active" test shared by the reaction handler and the
 * leaderboard loop.
 */
module Lifecycle {
  import opened Wrappers
  import opened Decimal
  import opened Records

  /** Seven days in milliseconds: 7 * 24 * 60 * 60 * 1000. */
  const WeekMs: int := 604800000

  /**
   * The competition is active when the stored id is truthy and it has not
   * ended; it has ended only when `endAt` is truthy and the clock is strictly
   * past it.
   */
  predicate Active(state: Option<State>, now: int) {
    && state.Some?
    && state.value.value != ""
    && !(state.value.endAt != 0 && now > state.value.endAt)
  }

  /**
   * The id of the competition opened in a calendar month: the full year, a
   * dash and the 1-based month, without zero padding (`month` is 0-based, as
   * `Date.getMonth` returns it).
   */
  function CompetitionId(year: int, month: int): (id: string)
    requires 0 <= month < 12
    ensures id != ""
  {
    IntToString(year) + "-" + NatToString(month + 1)
  }

  /** The expiry of a competition opened at `now`. */
  function EndAt(now: int): int {
    now + WeekMs
  }

  /** The position of the last occurrence of `c` in `s`, if any. */
  function LastIndexOf(s: string, c: char): (r: Option<nat>)
    ensures r.None? <==> c !in s
    ensures r.Some? ==> r.value < |s| && s[r.value] == c && c !in s[r.value + 1..]
  {
    if s == [] then None
    else if s[|s| - 1] == c then Some(|s| - 1)
    else
      var r := LastIndexOf(s[..|s| - 1], c);
      assert s == s[..|s| - 1] + [s[|s| - 1]];
      if r.Some? then
        assert s[r.value + 1..] == s[..|s| - 1][r.value + 1..] + [s[|s| - 1]];
        r
      else r
  }

  /** In `a-b` where `b` has no dash, the last dash is the one after `a`. */
  lemma LastDashSplits(a: string, b: string)
    requires '-' !in b
    ensures LastIndexOf(a + "-" + b, '-') == Some(|a|)
  {
    var s := a + "-" + b;
    assert s[|a|] == '-';
    assert s[|a| + 1..] == b;
  }

  /** Reads a competition id back into its year and 0-based month. */
  function ParseCompetitionId(id: string): Option<(int, int)> {
    match LastIndexOf(id, '-')
    case None => None
    case Some(k) =>
      var monthText := id[k + 1..];
      match ParseInt(id[..k])
      case None => None
      case Some(year) =>
        if monthText != "" && AllDigits(monthText) && 1 <= DigitsValue(monthText) <= 12
        then Some((year, DigitsValue(monthText) - 1))
        else None
  }

  /** Every competition id reads back as the month it was derived from. */
  lemma {:induction false} ParseCompetitionIdRoundTrip(year: int, month: int)
    requires 0 <= month < 12
    ensures ParseCompetitionId(CompetitionId(year, month)) == Some((year, month))
  {
    var y, m := IntToString(year), NatToString(month + 1);
    var id := CompetitionId(year, month);
    assert id == y + "-" + m;
    LastDashSplits(y, m);
    assert id[..|y|] == y && id[|y| + 1..] == m;
    ParseIntToString(year);
  }

  /** Distinct calendar months never share a competition id. */
  lemma CompetitionIdInjective(y1: int, m1: int, y2: int, m2: int)
    requires 0 <= m1 < 12 && 0 <= m2 < 12
    requires CompetitionId(y1, m1) == CompetitionId(y2, m2)
    ensures y1 == y2 && m1 == m2
  {
    ParseCompetitionIdRoundTrip(y1, m1);
    ParseCompetitionIdRoundTrip(y2, m2);
  }

  /**
   * A competition opened at a non-negative clock reading is active exactly up
   * to and including the instant `now + WeekMs`.
   */
  lemma OpenedWindow(year: int, month: int, now: int, t: int)
    requires 0 <= month < 12 && now >= 0
    ensures Active(Some(State(CompetitionId(year, month), EndAt(now))), t) <==> t <= now + WeekMs
  {
  }

  /** The expiry instant itself still counts as active. */
  lemma ActiveAtDeadline(s: State)
    requires s.value != ""
    ensures Active(Some(s), s.endAt)
  {
  }

  /** A record without an expiry (read as 0) never ends. */
  lemma ActiveWithoutExpiry(value: string, now: int)
    requires value != ""
    ensures Active(Some(State(value, 0)), now)
  {
  }

  /** Once ended, a competition stays ended as the clock advances. */
  lemma EndedStaysEnded(state: Option<State>, t1: int, t2: int)
    requires t1 <= t2 && Active(state, t2)
    ensures Active(state, t1)
  {
  }
}
