/**
 * The login streak kept on a user's profile: `update_streak` runs on every
 * login. Dates are day numbers (days since some epoch), so "yesterday" is
 * today - 1.
 */
module UserViews {
  import opened Wrappers

  /** The streak fields of a Profile row. */
  class Profile {
    var streakCount: nat
    var lastLoginDate: Option<int>

    /** A profile as get_or_create makes it: no streak, never logged in. */
    constructor ()
      ensures streakCount == 0 && lastLoginDate == None
    {
      streakCount := 0;
      lastLoginDate := None;
    }
  }

  /** The streak after a login on day `today`, given the streak and the last login day before it. */
  function NextStreak(streak: nat, last: Option<int>, today: int): (next: nat)
    ensures next == streak + 1 || next == streak || next == 1
    ensures next <= streak + 1
  {
    if last == Some(today - 1) then streak + 1
    else if last != Some(today) then 1
    else streak
  }

  /** `update_streak`: advance, keep or restart the streak, then record today as the last login. */
  method UpdateStreak(profile: Profile, today: int)
    modifies profile
    ensures profile.streakCount == NextStreak(old(profile.streakCount), old(profile.lastLoginDate), today)
    ensures profile.lastLoginDate == Some(today)
  {
    var yesterday := today - 1;
    if profile.lastLoginDate == Some(yesterday) {
      profile.streakCount := profile.streakCount + 1;
    } else if profile.lastLoginDate != Some(today) {
      profile.streakCount := 1;
    }
    profile.lastLoginDate := Some(today);
  }

  /** The three transitions: yesterday adds one, today keeps, anything else restarts at 1. */
  lemma NextStreakCases(streak: nat, last: Option<int>, today: int)
    ensures last == Some(today - 1) ==> NextStreak(streak, last, today) == streak + 1
    ensures last == Some(today) ==> NextStreak(streak, last, today) == streak
    ensures last.None? ==> NextStreak(streak, last, today) == 1
    ensures last.Some? && (last.value < today - 1 || last.value > today) ==> NextStreak(streak, last, today) == 1
  {
  }

  /** The streak and last login day after logins on `days`, in order. */
  function StreakAfter(streak: nat, last: Option<int>, days: seq<int>): (nat, Option<int>) {
    if days == [] then (streak, last)
    else
      var (s, l) := StreakAfter(streak, last, days[..|days| - 1]);
      (NextStreak(s, l, days[|days| - 1]), Some(days[|days| - 1]))
  }

  /** From a fresh profile, logins on k + 1 consecutive days end with a streak of k + 1. */
  lemma {:induction false} ConsecutiveLogins(d: int, k: nat)
    ensures StreakAfter(0, None, seq(k + 1, i => d + i)) == (k + 1, Some(d + k))
  {
    var days := seq(k + 1, i => d + i);
    if k > 0 {
      ConsecutiveLogins(d, k - 1);
      assert days[..k] == seq(k, i => d + i);
    } else {
      assert days[..0] == [];
    }
  }

  /** A second login on the same day changes nothing. */
  lemma SameDayIdempotent(streak: nat, last: Option<int>, days: seq<int>, today: int)
    ensures StreakAfter(streak, last, days + [today, today]) == StreakAfter(streak, last, days + [today])
  {
    var twice := days + [today, today];
    assert twice[..|twice| - 1] == days + [today];
    assert (days + [today])[..|days|] == days;
  }

  /** From a fresh profile the streak never exceeds the number of logins, and is at least 1 once there was one. */
  lemma {:induction false} StreakBounded(days: seq<int>)
    ensures var (s, l) := StreakAfter(0, None, days);
      s <= |days| && (days != [] ==> 1 <= s && l == Some(days[|days| - 1]))
      && (days == [] ==> s == 0 && l.None?)
  {
    if days != [] {
      StreakBounded(days[..|days| - 1]);
    }
  }
}
