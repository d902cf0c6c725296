/** The validity window of a password and the list filter (src/routes/passwords.rs). */
module Expiry {
  import opened Wrappers
  import opened Schema

  /** One day in clock ticks (nanoseconds). */
  const DAY := 86_400_000_000_000

  /** Whole days in a non-negative span. */
  function NumDays(span: int): int {
    span / DAY
  }

  function DaysRemaining(validSince: int, days: int, now: int): int {
    if now < validSince then days
    else
      var left := days - NumDays(now - validSince);
      if left < 0 then 0 else left
  }

  predicate IsExpired(validSince: int, days: int, now: int) {
    DaysRemaining(validSince, days, now) <= 0
  }

  function Select(rows: seq<Password>, expired: bool, now: int): seq<Password> {
    if rows == [] then []
    else if IsExpired(rows[0].validSince, rows[0].days, now) == expired
    then [rows[0]] + Select(rows[1..], expired, now)
    else Select(rows[1..], expired, now)
  }

  function Skip<T>(s: seq<T>, n: nat): seq<T> {
    if n <= |s| then s[n..] else []
  }

  function Take<T>(s: seq<T>, n: nat): seq<T> {
    if n <= |s| then s[..n] else s
  }

  // ----- what the remaining days mean -----

  function CeilDays(span: int): int {
    -((-span) / DAY)
  }

  function Min(a: int, b: int): int {
    if a < b then a else b
  }

  function Max(a: int, b: int): int {
    if a > b then a else b
  }

  /** The days shown are the days to the end of the window rounded up, never negative and never
      more than the window. */
  lemma RemainingIsCeiling(validSince: int, days: nat, now: int)
    ensures DaysRemaining(validSince, days, now) ==
            DaysLeft(validSince, days, now)
  {
    var span := now - validSince;
    assert -(validSince + days * DAY - now) == span - days * DAY;
    ShiftDays(span, days);
    if span < 0 {
      assert span / DAY <= -1;
    }
  }

  /** The days left of a window, to the end and rounded up, within 0 and the window. */
  function DaysLeft(validSince: int, days: int, now: int): int {
    Min(days, Max(0, CeilDays(validSince + days * DAY - now)))
  }

  /** The window a create asks for: 30 days if none is named, and between 1 and 365. */
  function AskedDays(days: Option<int>): int {
    if days.None? then 30 else Min(365, Max(1, days.value))
  }

  lemma ShiftDays(span: int, days: int)
    ensures (span - days * DAY) / DAY == span / DAY - days
  {
  }

  lemma RemainingNeverRises(validSince: int, days: nat, now: int, later: int)
    requires now <= later
    ensures DaysRemaining(validSince, days, later) <= DaysRemaining(validSince, days, now)
  {
  }

  /** A password is expired exactly from the end of its window on. */
  lemma ExpiredExactlyAtEnd(validSince: int, days: int, now: int)
    requires 1 <= days
    ensures IsExpired(validSince, days, now) <==> now >= validSince + days * (24 * 60 * 60 * 1_000_000_000)
  {
    RemainingIsCeiling(validSince, days, now);
  }

  /** The stamp that every update writes gives the whole window back. */
  lemma UpdateRestoresWindow(days: nat, now: int)
    ensures DaysRemaining(now, days, now) == days
  {
  }

  // ----- the two lists and their pages -----

  lemma {:induction false} ListsPartition(rows: seq<Password>, now: int)
    ensures multiset(Select(rows, true, now)) + multiset(Select(rows, false, now)) == multiset(rows)
  {
    if rows != [] {
      ListsPartition(rows[1..], now);
      assert rows == [rows[0]] + rows[1..];
    }
  }

  /** A list holds only rows of its own kind, and every such row. */
  lemma {:induction false} SelectExact(rows: seq<Password>, expired: bool, now: int)
    ensures forall p | p in Select(rows, expired, now) ::
              p in rows && IsExpired(p.validSince, p.days, now) == expired
    ensures forall p | p in rows && IsExpired(p.validSince, p.days, now) == expired ::
              p in Select(rows, expired, now)
  {
    if rows != [] {
      SelectExact(rows[1..], expired, now);
    }
  }

  /** Pages of one size from a given offset on, up to the first empty one. */
  function PagesFrom<T>(s: seq<T>, size: nat, at: nat): seq<T>
    requires size > 0
    decreases |s| - at
  {
    var page := Take(Skip(s, at), size);
    if page == [] then [] else page + PagesFrom(s, size, at + size)
  }

  lemma {:induction false} PagesAreSuffix<T>(s: seq<T>, size: nat, at: nat)
    requires size > 0
    ensures PagesFrom(s, size, at) == Skip(s, at)
    decreases |s| - at
  {
    if Take(Skip(s, at), size) != [] {
      PagesAreSuffix(s, size, at + size);
      if at + size <= |s| {
        assert s[at..] == s[at..at + size] + s[at + size..];
        assert s[at..][..size] == s[at..at + size];
      }
    }
  }
}
