/** Interval strings, their validation, and the loop of a recurring schedule. */
module Scheduler {
  import opened Wrappers

  const LONG_MIN := -0x8000_0000_0000_0000
  const LONG_MAX := 0x7FFF_FFFF_FFFF_FFFF
  const TWO_TO_64 := 0x1_0000_0000_0000_0000

  // ----- interval strings -----------------------------------------------------------------------

  predicate IsDigit(c: char) { '0' <= c <= '9' }

  predicate AllDigits(s: string) { forall k | 0 <= k < |s| :: IsDigit(s[k]) }

  /** The number a string of digits denotes. */
  function ValueOf(s: string): nat
    requires AllDigits(s)
  {
    if s == "" then 0 else 10 * ValueOf(s[..|s| - 1]) + (s[|s| - 1] - '0') as nat
  }

  /** Char.isWhitespace() */
  predicate IsWhitespace(c: char)
  {
    var n := c as int;
    0x09 <= n <= 0x0D || 0x1C <= n <= 0x20 || 0x2000 <= n <= 0x200A
    || n in [0xA0, 0x1680, 0x2028, 0x2029, 0x202F, 0x205F, 0x3000]
  }

  function Trim(s: string): string
  {
    if s != "" && IsWhitespace(s[0]) then Trim(s[1..])
    else if s != "" && IsWhitespace(s[|s| - 1]) then Trim(s[..|s| - 1])
    else s
  }

  /** String.toLongOrNull(), for ASCII digits. */
  function ToLongOrNull(s: string): Option<int>
  {
    var signed := s != "" && (s[0] == '-' || s[0] == '+');
    var digits := if signed then s[1..] else s;
    if digits == "" || !AllDigits(digits) then None
    else
      var n: int := ValueOf(digits);
      var v := if signed && s[0] == '-' then -n else n;
      if LONG_MIN <= v <= LONG_MAX then Some(v) else None
  }

  /** A Long product. */
  function Wrap(x: int): int { (x - LONG_MIN) % TWO_TO_64 + LONG_MIN }

  function UnitOf(suffix: char): Option<int>
  {
    match suffix
    case 's' => Some(1_000)
    case 'm' => Some(60_000)
    case 'h' => Some(3_600_000)
    case 'd' => Some(86_400_000)
    case _ => None
  }

  function ParseInterval(value: string): Option<int>
  {
    var trimmed := Trim(value);
    if trimmed == "" then None
    else
      match (ToLongOrNull(trimmed[..|trimmed| - 1]), UnitOf(trimmed[|trimmed| - 1]))
      case (Some(number), Some(unit)) => Some(Wrap(number * unit))
      case _ => None
  }

  /** validateRecurring: digits, at least one, and one of the four suffixes. */
  predicate ValidRecurring(value: string)
  {
    |value| >= 2 && AllDigits(value[..|value| - 1]) && UnitOf(value[|value| - 1]).Some?
  }

  lemma WrapExact(x: int)
    ensures Wrap(x) == x <==> LONG_MIN <= x <= LONG_MAX
  {
  }

  lemma TrimLeaves(value: string)
    requires ValidRecurring(value)
    ensures Trim(value) == value
  {
    assert IsDigit(value[..|value| - 1][0]);
  }

  /** The validator accepts digits with one of the four suffixes, and nothing else. */
  lemma AcceptedIff(value: string)
    ensures ValidRecurring(value) <==>
            |value| >= 2 && value[|value| - 1] in "smhd" &&
            forall k | 0 <= k < |value| - 1 :: value[k] in "0123456789"
  {
    forall k | 0 <= k < |value|
      ensures IsDigit(value[k]) <==> value[k] in "0123456789"
    {
      DigitIff(value[k]);
    }
    if |value| >= 2 {
      assert forall k | 0 <= k < |value| - 1 :: value[..|value| - 1][k] == value[k];
      assert UnitOf(value[|value| - 1]).Some? <==> value[|value| - 1] in "smhd";
    }
  }

  lemma DigitIff(c: char)
    ensures IsDigit(c) <==> c in "0123456789"
  {
  }

  /** A number as it is written. */
  function Decimal(n: nat): (s: string)
    ensures |s| >= 1
  {
    (if n < 10 then "" else Decimal(n / 10)) + ["0123456789"[n % 10]]
  }

  lemma {:induction false} DecimalIsRead(n: nat)
    ensures AllDigits(Decimal(n)) && ValueOf(Decimal(n)) == n
  {
    var s := Decimal(n);
    assert s[..|s| - 1] == if n < 10 then "" else Decimal(n / 10);
    DigitIs(n % 10);
    if n >= 10 { DecimalIsRead(n / 10); }
  }

  lemma DigitIs(d: nat)
    requires d < 10
    ensures var c := "0123456789"[d]; IsDigit(c) && c - '0' == d as char
  {
  }

  /**
   What the validator accepts, the scheduler reads as digits times unit in milliseconds if and only if
   that fits in 64 bits; otherwise it finds no number at all or a wrapped product.
   */
  lemma {:induction false} AcceptedIntervalIsReadIff(value: string)
    requires ValidRecurring(value)
    ensures var digits := ValueOf(value[..|value| - 1]);
            var unit := match value[|value| - 1]
                        case 's' => 1_000 case 'm' => 60_000 case 'h' => 3_600_000 case _ => 86_400_000;
            (ParseInterval(value) == Some(digits * unit) <==> digits * unit <= 0x7FFF_FFFF_FFFF_FFFF) &&
            ParseInterval(value) == if digits <= 0x7FFF_FFFF_FFFF_FFFF then Some(Wrap(digits * unit)) else None
  {
    TrimLeaves(value);
    var front := value[..|value| - 1];
    assert IsDigit(front[0]);
    var digits, unit := ValueOf(front), UnitOf(value[|value| - 1]).value;
    assert ToLongOrNull(front) == if digits <= LONG_MAX then Some(digits) else None;
    WrapExact(digits * unit);
  }

  function PowerOfTen(k: nat): nat { if k == 0 then 1 else 10 * PowerOfTen(k - 1) }

  lemma {:induction false} OneAndZeros(s: string, k: nat)
    requires s == "1" + seq(k, _ => '0')
    ensures AllDigits(s) && ValueOf(s) == PowerOfTen(k)
  {
    if k == 0 {
      assert s == "1" && s[..0] == "";
    } else {
      assert s[..|s| - 1] == "1" + seq(k - 1, _ => '0');
      OneAndZeros(s[..|s| - 1], k - 1);
    }
  }

  /** So the interval that is written as n of a unit is read as n times that unit, or not at all, or wrapped. */
  lemma {:induction false} WrittenIntervalIsReadIff(n: nat, suffix: char)
    requires suffix in "smhd"
    ensures var unit := match suffix case 's' => 1_000 case 'm' => 60_000 case 'h' => 3_600_000 case _ => 86_400_000;
            ValidRecurring(Decimal(n) + [suffix]) &&
            (ParseInterval(Decimal(n) + [suffix]) == Some(n * unit) <==> n * unit <= 0x7FFF_FFFF_FFFF_FFFF)
  {
    var value := Decimal(n) + [suffix];
    DecimalIsRead(n);
    hide ParseInterval, ValueOf, Decimal;
    assert value[..|value| - 1] == Decimal(n);
    AcceptedIntervalIsReadIff(value);
  }

  /** The scheduler, unlike the validator, also takes a sign. */
  lemma {:induction false} SignedIntervalIsRead(sign: char, n: nat, suffix: char)
    requires sign in "+-" && suffix in "smhd"
    ensures var unit := match suffix case 's' => 1_000 case 'm' => 60_000 case 'h' => 3_600_000 case _ => 86_400_000;
            var t: int := n * unit;
            t <= 0x7FFF_FFFF_FFFF_FFFF ==>
              !ValidRecurring([sign] + Decimal(n) + [suffix]) &&
              ParseInterval([sign] + Decimal(n) + [suffix]) == Some(if sign == '-' then -t else t)
  {
    var front := [sign] + Decimal(n);
    var value := front + [suffix];
    DecimalIsRead(n);
    hide ValueOf, Decimal;
    assert value[..|value| - 1] == front && front[1..] == Decimal(n) && !IsDigit(front[0]);
    assert value[0] == sign && Trim(value) == value;
    var number, unit: int := n as int, UnitOf(suffix).value;
    WrapExact(number * unit);
    WrapExact(-number * unit);
    if number * unit <= LONG_MAX {
      assert ToLongOrNull(front) == Some(if sign == '-' then -number else number);
    }
  }

  lemma {:induction false} Trims(before: string, value: string, after: string)
    requires Trim(value) == value && value != "" && !IsWhitespace(value[0])
    requires (forall c | c in before :: c in " \t\r\n") && (forall c | c in after :: c in " \t\r\n")
    ensures Trim(before + value + after) == value
  {
    var s := before + value + after;
    if before != [] {
      assert before[0] in before && s[0] == before[0] && s[1..] == before[1..] + value + after;
      Trims(before[1..], value, after);
    } else if after != [] {
      var front, last := after[..|after| - 1], after[|after| - 1];
      assert last in after && s[0] == value[0] && s[|s| - 1] == last && s[..|s| - 1] == before + value + front;
      Trims(before, value, front);
    } else {
      assert s == value;
    }
  }

  /** Spaces, tabs and line ends around an interval make no difference. */
  lemma {:induction false} PaddingIsTrimmed(before: string, value: string, after: string)
    requires ValidRecurring(value)
    requires (forall c | c in before :: c in " \t\r\n") && (forall c | c in after :: c in " \t\r\n")
    ensures ParseInterval(before + value + after) == ParseInterval(value)
  {
    TrimLeaves(value);
    assert IsDigit(value[..|value| - 1][0]);
    Trims(before, value, after);
  }

  /** An accepted interval can wrap to a negative one. */
  lemma AcceptedIntervalCanBeNegative()
    ensures ValidRecurring("1000000000000d") && ParseInterval("1000000000000d") == Some(-5833720368547758080)
  {
    hide ParseInterval, ValueOf, AllDigits;
    var value, front := "1000000000000d", "1000000000000";
    assert value[..|value| - 1] == front;
    assert front == "1" + seq(12, _ => '0');
    OneAndZeros(front, 12);
    assert PowerOfTen(12) == 1_000_000_000_000;
    AcceptedIntervalIsReadIff(value);
  }

  // ----- the loop of a recurring schedule -------------------------------------------------------

  datatype Expiry = Never | At(instant: int) | Malformed

  datatype Status = DONE | ERROR

  /** A wake-up of the loop: the clock when the delay is over, and whether a fire at this point displays. */
  datatype Tick = Tick(now: int, displays: bool)

  datatype Schedule = Schedule(expiry: Expiry, maxRuns: Option<int>)

  /** checkExpiry */
  predicate Expired(e: Expiry, now: int)
  {
    e.Malformed? || (e.At? && now > e.instant)
  }

  /** How many of the ticks displayed. */
  function Displayed(ticks: seq<Tick>): nat
  {
    if ticks == [] then 0 else Displayed(ticks[..|ticks| - 1]) + if ticks[|ticks| - 1].displays then 1 else 0
  }

  predicate Exhausted(s: Schedule, runs: nat) { s.maxRuns.Some? && runs >= s.maxRuns.value }

  /** The loop fires at the first n ticks: at none of these, but at the next if there is one, it has to stop. */
  ghost predicate FiresFirst(s: Schedule, ticks: seq<Tick>, n: nat)
  {
    n <= |ticks| &&
    (forall i | 0 <= i < n :: !Expired(s.expiry, ticks[i].now) && !Exhausted(s, Displayed(ticks[..i]))) &&
    (n < |ticks| ==> Expired(s.expiry, ticks[n].now) || Exhausted(s, Displayed(ticks[..n])))
  }

  /**
   launchRecurring, woken up as the ticks say and cancelled when they run out: in a delay, which throws, or,
   if `inFire`, in the last fire, after which the loop ends and tries to set DONE; `goesThrough` tells
   whether that update succeeds in a cancelled coroutine.  `statuses` are the updates of the schedule's row.
   */
  method LaunchRecurring(s: Schedule, ticks: seq<Tick>, inFire: bool, goesThrough: bool)
    returns (fires: nat, runs: nat, statuses: seq<Status>)
    ensures FiresFirst(s, ticks, fires)
    ensures runs == Displayed(ticks[..fires])
    ensures s.maxRuns == None ==>
              match s.expiry
              case Never => fires == |ticks|
              case At(t) => (forall i | 0 <= i < fires :: ticks[i].now <= t) &&
                            (fires < |ticks| ==> ticks[fires].now > t)
              case Malformed => fires == 0
    ensures statuses == if fires < |ticks| then (if s.expiry.Malformed? then [ERROR, DONE] else [DONE])
                        else if ticks != [] && inFire && goesThrough then [DONE] else []
  {
    fires, runs, statuses := 0, 0, [];
    while fires < |ticks|
      invariant fires <= |ticks| && runs == Displayed(ticks[..fires]) && statuses == []
      invariant forall i | 0 <= i < fires :: !Expired(s.expiry, ticks[i].now) && !Exhausted(s, Displayed(ticks[..i]))
    {
      if s.expiry.Malformed? { statuses := statuses + [ERROR]; }
      if Expired(s.expiry, ticks[fires].now) { break; }
      if Exhausted(s, runs) { break; }
      assert ticks[..fires + 1][..fires] == ticks[..fires];
      if ticks[fires].displays { runs := runs + 1; }
      fires := fires + 1;
    }
    if fires < |ticks| || (ticks != [] && inFire && goesThrough) { statuses := statuses + [DONE]; }
    if s.maxRuns == None { FiresUpToExpiry(s, ticks, fires); }
  }

  /**
   Without a limit on its runs a schedule fires at every tick if it does not expire; if it expires, at every
   tick up to the first whose clock is past the instant; and never if the expiry cannot be read.
   */
  lemma {:induction false} FiresUpToExpiry(s: Schedule, ticks: seq<Tick>, n: nat)
    requires FiresFirst(s, ticks, n) && s.maxRuns == None
    ensures match s.expiry
            case Never => n == |ticks|
            case At(t) => n <= |ticks| && (forall i | 0 <= i < n :: ticks[i].now <= t) &&
                          (n < |ticks| ==> ticks[n].now > t)
            case Malformed => n == 0
  {
    if n > 0 { assert !Expired(s.expiry, ticks[0].now); }
  }

  /** With a limit on its runs, it fires at a tick as long as fewer fires than that have displayed before. */
  lemma {:induction false} FiresUpToMaxRuns(s: Schedule, ticks: seq<Tick>, n: nat, i: nat)
    requires FiresFirst(s, ticks, n) && s.expiry == Never && s.maxRuns.Some? && i <= n && i < |ticks|
    ensures i < n <==> |set k | 0 <= k < i && ticks[k].displays| < s.maxRuns.value
  {
    DisplayedIs(ticks, i);
    assert i == n ==> Exhausted(s, Displayed(ticks[..i]));
    assert i < n ==> !Exhausted(s, Displayed(ticks[..i]));
  }

  lemma {:induction false} DisplayedIs(ticks: seq<Tick>, n: nat)
    requires n <= |ticks|
    ensures Displayed(ticks[..n]) == |set k | 0 <= k < n && ticks[k].displays|
  {
    var displayed := set k | 0 <= k < n && ticks[k].displays;
    if n == 0 {
      assert displayed == {};
    } else {
      DisplayedIs(ticks, n - 1);
      assert ticks[..n][..n - 1] == ticks[..n - 1];
      hide Displayed;
      OneMoreTick(ticks, n - 1);
    }
  }

  lemma OneMoreTick(ticks: seq<Tick>, n: nat)
    requires n < |ticks|
    ensures |set k | 0 <= k < n + 1 && ticks[k].displays|
         == |set k | 0 <= k < n && ticks[k].displays| + if ticks[n].displays then 1 else 0
  {
    var before, after := set k | 0 <= k < n && ticks[k].displays, set k | 0 <= k < n + 1 && ticks[k].displays;
    if ticks[n].displays {
      assert after == before + {n};
    } else {
      assert after == before;
    }
  }

  /** Every fire is skipped or fails, and none comes after the expiry. */
  predicate OnlySkips(s: Schedule, ticks: seq<Tick>)
  {
    forall i | 0 <= i < |ticks| :: !Expired(s.expiry, ticks[i].now) && !ticks[i].displays
  }

  /** Displayed fires never exceed maxRuns; skipped and failed ones do not count against it. */
  lemma {:induction false} DisplaysWithinMaxRuns(s: Schedule, ticks: seq<Tick>, n: nat)
    requires FiresFirst(s, ticks, n) && s.maxRuns.Some?
    ensures Displayed(ticks[..n]) <= if s.maxRuns.value > 0 then s.maxRuns.value else 0
    ensures s.maxRuns.value > 0 && OnlySkips(s, ticks) ==> n == |ticks|
  {
    if n > 0 {
      assert ticks[..n][..n - 1] == ticks[..n - 1];
      assert !Exhausted(s, Displayed(ticks[..n - 1]));
    }
    if OnlySkips(s, ticks) {
      NoDisplays(ticks[..n]);
    }
  }

  lemma {:induction false} NoDisplays(ticks: seq<Tick>)
    requires forall i | 0 <= i < |ticks| :: !ticks[i].displays
    ensures Displayed(ticks) == 0
  {
    if ticks != [] { NoDisplays(ticks[..|ticks| - 1]); }
  }

  /** The clock when the delay before tick i begins. */
  function DelayBegins(ticks: seq<Tick>, start: int, i: nat): int
    requires i <= |ticks|
  {
    if i == 0 then start else ticks[i - 1].now
  }

  /** Every delay lasts at least the interval, on a clock that never goes back; a negative delay is none at all. */
  ghost predicate Clock(ticks: seq<Tick>, start: int, interval: int)
  {
    forall i | 0 <= i < |ticks| ::
      ticks[i].now >= DelayBegins(ticks, start, i) + if interval > 0 then interval else 0
  }

  lemma {:induction false} TickTime(ticks: seq<Tick>, start: int, interval: int, i: nat)
    requires Clock(ticks, start, interval) && interval > 0 && i < |ticks|
    ensures ticks[i].now >= start + (i + 1) * interval
  {
    assert ticks[i].now >= DelayBegins(ticks, start, i) + interval;
    if i > 0 {
      TickTime(ticks, start, interval, i - 1);
      assert (i + 1) * interval == i * interval + interval;
    } else {
      assert (i + 1) * interval == interval;
    }
  }

  /** With a positive interval a schedule fires at most as often as the interval fits before its expiry. */
  lemma {:induction false} FiresWithinExpiry(s: Schedule, ticks: seq<Tick>, start: int, interval: int, n: nat)
    requires s.expiry.At? && interval > 0 && Clock(ticks, start, interval) && FiresFirst(s, ticks, n)
    ensures n * interval <= s.expiry.instant - start || n == 0
    ensures s.expiry.instant >= start ==> n <= (s.expiry.instant - start) / interval
  {
    if n > 0 {
      TickTime(ticks, start, interval, n - 1);
      hide Clock;
      assert !Expired(s.expiry, ticks[n - 1].now);
    }
    if s.expiry.instant >= start {
      Quotient(s.expiry.instant - start, interval, n);
    }
  }

  lemma Quotient(a: int, b: int, q: int)
    requires b > 0 && a >= 0 && q * b <= a
    ensures q <= a / b
  {
    assert a == (a / b) * b + a % b;
    if a / b + 1 <= q { ProductGrows(a / b + 1, q, b); }
  }

  lemma ProductGrows(x: int, y: int, b: int)
    requires x <= y && b > 0
    ensures x * b <= y * b
  {
    assert y * b == x * b + (y - x) * b;
  }

  /** With an interval that has wrapped to nothing or less there is no such bound. */
  lemma {:induction false} WrappedIntervalFiresUnbounded(start: int, interval: int, expiry: int, n: nat)
    returns (ticks: seq<Tick>)
    requires interval <= 0 && start <= expiry
    ensures Clock(ticks, start, interval) && FiresFirst(Schedule(At(expiry), None), ticks, n)
  {
    ticks := seq(n, _ => Tick(start, true));
  }
}
