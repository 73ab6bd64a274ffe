/**
 Instants as Instant.now().toString() prints them: the date and time in fields of fixed width, then no, 3, 6
 or 9 digits of the second's fraction, as many as are needed, then "Z"; and the order of such strings.
 */
module Timestamps {

  // ----- the order of strings -------------------------------------------------------------------

  /** The database compares strings character by character. */
  predicate Less(a: string, b: string)
  {
    b != "" && (a == "" || a[0] < b[0] || (a[0] == b[0] && Less(a[1..], b[1..])))
  }

  lemma {:induction false} LessIsAsymmetric(a: string, b: string)
    requires Less(a, b)
    ensures !Less(b, a)
  {
    if a != "" && a[0] == b[0] { LessIsAsymmetric(a[1..], b[1..]); }
  }

  lemma {:induction false} LessIsTotal(a: string, b: string)
    ensures Less(a, b) || Less(b, a) || a == b
  {
    if a != "" && b != "" && a[0] == b[0] {
      LessIsTotal(a[1..], b[1..]);
      assert a == [a[0]] + a[1..] && b == [b[0]] + b[1..];
    }
  }

  lemma {:induction false} LessIsTransitive(a: string, b: string, c: string)
    requires Less(a, b) && Less(b, c)
    ensures Less(a, c)
  {
    if a != "" && a[0] == b[0] && b[0] == c[0] { LessIsTransitive(a[1..], b[1..], c[1..]); }
  }

  lemma LessByHead(c: char, d: char, x: string, y: string)
    ensures Less([c] + x, [d] + y) <==> c < d || (c == d && Less(x, y))
  {
    assert ([c] + x)[1..] == x && ([d] + y)[1..] == y;
  }

  lemma {:induction false} CommonPrefix(p: string, x: string, y: string)
    ensures Less(p + x, p + y) <==> Less(x, y)
  {
    if p == "" {
      assert p + x == x && p + y == y;
    } else {
      CommonPrefix(p[1..], x, y);
      LessByHead(p[0], p[0], p[1..] + x, p[1..] + y);
      assert p + x == [p[0]] + (p[1..] + x) && p + y == [p[0]] + (p[1..] + y);
    }
  }

  // ----- fields of digits -----------------------------------------------------------------------

  function PowerOfTen(k: nat): nat { if k == 0 then 1 else 10 * PowerOfTen(k - 1) }

  function DigitOf(n: nat): (c: char)
    requires n < 10
    ensures '0' <= c <= '9'
  {
    '0' + n as char
  }

  /** A number in a field of w digits. */
  function Digits(n: nat, w: nat): (s: string)
    ensures |s| == w && forall k | 0 <= k < w :: '0' <= s[k] <= '9'
  {
    if w == 0 then "" else Digits(n / 10, w - 1) + [DigitOf(n % 10)]
  }

  /** Two fields of the same width sort by their numbers, then by what follows. */
  lemma {:induction false} FieldOrder(w: nat, m: nat, n: nat, x: string, y: string)
    requires m < PowerOfTen(w) && n < PowerOfTen(w)
    ensures Less(Digits(m, w) + x, Digits(n, w) + y) <==> m < n || (m == n && Less(x, y))
  {
    if w == 0 {
      assert Digits(m, w) + x == x && Digits(n, w) + y == y;
    } else {
      var c, d := DigitOf(m % 10), DigitOf(n % 10);
      FieldOrder(w - 1, m / 10, n / 10, [c] + x, [d] + y);
      LessByHead(c, d, x, y);
      assert Digits(m, w) + x == Digits(m / 10, w - 1) + ([c] + x);
      assert Digits(n, w) + y == Digits(n / 10, w - 1) + ([d] + y);
    }
  }

  lemma {:induction false} FieldIsNumber(w: nat, m: nat, n: nat)
    requires m < PowerOfTen(w) && n < PowerOfTen(w) && Digits(m, w) == Digits(n, w)
    ensures m == n
  {
    if w > 0 {
      assert Digits(m, w)[..w - 1] == Digits(m / 10, w - 1) && Digits(n, w)[..w - 1] == Digits(n / 10, w - 1);
      FieldIsNumber(w - 1, m / 10, n / 10);
      assert Digits(m, w)[w - 1] == Digits(n, w)[w - 1];
    }
  }

  /** The first difference decides. */
  predicate Earlier(xs: seq<nat>, ys: seq<nat>)
  {
    xs != [] && ys != [] && (xs[0] < ys[0] || (xs[0] == ys[0] && Earlier(xs[1..], ys[1..])))
  }

  /** A number in a field of its width, and the text after it. */
  datatype Field = Field(value: nat, width: nat, after: string)

  function Printed(fields: seq<Field>, tail: string): string
  {
    if fields == [] then tail
    else Digits(fields[0].value, fields[0].width) + (fields[0].after + Printed(fields[1..], tail))
  }

  function Values(fields: seq<Field>): seq<nat>
  {
    if fields == [] then [] else [fields[0].value] + Values(fields[1..])
  }

  /** The same fields, but for their numbers. */
  predicate Alike(f: seq<Field>, g: seq<Field>)
  {
    |f| == |g| && forall i | 0 <= i < |f| ::
      f[i].width == g[i].width && f[i].after == g[i].after &&
      f[i].value < PowerOfTen(f[i].width) && g[i].value < PowerOfTen(f[i].width)
  }

  lemma {:induction false} FieldsOrder(f: seq<Field>, g: seq<Field>, x: string, y: string)
    requires Alike(f, g)
    ensures Less(Printed(f, x), Printed(g, y))
       <==> Earlier(Values(f), Values(g)) || (Values(f) == Values(g) && Less(x, y))
  {
    if f != [] {
      FieldsOrder(f[1..], g[1..], x, y);
      var restF, restG := Printed(f[1..], x), Printed(g[1..], y);
      FieldOrder(f[0].width, f[0].value, g[0].value, f[0].after + restF, g[0].after + restG);
      CommonPrefix(f[0].after, restF, restG);
      assert Values(f)[1..] == Values(f[1..]) && Values(g)[1..] == Values(g[1..]);
      hide Less, Digits, Printed;
    }
  }

  // ----- fractions ------------------------------------------------------------------------------

  /** Milliseconds, microseconds, nanoseconds. */
  function Groups(nano: nat): seq<nat> { [nano / 1_000_000, nano / 1_000 % 1_000, nano % 1_000] }

  /** Without the groups of zeros at the end. */
  function Trim(groups: seq<nat>): seq<nat>
  {
    if groups == [] then []
    else
      var rest := Trim(groups[1..]);
      if rest == [] && groups[0] == 0 then [] else [groups[0]] + rest
  }

  function ThreeEach(groups: seq<nat>): seq<char>
  {
    if groups == [] then "" else Digits(groups[0], 3) + ThreeEach(groups[1..])
  }

  function FractionDigits(nano: nat): string { ThreeEach(Trim(Groups(nano))) }

  function Fraction(nano: nat): string
  {
    if FractionDigits(nano) == "" then "" else "." + FractionDigits(nano)
  }

  predicate Small(groups: seq<nat>) { forall i | 0 <= i < |groups| :: groups[i] < 1_000 }

  /** How groups of three digits sort when a letter follows the last. */
  predicate SortsBefore(g: seq<nat>, h: seq<nat>)
  {
    g != [] && (h == [] || g[0] < h[0] || (g[0] == h[0] && SortsBefore(g[1..], h[1..])))
  }

  lemma {:induction false} GroupsOrder(g: seq<nat>, h: seq<nat>)
    requires Small(g) && Small(h)
    ensures Less(ThreeEach(g) + "Z", ThreeEach(h) + "Z") <==> SortsBefore(g, h)
  {
    if g == [] || h == [] {
      assert ThreeEach([]) + "Z" == "Z";
    } else {
      GroupsOrder(g[1..], h[1..]);
      assert PowerOfTen(3) == 1_000;
      FieldOrder(3, g[0], h[0], ThreeEach(g[1..]) + "Z", ThreeEach(h[1..]) + "Z");
      assert ThreeEach(g) + "Z" == Digits(g[0], 3) + (ThreeEach(g[1..]) + "Z");
      assert ThreeEach(h) + "Z" == Digits(h[0], 3) + (ThreeEach(h[1..]) + "Z");
      hide Less, Digits;
    }
  }

  lemma {:induction false} GroupsPrefix(g: seq<nat>, h: seq<nat>)
    requires Small(g) && Small(h)
    ensures ThreeEach(g) <= ThreeEach(h) <==> g <= h
  {
    if g != [] && h != [] {
      GroupsPrefix(g[1..], h[1..]);
      assert PowerOfTen(3) == 1_000;
      var p, q := ThreeEach(g), ThreeEach(h);
      assert p[..3] == Digits(g[0], 3) && q[..3] == Digits(h[0], 3);
      assert p[3..] == ThreeEach(g[1..]) && q[3..] == ThreeEach(h[1..]);
      hide Digits, ThreeEach;
      if p <= q {
        assert p[..3] == q[..3] && p[3..] <= q[3..];
        FieldIsNumber(3, g[0], h[0]);
        assert g == [g[0]] + g[1..] && h == [h[0]] + h[1..];
      }
      if g <= h {
        assert g[1..] <= h[1..];
        assert p == p[..3] + p[3..] && q == q[..3] + q[3..];
      }
    }
  }

  lemma {:induction false} TrimOrder(g: seq<nat>, h: seq<nat>)
    requires |g| == |h| && Earlier(g, h)
    ensures SortsBefore(Trim(g), Trim(h)) <==> !(Trim(g) < Trim(h))
  {
    if g[0] == h[0] {
      TrimOrder(g[1..], h[1..]);
      TrimLess(g[1..], h[1..]);
      var p, q := Trim(g), Trim(h);
      if p != [] && q != [] {
        assert p[1..] == Trim(g[1..]) && q[1..] == Trim(h[1..]);
        assert p == [p[0]] + p[1..] && q == [q[0]] + q[1..];
        assert p < q <==> p[1..] < q[1..];
      }
    }
  }

  /** A later fraction is not trimmed to nothing. */
  lemma {:induction false} TrimLess(g: seq<nat>, h: seq<nat>)
    requires |g| == |h| && Earlier(g, h)
    ensures Trim(h) != []
  {
    if g[0] == h[0] { TrimLess(g[1..], h[1..]); }
  }

  lemma {:induction false} TrimIsSmall(g: seq<nat>)
    requires Small(g)
    ensures Small(Trim(g))
  {
    if g != [] { TrimIsSmall(g[1..]); }
  }

  lemma GroupsOf(n: nat)
    requires n < 1_000_000_000
    ensures |Groups(n)| == 3 && Small(Groups(n))
    ensures n == 1_000_000 * Groups(n)[0] + 1_000 * Groups(n)[1] + Groups(n)[2]
  {
  }

  lemma GroupsEarlier(m: nat, n: nat)
    requires m < n < 1_000_000_000
    ensures Small(Groups(m)) && Small(Groups(n)) && |Groups(m)| == |Groups(n)| && Earlier(Groups(m), Groups(n))
  {
    GroupsOf(m);
    GroupsOf(n);
    hide Groups, Earlier;
    EarlierOfThree(Groups(m), Groups(n));
  }

  lemma EarlierOfThree(g: seq<nat>, h: seq<nat>)
    requires |g| == |h| == 3
    ensures Earlier(g, h) <==> g[0] < h[0] || (g[0] == h[0] && (g[1] < h[1] || (g[1] == h[1] && g[2] < h[2])))
  {
    assert g[1..] == [g[1], g[2]] && h[1..] == [h[1], h[2]];
    assert g[1..][1..] == [g[2]] && h[1..][1..] == [h[2]];
    assert Earlier([g[2]], [h[2]]) <==> g[2] < h[2];
    assert Earlier([g[1], g[2]], [h[1], h[2]]) <==> g[1] < h[1] || (g[1] == h[1] && g[2] < h[2]);
  }

  lemma PointMakesNoDifference(d: string, e: string)
    requires (d != "" ==> '0' <= d[0] <= '9') && (e != "" ==> '0' <= e[0] <= '9')
    ensures var p, q := if d == "" then "" else "." + d, if e == "" then "" else "." + e;
            Less(p + "Z", q + "Z") <==> Less(d + "Z", e + "Z")
  {
    if d != "" && e != "" {
      CommonPrefix(".", d + "Z", e + "Z");
      assert "." + d + "Z" == "." + (d + "Z") && "." + e + "Z" == "." + (e + "Z");
    }
  }

  /** Within a second the earlier instant sorts first unless its digits are only the beginning of the other's. */
  lemma FractionOrder(m: nat, n: nat)
    requires m < n < 1_000_000_000
    ensures Less(Fraction(m) + "Z", Fraction(n) + "Z") <==> !(FractionDigits(m) < FractionDigits(n))
    ensures Less(Fraction(n) + "Z", Fraction(m) + "Z") <==> FractionDigits(m) < FractionDigits(n)
  {
    var x, y := Fraction(m) + "Z", Fraction(n) + "Z";
    LessIsTotal(x, y);
    if Less(x, y) { LessIsAsymmetric(x, y); }
    assert x == y ==> |FractionDigits(m)| == |FractionDigits(n)|;
    GroupsEarlier(m, n);
    var g, h := Trim(Groups(m)), Trim(Groups(n));
    TrimIsSmall(Groups(m));
    TrimIsSmall(Groups(n));
    PointMakesNoDifference(FractionDigits(m), FractionDigits(n));
    GroupsOrder(g, h);
    TrimOrder(Groups(m), Groups(n));
    GroupsPrefix(g, h);
    GroupsPrefix(h, g);
    hide Less, Trim, Groups, SortsBefore, ThreeEach, Earlier;
    assert ThreeEach(g) < ThreeEach(h) <==> ThreeEach(g) <= ThreeEach(h) && !(ThreeEach(h) <= ThreeEach(g));
    assert g < h <==> g <= h && !(h <= g);
  }

  // ----- instants -------------------------------------------------------------------------------

  datatype Instant = Instant(year: nat, month: nat, day: nat, hour: nat, minute: nat, second: nat, nano: nat)

  /** The ranges of the fields; from the year 10000 on, years are printed with a sign. */
  predicate InRange(t: Instant)
  {
    t.year <= 9999 && 1 <= t.month <= 12 && 1 <= t.day <= 31 &&
    t.hour < 24 && t.minute < 60 && t.second < 60 && t.nano < 1_000_000_000
  }

  function Fields(t: Instant): seq<Field>
  {
    [Field(t.year, 4, "-"), Field(t.month, 2, "-"), Field(t.day, 2, "T"),
     Field(t.hour, 2, ":"), Field(t.minute, 2, ":"), Field(t.second, 2, "")]
  }

  function ToString(t: Instant): string { Printed(Fields(t), Fraction(t.nano) + "Z") }

  lemma DigitsMore(n: nat, w: nat)
    ensures Digits(n, 0) == "" && Digits(n, w + 1) == Digits(n / 10, w) + [DigitOf(n % 10)]
  {
  }

  lemma Thousands(n: nat)
    ensures var m := n % 1_000;
            n / 10 / 10 / 10 == n / 1_000 && m / 10 / 10 / 10 == 0 &&
            n / 10 / 10 % 10 == m / 10 / 10 % 10 && n / 10 % 10 == m / 10 % 10 && n % 10 == m % 10
  {
  }

  lemma DigitsSplit(n: nat, w: nat)
    ensures Digits(n, w + 3) == Digits(n / 1_000, w) + Digits(n % 1_000, 3)
  {
    hide Digits;
    var m := n % 1_000;
    Thousands(n);
    DigitsMore(n, w + 2);
    DigitsMore(n / 10, w + 1);
    DigitsMore(n / 10 / 10, w);
    DigitsMore(m, 2);
    DigitsMore(m / 10, 1);
    DigitsMore(m / 10 / 10, 0);
    DigitsMore(m / 10 / 10 / 10, 0);
  }

  lemma FractionOfGroups(a: nat, b: nat, c: nat)
    ensures ThreeEach(Trim([a, b, c]))
         == if c != 0 then Digits(a, 3) + Digits(b, 3) + Digits(c, 3)
            else if b != 0 then Digits(a, 3) + Digits(b, 3)
            else if a != 0 then Digits(a, 3) else ""
  {
    hide Digits;
    assert [a, b, c][1..] == [b, c] && [b, c][1..] == [c] && [c][1..] == [] && [b][1..] == [];
    assert [a][1..] == [] && [a, b][1..] == [b];
    assert Trim([c]) == if c != 0 then [c] else [];
    assert Trim([b, c]) == if c != 0 then [b, c] else if b != 0 then [b] else [];
    assert ThreeEach([b]) == Digits(b, 3) && ThreeEach([c]) == Digits(c, 3);
    assert ThreeEach([b, c]) == Digits(b, 3) + Digits(c, 3);
  }

  /** The fraction has no digits, or milliseconds, microseconds or nanoseconds, whatever is needed. */
  lemma {:induction false} FractionIs(nano: nat)
    requires nano < 1_000_000_000
    ensures Fraction(nano)
         == if nano == 0 then "" else if nano % 1_000_000 == 0 then "." + Digits(nano / 1_000_000, 3)
            else if nano % 1_000 == 0 then "." + Digits(nano / 1_000, 6) else "." + Digits(nano, 9)
  {
    hide Digits, Trim, ThreeEach;
    var ms, us, ns := nano / 1_000_000, nano / 1_000 % 1_000, nano % 1_000;
    assert nano / 1_000 / 1_000 == ms && nano == 1_000_000 * ms + 1_000 * us + ns;
    DigitsSplit(nano, 6);
    DigitsSplit(nano / 1_000, 3);
    FractionOfGroups(ms, us, ns);
  }

  lemma PrintedMore(f: Field, rest: seq<Field>, tail: string)
    ensures Printed([], tail) == tail && Values([]) == []
    ensures Printed([f] + rest, tail) == Digits(f.value, f.width) + f.after + Printed(rest, tail)
    ensures Values([f] + rest) == [f.value] + Values(rest)
  {
    assert ([f] + rest)[1..] == rest;
    hide Digits;
  }

  /** So an instant is printed as its fields in the order of ISO 8601. */
  lemma {:induction false} PrintedAs(t: Instant)
    requires InRange(t)
    ensures ToString(t)
         == Digits(t.year, 4) + "-" + Digits(t.month, 2) + "-" + Digits(t.day, 2) + "T"
            + Digits(t.hour, 2) + ":" + Digits(t.minute, 2) + ":" + Digits(t.second, 2)
            + (if t.nano == 0 then "" else if t.nano % 1_000_000 == 0 then "." + Digits(t.nano / 1_000_000, 3)
               else if t.nano % 1_000 == 0 then "." + Digits(t.nano / 1_000, 6) else "." + Digits(t.nano, 9))
            + "Z"
  {
    FractionIs(t.nano);
    hide Digits, Fraction;
    FieldsPrinted(t, Fraction(t.nano) + "Z");
  }

  lemma FieldsPrinted(t: Instant, tail: string)
    ensures Printed(Fields(t), tail)
         == Digits(t.year, 4) + "-" + Digits(t.month, 2) + "-" + Digits(t.day, 2) + "T"
            + Digits(t.hour, 2) + ":" + Digits(t.minute, 2) + ":" + Digits(t.second, 2) + tail
    ensures Values(Fields(t)) == [t.year, t.month, t.day, t.hour, t.minute, t.second]
  {
    hide Digits, Printed, Values;
    var f := Fields(t);
    TimePrinted(t, tail);
    var time := [f[3], f[4], f[5]];
    PrintedMore(f[2], time, tail);
    PrintedMore(f[1], [f[2]] + time, tail);
    PrintedMore(f[0], [f[1]] + ([f[2]] + time), tail);
    assert f == [f[0]] + ([f[1]] + ([f[2]] + time));
  }

  lemma TimePrinted(t: Instant, tail: string)
    ensures var time := [Fields(t)[3], Fields(t)[4], Fields(t)[5]];
            Printed(time, tail)
            == Digits(t.hour, 2) + ":" + Digits(t.minute, 2) + ":" + Digits(t.second, 2) + tail &&
            Values(time) == [t.hour, t.minute, t.second]
  {
    hide Digits, Printed, Values;
    var f := Fields(t);
    PrintedMore(f[5], [], tail);
    PrintedMore(f[4], [f[5]], tail);
    PrintedMore(f[3], [f[4], f[5]], tail);
    assert [f[3], f[4], f[5]] == [f[3]] + [f[4], f[5]] && [f[4], f[5]] == [f[4]] + [f[5]] && [f[5]] == [f[5]] + [];
  }

  lemma EarlierMore(x: nat, xs: seq<nat>, y: nat, ys: seq<nat>)
    ensures Earlier([x] + xs, [y] + ys) <==> x < y || (x == y && Earlier(xs, ys))
  {
    assert ([x] + xs)[1..] == xs && ([y] + ys)[1..] == ys;
  }

  /** Earlier means earlier: the year decides first and the nanoseconds last. */
  lemma {:induction false} BeforeIff(a: Instant, b: Instant)
    ensures Before(a, b) <==>
            if a.year != b.year then a.year < b.year
            else if a.month != b.month then a.month < b.month
            else if a.day != b.day then a.day < b.day
            else if a.hour != b.hour then a.hour < b.hour
            else if a.minute != b.minute then a.minute < b.minute
            else if a.second != b.second then a.second < b.second
            else a.nano < b.nano
  {
    FieldsPrinted(a, "");
    FieldsPrinted(b, "");
    TimesEarlier(a, b);
    hide Earlier, Values, Fields;
    var x, y := [a.hour, a.minute, a.second], [b.hour, b.minute, b.second];
    EarlierMore(a.day, x, b.day, y);
    EarlierMore(a.month, [a.day] + x, b.month, [b.day] + y);
    EarlierMore(a.year, [a.month] + ([a.day] + x), b.year, [b.month] + ([b.day] + y));
    assert Values(Fields(a)) == [a.year] + ([a.month] + ([a.day] + x));
    assert Values(Fields(b)) == [b.year] + ([b.month] + ([b.day] + y));
  }

  lemma TimesEarlier(a: Instant, b: Instant)
    ensures Earlier([a.hour, a.minute, a.second], [b.hour, b.minute, b.second]) <==>
            if a.hour != b.hour then a.hour < b.hour
            else if a.minute != b.minute then a.minute < b.minute
            else a.second < b.second
  {
    NothingEarlier();
    hide Earlier;
    EarlierMore(a.second, [], b.second, []);
    EarlierMore(a.minute, [a.second], b.minute, [b.second]);
    EarlierMore(a.hour, [a.minute, a.second], b.hour, [b.minute, b.second]);
    assert [a.second] + [] == [a.second] && [b.second] + [] == [b.second];
    assert [a.minute] + [a.second] == [a.minute, a.second] && [b.minute] + [b.second] == [b.minute, b.second];
    assert [a.hour] + [a.minute, a.second] == [a.hour, a.minute, a.second];
    assert [b.hour] + [b.minute, b.second] == [b.hour, b.minute, b.second];
  }

  lemma NothingEarlier()
    ensures !Earlier([], [])
  {
  }

  predicate SameSecond(a: Instant, b: Instant) { Values(Fields(a)) == Values(Fields(b)) }

  /** a is before b. */
  predicate Before(a: Instant, b: Instant)
  {
    Earlier(Values(Fields(a)), Values(Fields(b))) || (SameSecond(a, b) && a.nano < b.nano)
  }

  /** The printed digits of a's fraction are only the beginning of those of b's, in the same second. */
  predicate CutShort(a: Instant, b: Instant)
  {
    SameSecond(a, b) && FractionDigits(a.nano) < FractionDigits(b.nano)
  }

  lemma FieldsAlike(a: Instant, b: Instant)
    requires InRange(a) && InRange(b)
    ensures Alike(Fields(a), Fields(b))
  {
    assert PowerOfTen(2) == 100 && PowerOfTen(4) == 10_000 by {
      assert PowerOfTen(3) == 1_000;
    }
  }

  lemma {:induction false} EarlierIsOneWay(xs: seq<nat>, ys: seq<nat>)
    requires Earlier(xs, ys)
    ensures xs != ys && !Earlier(ys, xs)
  {
    if xs[0] == ys[0] { EarlierIsOneWay(xs[1..], ys[1..]); }
  }

  /**
   Of two instants the earlier one is the smaller string, unless both lie in the same second and its
   fraction is printed with only the first of the other's digits: then it is the greater one.
   */
  lemma {:induction false} StringOrderIsClockOrderIff(a: Instant, b: Instant)
    requires InRange(a) && InRange(b) && Before(a, b)
    ensures Less(ToString(a), ToString(b)) <==> !CutShort(a, b)
    ensures Less(ToString(b), ToString(a)) <==> CutShort(a, b)
  {
    var f, g := Fields(a), Fields(b);
    FieldsAlike(a, b);
    FieldsOrder(f, g, Fraction(a.nano) + "Z", Fraction(b.nano) + "Z");
    FieldsOrder(g, f, Fraction(b.nano) + "Z", Fraction(a.nano) + "Z");
    hide Less, Fields, Values, Printed, Earlier, Fraction, FractionDigits;
    if Earlier(Values(f), Values(g)) {
      EarlierIsOneWay(Values(f), Values(g));
    } else {
      FractionOrder(a.nano, b.nano);
      if Earlier(Values(g), Values(f)) { EarlierIsOneWay(Values(g), Values(f)); }
    }
  }

  /** So an instant on the full second is greater, as a string, than every later instant of that second. */
  lemma FullSecondSortsLast(a: Instant, b: Instant)
    requires InRange(a) && InRange(b) && SameSecond(a, b) && a.nano == 0 < b.nano
    ensures CutShort(a, b) && Before(a, b) && Less(ToString(b), ToString(a))
  {
    GroupsEarlier(0, b.nano);
    TrimLess(Groups(0), Groups(b.nano));
    NothingToPrint();
    hide Less, Fields, Values, Earlier;
    StringOrderIsClockOrderIff(a, b);
  }

  lemma NothingToPrint()
    ensures FractionDigits(0) == ""
  {
    var g := Groups(0);
    assert g == [0, 0, 0] && g[1..] == [0, 0] && g[1..][1..] == [0];
    assert Trim([0]) == [] && Trim([0, 0]) == [];
  }
}
