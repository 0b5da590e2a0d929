/** The manifest's sortable stamp, `YYYYMMDDTHHMMSSZ` (crates/choir-cli/src/backup.rs), and the year
    from which it stops sorting. */
module Stamp {
  import opened Basics
  import opened Civil
  import Decimal

  function Zeros(n: nat): (s: string)
    ensures |s| == n
  {
    if n == 0 then "" else "0" + Zeros(n - 1)
  }

  /** At least `width` digits. */
  function Padded(n: nat, width: nat): string {
    var digits := Decimal.Print(n);
    if |digits| < width then Zeros(width - |digits|) + digits else digits
  }

  /** The stamp of an instant given in seconds since 1970. */
  function Utc(secs: nat): string {
    Spelled(FromDays(secs / 86400), secs % 86400)
  }

  function Clock(rem: nat): string {
    Padded(rem / 3600, 2) + (Padded(rem % 3600 / 60, 2) + (Padded(rem % 60, 2) + "Z"))
  }

  /** The stamp of a date and a time of day in seconds. */
  function Spelled(t: Date, rem: nat): string {
    Padded(t.y, 4) + (Padded(t.m, 2) + (Padded(t.d, 2) + ("T" + Clock(rem))))
  }

  /** Strings in the order a directory listing sorts them. */
  predicate Sorts(s: string, t: string) {
    if t == "" then false
    else if s == "" then true
    else s[0] < t[0] || (s[0] == t[0] && Sorts(s[1..], t[1..]))
  }

  /** Of two different strings one sorts in front, and not the other. */
  lemma {:induction false} SortsOneWay(s: string, t: string)
    ensures if s == t then !Sorts(s, t) else Sorts(s, t) != Sorts(t, s)
  {
    if s != "" && t != "" && s[0] == t[0] {
      assert s == [s[0]] + s[1..] && t == [t[0]] + t[1..];
      SortsOneWay(s[1..], t[1..]);
    }
  }

  lemma {:induction false} SortsTail(p: string, s: string, t: string)
    ensures Sorts(p + s, p + t) <==> Sorts(s, t)
  {
    if p == "" {
      assert p + s == s && p + t == t;
    } else {
      assert (p + s)[1..] == p[1..] + s && (p + t)[1..] == p[1..] + t;
      SortsTail(p[1..], s, t);
    }
  }

  lemma {:induction false} SortsHead(p: string, q: string, s: string, t: string)
    requires |p| == |q| && p != q
    ensures Sorts(p + s, q + t) <==> Sorts(p, q)
  {
    if p[0] == q[0] {
      assert p == [p[0]] + p[1..] && q == [q[0]] + q[1..];
      assert (p + s)[1..] == p[1..] + s && (q + t)[1..] == q[1..] + t;
      SortsHead(p[1..], q[1..], s, t);
    }
  }

  // ---- fields of fixed width ------------------------------------------------------------------

  function Fixed(n: nat, width: nat): (s: string)
    ensures |s| == width
  {
    if width == 0 then "" else Fixed(n / 10, width - 1) + [Decimal.Digit(n % 10)]
  }

  function Pow10(k: nat): (p: nat)
    ensures p >= 1
  {
    if k == 0 then 1 else 10 * Pow10(k - 1)
  }

  lemma {:induction false} FixedZero(width: nat)
    ensures Fixed(0, width) == Zeros(width)
  {
    if width > 0 {
      FixedZero(width - 1);
      ZerosEnd(width - 1);
    }
  }

  lemma {:induction false} ZerosEnd(n: nat)
    ensures Zeros(n) + "0" == Zeros(n + 1)
  {
    if n > 0 {
      ZerosEnd(n - 1);
      assert Zeros(n) + "0" == "0" + (Zeros(n - 1) + "0");
    }
  }

  lemma {:induction false} OneMoreDigit(zeros: string, digits: string, d: char)
    ensures zeros + (digits + [d]) == (zeros + digits) + [d]
  {
  }

  lemma {:induction false} PaddedIsFixed(n: nat, width: nat)
    requires width >= 1 && n < Pow10(width)
    ensures Padded(n, width) == Fixed(n, width)
  {
    if n < 10 {
      FixedZero(width - 1);
      if width == 1 {
        assert Fixed(n, width) == [] + [Decimal.Digit(n)];
      }
    } else {
      assert Pow10(1) == 10 * Pow10(0);
      PaddedIsFixed(n / 10, width - 1);
      var shorter := Decimal.Print(n / 10);
      if |shorter| < width - 1 {
        OneMoreDigit(Zeros(width - 1 - |shorter|), shorter, Decimal.Digit(n % 10));
      }
    }
  }

  /** Digits of one width sort as numbers. */
  lemma {:induction false} FixedSorts(m: nat, n: nat, width: nat)
    requires m < Pow10(width) && n < Pow10(width)
    ensures Sorts(Fixed(m, width), Fixed(n, width)) <==> m < n
    ensures Fixed(m, width) == Fixed(n, width) <==> m == n
  {
    if width > 0 {
      FixedSorts(m / 10, n / 10, width - 1);
      var p, q := Fixed(m / 10, width - 1), Fixed(n / 10, width - 1);
      var c, d := Decimal.Digit(m % 10), Decimal.Digit(n % 10);
      assert (p + [c])[..width - 1] == p && (q + [d])[..width - 1] == q;
      if m / 10 == n / 10 {
        SortsTail(p, [c], [d]);
        assert Sorts([c], [d]) <==> c < d;
      } else {
        SortsHead(p, q, [c], [d]);
      }
    }
  }

  /** A field in front of the rest of two stamps. */
  lemma {:induction false} FieldSorts(m: nat, n: nat, width: nat, s: string, t: string)
    requires width >= 1 && m < Pow10(width) && n < Pow10(width)
    ensures Sorts(Padded(m, width) + s, Padded(n, width) + t) <==> m < n || (m == n && Sorts(s, t))
  {
    PaddedIsFixed(m, width);
    PaddedIsFixed(n, width);
    FixedSorts(m, n, width);
    if m == n {
      SortsTail(Padded(m, width), s, t);
    } else {
      SortsHead(Padded(m, width), Padded(n, width), s, t);
    }
  }

  // ---- stamps ------------------------------------------------------------------------------------

  lemma {:induction false} Powers()
    ensures Pow10(2) == 100 && Pow10(4) == 10000
  {
    assert Pow10(1) == 10 && Pow10(3) == 10 * Pow10(2);
  }

  lemma {:induction false} ClockParts(a: nat)
    ensures a == 3600 * (a / 3600) + 60 * (a % 3600 / 60) + a % 60 && a % 3600 / 60 < 60
  {
    assert a % 60 == a % 3600 % 60;
  }

  lemma {:induction false} ClockInOrder(a: nat, b: nat)
    requires a < 86400 && b < 86400
    ensures a < b <==>
            || a / 3600 < b / 3600
            || (a / 3600 == b / 3600
                && (a % 3600 / 60 < b % 3600 / 60 || (a % 3600 / 60 == b % 3600 / 60 && a % 60 < b % 60)))
  {
    ClockParts(a);
    ClockParts(b);
  }

  lemma {:induction false} ClockSorts(a: nat, b: nat)
    requires a < 86400 && b < 86400
    ensures Sorts(Clock(a), Clock(b)) <==> a < b
  {
    Powers();
    var sa, sb := Padded(a % 60, 2) + "Z", Padded(b % 60, 2) + "Z";
    FieldSorts(a % 60, b % 60, 2, "Z", "Z");
    assert !Sorts("Z", "Z");
    FieldSorts(a % 3600 / 60, b % 3600 / 60, 2, sa, sb);
    FieldSorts(a / 3600, b / 3600, 2, Padded(a % 3600 / 60, 2) + sa, Padded(b % 3600 / 60, 2) + sb);
    ClockInOrder(a, b);
  }

  function Written(t: Date, rest: string): string {
    Padded(t.y, 4) + (Padded(t.m, 2) + (Padded(t.d, 2) + rest))
  }

  lemma {:induction false} DatesSort(s: Date, t: Date, x: string, y: string)
    requires Valid(s) && Valid(t) && s.y < 10000 && t.y < 10000
    ensures Sorts(Written(s, x), Written(t, y)) <==> DateBefore(s, t) || (s == t && Sorts(x, y))
  {
    Powers();
    FieldSorts(s.d, t.d, 2, x, y);
    FieldSorts(s.m, t.m, 2, Padded(s.d, 2) + x, Padded(t.d, 2) + y);
    FieldSorts(s.y, t.y, 4, Padded(s.m, 2) + (Padded(s.d, 2) + x), Padded(t.m, 2) + (Padded(t.d, 2) + y));
  }

  /** As long as years have four digits, stamps sort as the instants they stamp. */
  lemma {:induction false} StampsSort(a: nat, b: nat)
    requires FromDays(a / 86400).y < 10000 && FromDays(b / 86400).y < 10000
    ensures Sorts(Utc(a), Utc(b)) <==> a < b
  {
    var s, t := FromDays(a / 86400), FromDays(b / 86400);
    DayNumberOfDays(a / 86400);
    DayNumberOfDays(b / 86400);
    DatesInOrder(a / 86400, b / 86400);
    DatesInOrder(b / 86400, a / 86400);
    DatesSort(s, t, "T" + Clock(a % 86400), "T" + Clock(b % 86400));
    SortsTail("T", Clock(a % 86400), Clock(b % 86400));
    ClockSorts(a % 86400, b % 86400);
  }

  // ---- reading a stamp -----------------------------------------------------------------------------

  predicate Digits(s: string) {
    forall i :: 0 <= i < |s| ==> '0' <= s[i] <= '9'
  }

  function Number(s: string): nat {
    if Digits(s) then Decimal.Read(s) else 0
  }

  /** The instant a stamp names, its date counted from 1970 and its time of day. */
  function Instant(s: string): Option<nat> {
    if |s| != 16 || s[8] != 'T' || s[15] != 'Z' then None
    else
      var t := Date(Number(s[..4]), Number(s[4..6]), Number(s[6..8]));
      if !Valid(t) then None
      else Some(86400 * DayNumber(t) + 3600 * Number(s[9..11]) + 60 * Number(s[11..13]) + Number(s[13..15]))
  }

  lemma {:induction false} FixedReads(n: nat, width: nat)
    requires n < Pow10(width)
    ensures Digits(Fixed(n, width)) && Decimal.Read(Fixed(n, width)) == n
  {
    if width > 0 {
      FixedReads(n / 10, width - 1);
      var front := Fixed(n / 10, width - 1);
      assert Fixed(n, width)[..width - 1] == front;
    }
  }

  lemma {:induction false} PaddedReads(n: nat, width: nat)
    requires width >= 1 && n < Pow10(width)
    ensures |Padded(n, width)| == width && Number(Padded(n, width)) == n
  {
    PaddedIsFixed(n, width);
    FixedReads(n, width);
  }

  /** A field in front of the rest, and what is further back. */
  lemma {:induction false} InFront(a: string, b: string, i: nat, j: nat)
    requires i <= j <= |b|
    ensures (a + b)[..|a|] == a && (a + b)[|a| + i..|a| + j] == b[i..j]
  {
  }

  /** A time of day, spelled. */
  ghost predicate ClockSays(c: string, rem: nat) {
    |c| == 7 && c[6] == 'Z' && 3600 * Number(c[..2]) + 60 * Number(c[2..4]) + Number(c[4..6]) == rem
  }

  lemma {:induction false} ClockFields(h: string, i: string, s: string)
    requires |h| == |i| == |s| == 2
    ensures var c := h + (i + (s + "Z")); |c| == 7 && c[..2] == h && c[2..4] == i && c[4..6] == s && c[6] == 'Z'
  {
    InFront(h, i + (s + "Z"), 0, 2);
    InFront(h, i + (s + "Z"), 2, 4);
    InFront(i, s + "Z", 0, 2);
  }

  lemma {:induction false} DateFields(y: string, m: string, d: string, clock: string)
    requires |y| == 4 && |m| == |d| == 2 && |clock| == 7
    ensures var t := y + (m + (d + ("T" + clock)));
      |t| == 16 && t[..4] == y && t[4..6] == m && t[6..8] == d && t[8] == 'T' && t[15] == clock[6]
      && t[9..11] == clock[..2] && t[11..13] == clock[2..4] && t[13..15] == clock[4..6]
  {
    var c := "T" + clock;
    var r := m + (d + c);
    InFront("T", clock, 0, 2);
    InFront("T", clock, 2, 4);
    InFront("T", clock, 4, 6);
    InFront(y, r, 0, 2);
    InFront(y, r, 2, 4);
    InFront(y, r, 5, 7);
    InFront(y, r, 7, 9);
    InFront(y, r, 9, 11);
    InFront(m, d + c, 0, 2);
    InFront(m, d + c, 3, 5);
    InFront(m, d + c, 5, 7);
    InFront(m, d + c, 7, 9);
    InFront(d, c, 1, 3);
    InFront(d, c, 3, 5);
    InFront(d, c, 5, 7);
  }

  lemma {:induction false} InstantOf(t: Date, rem: nat, y: string, m: string, d: string, clock: string)
    requires Valid(t) && |y| == 4 && |m| == |d| == 2 && ClockSays(clock, rem)
    requires Number(y) == t.y && Number(m) == t.m && Number(d) == t.d
    ensures Instant(y + (m + (d + ("T" + clock)))) == Some(86400 * DayNumber(t) + rem)
  {
    DateFields(y, m, d, clock);
    assert t == Date(t.y, t.m, t.d);
  }

  lemma {:induction false} DateReads(t: Date)
    requires Valid(t) && t.y < 10000
    ensures Number(Padded(t.y, 4)) == t.y && Number(Padded(t.m, 2)) == t.m && Number(Padded(t.d, 2)) == t.d
    ensures |Padded(t.y, 4)| == 4 && |Padded(t.m, 2)| == |Padded(t.d, 2)| == 2
  {
    Powers();
    PaddedReads(t.y, 4);
    PaddedReads(t.m, 2);
    PaddedReads(t.d, 2);
  }

  lemma {:induction false} ClockReads(rem: nat)
    requires rem < 86400
    ensures ClockSays(Clock(rem), rem)
  {
    ClockParts(rem);
    Powers();
    PaddedReads(rem / 3600, 2);
    PaddedReads(rem % 3600 / 60, 2);
    PaddedReads(rem % 60, 2);
    ClockFields(Padded(rem / 3600, 2), Padded(rem % 3600 / 60, 2), Padded(rem % 60, 2));
  }

  lemma {:induction false} SpelledParts(t: Date, rem: nat) returns (y: string, m: string, d: string, clock: string)
    requires Valid(t) && t.y < 10000 && rem < 86400
    ensures Spelled(t, rem) == y + (m + (d + ("T" + clock))) && |y| == 4 && |m| == |d| == 2 && ClockSays(clock, rem)
    ensures Number(y) == t.y && Number(m) == t.m && Number(d) == t.d
  {
    ClockReads(rem);
    DateReads(t);
    y, m, d, clock := Padded(t.y, 4), Padded(t.m, 2), Padded(t.d, 2), Clock(rem);
  }

  lemma {:induction false} SpelledReads(t: Date, rem: nat)
    requires Valid(t) && t.y < 10000 && rem < 86400
    ensures Instant(Spelled(t, rem)) == Some(86400 * DayNumber(t) + rem)
  {
    var y, m, d, clock := SpelledParts(t, rem);
    InstantOf(t, rem, y, m, d, clock);
  }

  lemma {:induction false} DayAndTime(t: Date, secs: nat)
    requires Valid(t) && t.y < 10000 && DayNumber(t) == secs / 86400
    ensures Instant(Spelled(t, secs % 86400)) == Some(secs)
  {
    SpelledReads(t, secs % 86400);
    assert secs == 86400 * (secs / 86400) + secs % 86400;
  }

  /** A stamp of a four-digit year reads back as the instant it was made from. */
  lemma {:induction false} StampReads(secs: nat)
    requires FromDays(secs / 86400).y < 10000
    ensures Instant(Utc(secs)) == Some(secs)
  {
    DayNumberOfDays(secs / 86400);
    DayAndTime(FromDays(secs / 86400), secs);
  }

  /** The first instant of the year 10000. */
  const HORIZON: nat := 253402300800

  lemma {:induction false} HorizonDay()
    ensures HORIZON / 86400 == 2932897 && HORIZON % 86400 == 0
    ensures FromDays(2932897) == Date(10000, 1, 1)
  {
    assert YearOfEra(146037) == 399;
    assert 2932897 + 719468 == 146097 * 24 + 146037;
  }

  lemma {:induction false} BelowTheHorizon(secs: nat)
    ensures FromDays(secs / 86400).y < 10000 <==> secs < HORIZON
  {
    HorizonDay();
    DayNumberOfDays(secs / 86400);
    DatesInOrder(secs / 86400, 2932897);
    assert secs < HORIZON <==> secs / 86400 < 2932897;
  }

  lemma {:induction false} FirstDigit(n: nat)
    requires n >= 10
    ensures Decimal.Print(n)[0] == Decimal.Print(n / 10)[0] && |Decimal.Print(n)| == |Decimal.Print(n / 10)| + 1
  {
  }

  lemma {:induction false} TenThousand()
    ensures Padded(10000, 4)[0] == '1' && Padded(9999, 4)[0] == '9'
  {
    FirstDigit(10000);
    FirstDigit(1000);
    FirstDigit(100);
    FirstDigit(10);
    FirstDigit(9999);
    FirstDigit(999);
    FirstDigit(99);
  }

  lemma {:induction false} EndsAYear(last: Date, y: nat)
    requires NextDay(last) == Date(y + 1, 1, 1) && last.d >= 1 && last.m >= 1
    ensures last.y == y
  {
  }

  lemma {:induction false} LastDay()
    ensures (HORIZON - 1) / 86400 == 2932896 && FromDays(2932896).y == 9999
  {
    HorizonDay();
    NextDayCount(2932896);
    EndsAYear(FromDays(2932896), 9999);
    assert HORIZON - 1 == 86400 * 2932896 + 86399;
  }

  /** The last instant of the year 9999 sorts behind the first of the year 10000. */
  lemma {:induction false} HorizonDoesNotSort()
    ensures !Sorts(Utc(HORIZON - 1), Utc(HORIZON))
  {
    HorizonDay();
    LastDay();
    TenThousand();
    assert Utc(HORIZON - 1)[0] == '9' && Utc(HORIZON)[0] == '1';
  }

  /** Stamps sort as instants up to a limit exactly when the limit is at most the year 10000. */
  lemma {:induction false} SortsUntil(limit: nat)
    ensures (forall a: nat, b: nat | a < limit && b < limit :: Sorts(Utc(a), Utc(b)) <==> a < b) <==> limit <= HORIZON
  {
    if limit <= HORIZON {
      forall a: nat, b: nat | a < limit && b < limit
        ensures Sorts(Utc(a), Utc(b)) <==> a < b
      {
        BelowTheHorizon(a);
        BelowTheHorizon(b);
        StampsSort(a, b);
      }
    } else {
      HorizonDoesNotSort();
    }
  }
}
