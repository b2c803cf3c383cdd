/**
 * Instants and the two string forms the handler stores for them: the ISO
 * string of `toISOString()` (`YYYY-MM-DDTHH:mm:ss.SSSZ`) and the UTC day
 * `moment.utc(..).format('YYYY-MM-DD')`. Both are taken in UTC, so the
 * New York offset applied to the moment before formatting does not change
 * them. `new Date(iso)` is `ParseIso`, and comparing `getTime()` values is
 * `AtOrBefore`.
 */
module Clock {

  import opened Wrappers
  import opened JsText

  /** A UTC instant as civil fields. */
  datatype DateTime = DateTime(year: int, month: int, day: int,
                               hour: int, minute: int, second: int, milli: int)

  predicate IsLeapYear(y: int)
  {
    y % 4 == 0 && (y % 100 != 0 || y % 400 == 0)
  }

  function DaysInMonth(y: int, m: int): int
  {
    if m == 2 then (if IsLeapYear(y) then 29 else 28)
    else if m == 4 || m == 6 || m == 9 || m == 11 then 30
    else 31
  }

  predicate ValidDateTime(t: DateTime)
  {
    && 0 <= t.year <= 9999
    && 1 <= t.month <= 12
    && 1 <= t.day <= DaysInMonth(t.year, t.month)
    && 0 <= t.hour < 24 && 0 <= t.minute < 60 && 0 <= t.second < 60
    && 0 <= t.milli < 1000
  }

  /** The instants whose ISO string has a four-digit year. */
  type Instant = t: DateTime | ValidDateTime(t) witness DateTime(1970, 1, 1, 0, 0, 0, 0)

  /** `a.getTime() <= b.getTime()`: chronological order is the lexicographic order of the fields. */
  predicate AtOrBefore(a: Instant, b: Instant)
  {
    if a.year != b.year then a.year < b.year
    else if a.month != b.month then a.month < b.month
    else if a.day != b.day then a.day < b.day
    else if a.hour != b.hour then a.hour < b.hour
    else if a.minute != b.minute then a.minute < b.minute
    else if a.second != b.second then a.second < b.second
    else a.milli <= b.milli
  }

  predicate IsDigit(c: char)
  {
    '0' <= c <= '9'
  }

  /** Every character is a decimal digit; checked from the last one, as `Number` reads them. */
  predicate AllDigits(s: string)
  {
    s == [] || (IsDigit(s[|s| - 1]) && AllDigits(s[..|s| - 1]))
  }

  function Pow10(w: nat): nat
  {
    if w == 0 then 1 else 10 * Pow10(w - 1)
  }

  /** `n` written with `w` decimal digits, zero-filled on the left. */
  function Pad(n: nat, w: nat): (r: string)
    ensures |r| == w
    ensures AllDigits(r)
  {
    if w == 0 then ""
    else
      var x := Pad(n / 10, w - 1);
      var r := x + [('0' as int + n % 10) as char];
      assert r[..|r| - 1] == x;
      r
  }

  /** The value of a string of decimal digits. */
  function Number(s: string): nat
    requires AllDigits(s)
  {
    if s == [] then 0 else Number(s[..|s| - 1]) * 10 + (s[|s| - 1] as int - '0' as int)
  }

  /** Dropping the last decimal digit of a number below `10 * p` leaves a number below `p`. */
  lemma DropDigit(n: nat, p: nat)
    requires n < 10 * p
    ensures n / 10 < p
  {
    assert 10 * (n / 10) <= n;
  }

  /** Appending a digit multiplies the value by ten and adds the digit. */
  lemma NumberSnoc(x: string, d: nat)
    requires AllDigits(x) && d < 10
    ensures AllDigits(x + [('0' as int + d) as char])
    ensures Number(x + [('0' as int + d) as char]) == Number(x) * 10 + d
  {
    var s := x + [('0' as int + d) as char];
    assert s[..|s| - 1] == x;
  }

  lemma DivMod10(n: nat)
    ensures n == (n / 10) * 10 + n % 10
  {
  }

  /** Reading a zero-filled number back gives the number. */
  lemma {:induction false} NumberPad(n: nat, w: nat)
    requires n < Pow10(w)
    ensures Number(Pad(n, w)) == n
  {
    if w > 0 {
      var m, d := n / 10, n % 10;
      assert Pad(n, w) == Pad(m, w - 1) + [('0' as int + d) as char];
      DropDigit(n, Pow10(w - 1));
      NumberPad(m, w - 1);
      NumberSnoc(Pad(m, w - 1), d);
      DivMod10(n);
    }
  }

  /** The UTC day of `t` as `YYYY-MM-DD`: the messages table's partition key. */
  function Ymd(t: Instant): string
  {
    Pad(t.year, 4) + "-" + Pad(t.month, 2) + "-" + Pad(t.day, 2)
  }

  /** The time part of the ISO string, `THH:mm:ss.SSSZ`. */
  function TimeOfDay(t: Instant): string
  {
    "T" + Pad(t.hour, 2) + ":" + Pad(t.minute, 2) + ":" + Pad(t.second, 2) + "." + Pad(t.milli, 3) + "Z"
  }

  /** `toISOString()` of `t`. */
  function IsoString(t: Instant): string
  {
    Ymd(t) + TimeOfDay(t)
  }

  /** `new Date(s)` for the 24-character ISO form; anything else is an invalid date. */
  function ParseIso(s: string): Option<Instant>
  {
    if |s| == 24
       && s[4] == '-' && s[7] == '-' && s[10] == 'T' && s[13] == ':' && s[16] == ':'
       && s[19] == '.' && s[23] == 'Z'
       && AllDigits(s[0..4]) && AllDigits(s[5..7]) && AllDigits(s[8..10])
       && AllDigits(s[11..13]) && AllDigits(s[14..16]) && AllDigits(s[17..19])
       && AllDigits(s[20..23])
    then
      var t := DateTime(Number(s[0..4]), Number(s[5..7]), Number(s[8..10]),
                        Number(s[11..13]), Number(s[14..16]), Number(s[17..19]),
                        Number(s[20..23]));
      if ValidDateTime(t) then Some(t) else None
    else None
  }

  /** The day string is the first ten characters of the ISO string. */
  lemma YmdPrefixOfIso(t: Instant)
    ensures |Ymd(t)| == 10 && |IsoString(t)| == 24
    ensures StartsWith(IsoString(t), Ymd(t))
  {
    var y := Ymd(t);
    var s := IsoString(t);
    assert s == y + (s[10..]);
  }

  /** A zero-filled field of the ISO string reads back as its value. */
  lemma FieldReads(s: string, i: nat, w: nat, n: nat)
    requires i + w <= |s| && s[i..i + w] == Pad(n, w) && n < Pow10(w)
    ensures AllDigits(s[i..i + w]) && Number(s[i..i + w]) == n
  {
    NumberPad(n, w);
  }

  /** Where the separators and the seven fields sit in the day string. */
  lemma YmdLayout(t: Instant)
    ensures var s := Ymd(t);
            |s| == 10 && s[4] == '-' && s[7] == '-'
            && s[0..4] == Pad(t.year, 4) && s[5..7] == Pad(t.month, 2) && s[8..10] == Pad(t.day, 2)
  {
  }

  /** Where the separators and the four fields sit in the time part. */
  lemma TimeLayout(t: Instant)
    ensures var s := TimeOfDay(t);
            |s| == 14 && s[0] == 'T' && s[3] == ':' && s[6] == ':' && s[9] == '.' && s[13] == 'Z'
            && s[1..3] == Pad(t.hour, 2) && s[4..6] == Pad(t.minute, 2)
            && s[7..9] == Pad(t.second, 2) && s[10..13] == Pad(t.milli, 3)
  {
  }

  /** Where the separators and the seven fields sit in the ISO string. */
  lemma IsoLayout(t: Instant)
    ensures var s := IsoString(t);
            && |s| == 24 && s[4] == '-' && s[7] == '-' && s[10] == 'T' && s[13] == ':'
            && s[16] == ':' && s[19] == '.' && s[23] == 'Z'
            && s[0..4] == Pad(t.year, 4) && s[5..7] == Pad(t.month, 2) && s[8..10] == Pad(t.day, 2)
            && s[11..13] == Pad(t.hour, 2) && s[14..16] == Pad(t.minute, 2)
            && s[17..19] == Pad(t.second, 2) && s[20..23] == Pad(t.milli, 3)
  {
    var y, r := Ymd(t), TimeOfDay(t);
    YmdLayout(t);
    TimeLayout(t);
    SliceLeft(y, r, 0, 4);
    SliceLeft(y, r, 5, 7);
    SliceLeft(y, r, 8, 10);
    SliceRight(y, r, 11, 13);
    SliceRight(y, r, 14, 16);
    SliceRight(y, r, 17, 19);
    SliceRight(y, r, 20, 23);
  }

  lemma SliceLeft(x: string, y: string, a: nat, b: nat)
    requires a <= b <= |x|
    ensures (x + y)[a..b] == x[a..b]
  {
  }

  lemma SliceRight(x: string, y: string, a: nat, b: nat)
    requires |x| <= a <= b <= |x| + |y|
    ensures (x + y)[a..b] == y[a - |x|..b - |x|]
  {
  }

  /** Parsing the stored ISO string recovers the instant. */
  lemma ParseIsoString(t: Instant)
    ensures ParseIso(IsoString(t)) == Some(t)
  {
    var s := IsoString(t);
    IsoLayout(t);
    assert Pow10(2) == 100 && Pow10(3) == 1000 && Pow10(4) == 10000;
    FieldReads(s, 0, 4, t.year);
    FieldReads(s, 5, 2, t.month);
    FieldReads(s, 8, 2, t.day);
    FieldReads(s, 11, 2, t.hour);
    FieldReads(s, 14, 2, t.minute);
    FieldReads(s, 17, 2, t.second);
    FieldReads(s, 20, 3, t.milli);
  }

  /** Two instants share a day bucket exactly when they fall on the same UTC date. */
  lemma SameYmd(a: Instant, b: Instant)
    ensures Ymd(a) == Ymd(b) <==> a.year == b.year && a.month == b.month && a.day == b.day
  {
    if Ymd(a) == Ymd(b) {
      var s := Ymd(a);
      YmdLayout(a);
      YmdLayout(b);
      assert Pow10(2) == 100 && Pow10(4) == 10000;
      FieldReads(s, 0, 4, a.year);
      FieldReads(s, 0, 4, b.year);
      FieldReads(s, 5, 2, a.month);
      FieldReads(s, 5, 2, b.month);
      FieldReads(s, 8, 2, a.day);
      FieldReads(s, 8, 2, b.day);
    }
  }

  /** `AtOrBefore` is a preorder: time does not run backwards between sweeps. */
  lemma AtOrBeforeTransitive(a: Instant, b: Instant, c: Instant)
    requires AtOrBefore(a, b) && AtOrBefore(b, c)
    ensures AtOrBefore(a, c)
  {
  }

  /** No comma occurs in an ISO string, so it can lead a comma-separated key. */
  lemma NoCommaInIso(t: Instant)
    ensures ',' !in IsoString(t)
  {
    NoCommaInDigits(Pad(t.year, 4));
    NoCommaInDigits(Pad(t.month, 2));
    NoCommaInDigits(Pad(t.day, 2));
    NoCommaInDigits(Pad(t.hour, 2));
    NoCommaInDigits(Pad(t.minute, 2));
    NoCommaInDigits(Pad(t.second, 2));
    NoCommaInDigits(Pad(t.milli, 3));
    assert ',' !in Ymd(t);
    assert ',' !in TimeOfDay(t);
  }

  lemma {:induction false} NoCommaInDigits(s: string)
    requires AllDigits(s)
    ensures ',' !in s
  {
    if s != [] {
      NoCommaInDigits(s[..|s| - 1]);
      assert s == s[..|s| - 1] + [s[|s| - 1]];
    }
  }
}
