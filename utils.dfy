/** The helper functions of parking_gateout_app/utils.py: identifiers, duration
    text, licence plates, input sanitising, truncation, overstay fees, business
    hours and reporting periods. The clock and the random generator are
    parameters: `now` is the instant the source reads from datetime.now(), and the
    random suffix is the string random.choices would draw. */
module Utils {
  import opened Common
  import opened Calendar
  import opened Seqs

  // ---------------------------------------------------------------------------
  // Ticket numbers and transaction ids

  /** The alphabet of the random suffix: string.ascii_uppercase + string.digits. */
  predicate IsIdChar(c: char)
  {
    IsUpper(c) || IsDigit(c)
  }

  predicate IsRandomPart(s: string, k: nat)
  {
    |s| == k && forall i :: 0 <= i < |s| ==> IsIdChar(s[i])
  }

  predicate AllDigits(s: string)
  {
    forall i :: 0 <= i < |s| ==> IsDigit(s[i])
  }

  /** strftime('%Y%m%d') */
  function DateStamp(d: Date): (s: string)
    requires ValidDate(d)
    ensures |s| == 8 && AllDigits(s)
  {
    assert Pow10(2) == 100 && Pow10(4) == 10000;
    Padded(d.year, 4) + Padded(d.month, 2) + Padded(d.day, 2)
  }

  /** strftime('%Y%m%d%H%M%S') */
  function TimeStamp(t: DateTime): (s: string)
    requires ValidDateTime(t)
    ensures |s| == 14 && AllDigits(s)
  {
    assert Pow10(2) == 100;
    DateStamp(t.date) + Padded(t.hour, 2) + Padded(t.minute, 2) + Padded(t.second, 2)
  }

  /** Reads the fields of an eight-digit date stamp. */
  function ReadDate(s: string): Date
    requires |s| == 8 && AllDigits(s)
  {
    Date(ParseDigits(s[..4]), ParseDigits(s[4..6]), ParseDigits(s[6..]))
  }

  /** Reads the fields of a fourteen-digit time stamp. */
  function ReadDateTime(s: string): DateTime
    requires |s| == 14 && AllDigits(s)
  {
    DateTime(ReadDate(s[..8]), ParseDigits(s[8..10]), ParseDigits(s[10..12]), ParseDigits(s[12..]))
  }

  lemma DateStampRoundTrip(d: Date)
    requires ValidDate(d)
    ensures ReadDate(DateStamp(d)) == d
  {
    assert Pow10(2) == 100 && Pow10(4) == 10000;
    var s := DateStamp(d);
    assert s[..4] == Padded(d.year, 4);
    assert s[4..6] == Padded(d.month, 2);
    assert s[6..] == Padded(d.day, 2);
    PaddedRoundTrip(d.year, 4);
    PaddedRoundTrip(d.month, 2);
    PaddedRoundTrip(d.day, 2);
  }

  lemma TimeStampRoundTrip(t: DateTime)
    requires ValidDateTime(t)
    ensures ReadDateTime(TimeStamp(t)) == t
  {
    assert Pow10(2) == 100;
    var s := TimeStamp(t);
    assert s[..8] == DateStamp(t.date);
    assert s[8..10] == Padded(t.hour, 2);
    assert s[10..12] == Padded(t.minute, 2);
    assert s[12..] == Padded(t.second, 2);
    DateStampRoundTrip(t.date);
    PaddedRoundTrip(t.hour, 2);
    PaddedRoundTrip(t.minute, 2);
    PaddedRoundTrip(t.second, 2);
  }

  /** A date stamp is determined by the date it reads as. */
  lemma DateStampExact(s: string)
    requires |s| == 8 && AllDigits(s) && ValidDate(ReadDate(s))
    ensures DateStamp(ReadDate(s)) == s
  {
    var d := ReadDate(s);
    PaddedOfParse(s[..4]);
    PaddedOfParse(s[4..6]);
    PaddedOfParse(s[6..]);
    assert DateStamp(d) == s[..4] + s[4..6] + s[6..];
    assert s == s[..4] + s[4..6] + s[6..];
  }

  lemma TimeStampExact(s: string)
    requires |s| == 14 && AllDigits(s) && ValidDateTime(ReadDateTime(s))
    ensures TimeStamp(ReadDateTime(s)) == s
  {
    DateStampExact(s[..8]);
    PaddedOfParse(s[8..10]);
    PaddedOfParse(s[10..12]);
    PaddedOfParse(s[12..]);
    assert s == s[..8] + s[8..10] + s[10..12] + s[12..];
  }

  /** The shape of a ticket number: "TKT-", a date stamp of a real date, "-", four id characters. */
  predicate IsTicketNumber(s: string)
  {
    |s| == 17 && s[..4] == "TKT-" && AllDigits(s[4..12]) && s[12] == '-'
    && IsRandomPart(s[13..], 4) && ValidDate(ReadDate(s[4..12]))
  }

  /** generate_ticket_number(), with the clock and the random draw as parameters. */
  function TicketNumber(now: DateTime, randomPart: string): (r: string)
    requires ValidDateTime(now) && IsRandomPart(randomPart, 4)
    ensures IsTicketNumber(r)
    ensures ReadDate(r[4..12]) == now.date && r[13..] == randomPart
  {
    var r := "TKT-" + DateStamp(now.date) + "-" + randomPart;
    assert r[4..12] == DateStamp(now.date);
    assert r[13..] == randomPart;
    DateStampRoundTrip(now.date);
    r
  }

  /** Every string of the ticket-number shape is the number issued on its date with its suffix. */
  lemma TicketNumberExact(s: string, now: DateTime)
    requires IsTicketNumber(s) && ValidDateTime(now) && now.date == ReadDate(s[4..12])
    ensures TicketNumber(now, s[13..]) == s
  {
    var stamp := s[4..12];
    DateStampExact(stamp);
    Reassemble(s, 4, 12);
    assert TicketNumber(now, s[13..]) == "TKT-" + stamp + "-" + s[13..];
  }

  /** A string is its prefix, a middle part, one separator and the rest. */
  lemma Reassemble(s: string, i: nat, j: nat)
    requires i <= j < |s|
    ensures s == s[..i] + s[i..j] + [s[j]] + s[j + 1..]
  {
  }

  /** The shape of a transaction id: "TRX-", a time stamp of a real instant, "-", six id characters. */
  predicate IsTransactionId(s: string)
  {
    |s| == 25 && s[..4] == "TRX-" && AllDigits(s[4..18]) && s[18] == '-'
    && IsRandomPart(s[19..], 6) && ValidDateTime(ReadDateTime(s[4..18]))
  }

  /** generate_transaction_id(), with the clock and the random draw as parameters. */
  function TransactionId(now: DateTime, randomPart: string): (r: string)
    requires ValidDateTime(now) && IsRandomPart(randomPart, 6)
    ensures IsTransactionId(r)
    ensures ReadDateTime(r[4..18]) == now && r[19..] == randomPart
  {
    var r := "TRX-" + TimeStamp(now) + "-" + randomPart;
    TransactionIdParts("TRX-", TimeStamp(now), randomPart);
    TimeStampRoundTrip(now);
    r
  }

  lemma TransactionIdParts(prefix: string, stamp: string, randomPart: string)
    requires |prefix| == 4 && |stamp| == 14
    ensures var r := prefix + stamp + "-" + randomPart;
      && |r| == 19 + |randomPart| && r[..4] == prefix && r[4..18] == stamp && r[18] == '-' && r[19..] == randomPart
  {
    var r := prefix + stamp + "-" + randomPart;
    assert r[..4] == prefix;
    assert r[4..18] == stamp;
    assert r[19..] == randomPart;
  }

  lemma TransactionIdExact(s: string)
    requires IsTransactionId(s)
    ensures TransactionId(ReadDateTime(s[4..18]), s[19..]) == s
  {
    var stamp := s[4..18];
    TimeStampExact(stamp);
    Reassemble(s, 4, 18);
    assert TransactionId(ReadDateTime(stamp), s[19..]) == "TRX-" + stamp + "-" + s[19..];
  }

  // ---------------------------------------------------------------------------
  // calculate_duration

  /** divmod(total_seconds, 3600), then divmod(remainder, 60), dropping the seconds. */
  function DurationParts(totalSeconds: int): (r: (int, int))
    ensures 0 <= r.1 < 60
    ensures r.0 * 3600 + r.1 * 60 <= totalSeconds < r.0 * 3600 + r.1 * 60 + 60
  {
    var hours := totalSeconds / 3600;
    var remainder := totalSeconds % 3600;
    (hours, remainder / 60)
  }

  /** A unit word, plural unless the count is exactly 1. */
  function Unit(word: string, count: int): string
  {
    word + (if count != 1 then "s" else "")
  }

  /** calculate_duration(start_time, end_time), times as timestamps: the f-string
      "{hours} hour{s} {minutes} minute{s}", or "{minutes} minute{s}" without whole hours. */
  function FormatDuration(start: int, end: int): string
  {
    var (hours, minutes) := DurationParts(end - start);
    if hours > 0 then
      Decimal(hours) + " " + Unit("hour", hours) + " " + Decimal(minutes) + " " + Unit("minute", minutes)
    else
      Decimal(minutes) + " " + Unit("minute", minutes)
  }

  predicate IsNumeral(w: string)
  {
    |w| >= 1 && AllDigits(w)
  }

  /** Reads a duration text back: the hours if it names them, and the minutes.
      Only grammatical texts are accepted: a unit is singular exactly when its count is 1. */
  function ReadDuration(s: string): Option<(Option<nat>, nat)>
  {
    var w := Split(s, ' ');
    if |w| == 4 && IsNumeral(w[0]) && IsNumeral(w[2])
       && w[1] == Unit("hour", ParseDigits(w[0])) && w[3] == Unit("minute", ParseDigits(w[2]))
    then Some((Some(ParseDigits(w[0])), ParseDigits(w[2])))
    else if |w| == 2 && IsNumeral(w[0]) && w[1] == Unit("minute", ParseDigits(w[0]))
    then Some((None, ParseDigits(w[0])))
    else None
  }

  lemma DecimalNumeral(n: nat)
    ensures IsNumeral(Decimal(n)) && ' ' !in Decimal(n) && ParseDigits(Decimal(n)) == n
  {
    DecimalRoundTrip(n);
  }

  lemma UnitHasNoSpace(word: string, count: int)
    requires ' ' !in word
    ensures ' ' !in Unit(word, count)
  {
  }

  lemma SplitTwoWords(a: string, b: string)
    requires ' ' !in a && ' ' !in b
    ensures Split(a + " " + b, ' ') == [a, b]
  {
    SplitAppend(a, b, ' ');
    SplitNoSep(b, ' ');
  }

  lemma SplitThreeWords(b: string, c: string, d: string)
    requires ' ' !in b && ' ' !in c && ' ' !in d
    ensures Split(b + " " + c + " " + d, ' ') == [b, c, d]
  {
    var cd := c + " " + d;
    SplitTwoWords(c, d);
    SplitAppend(b, cd, ' ');
    assert b + " " + c + " " + d == b + [' '] + cd;
  }

  lemma SplitFourWords(a: string, b: string, c: string, d: string)
    requires ' ' !in a && ' ' !in b && ' ' !in c && ' ' !in d
    ensures Split(a + " " + b + " " + c + " " + d, ' ') == [a, b, c, d]
  {
    var bcd := b + " " + c + " " + d;
    SplitThreeWords(b, c, d);
    SplitAppend(a, bcd, ' ');
    assert a + " " + b + " " + c + " " + d == a + [' '] + bcd;
  }

  /** The duration text names the hours exactly when there is at least one whole hour,
      always names the whole minutes, and puts each unit in the singular exactly when
      its count is 1. */
  lemma DurationTextRoundTrip(start: int, end: int)
    ensures var (hours, minutes) := DurationParts(end - start);
      ReadDuration(FormatDuration(start, end))
        == Some((if hours > 0 then Some(hours) else None, minutes))
  {
    var (hours, minutes) := DurationParts(end - start);
    DecimalNumeral(minutes);
    UnitHasNoSpace("minute", minutes);
    if hours > 0 {
      DecimalNumeral(hours);
      UnitHasNoSpace("hour", hours);
      SplitFourWords(Decimal(hours), Unit("hour", hours), Decimal(minutes), Unit("minute", minutes));
    } else {
      SplitTwoWords(Decimal(minutes), Unit("minute", minutes));
    }
  }

  // ---------------------------------------------------------------------------
  // validate_license_plate

  predicate NotSpace(c: char)
  {
    c != ' '
  }

  /** plate_number.replace(" ", "") */
  function RemoveSpaces(s: string): string
  {
    Filter(s, NotSpace)
  }

  /** validate_license_plate: the length bound is checked on the plate as given,
      the letter and digit tests on the plate with its spaces removed. */
  function ValidLicensePlate(plate: string): (ok: bool)
    ensures ok <==> 3 <= |plate| <= 10
                    && (exists i :: 0 <= i < |plate| && IsLetter(plate[i]))
                    && (exists j :: 0 <= j < |plate| && IsDigit(plate[j]))
  {
    if plate == "" || |plate| < 3 || |plate| > 10 then false
    else
      var p := RemoveSpaces(plate);
      SpacesIrrelevant(plate);
      Exists(p, IsLetter) && Exists(p, IsDigit)
  }

  /** Removing spaces keeps every letter and every digit, and adds none. */
  lemma SpacesIrrelevant(s: string)
    ensures (exists i :: 0 <= i < |RemoveSpaces(s)| && IsLetter(RemoveSpaces(s)[i]))
        <==> (exists i :: 0 <= i < |s| && IsLetter(s[i]))
    ensures (exists i :: 0 <= i < |RemoveSpaces(s)| && IsDigit(RemoveSpaces(s)[i]))
        <==> (exists i :: 0 <= i < |s| && IsDigit(s[i]))
  {
    var r := RemoveSpaces(s);
    if i :| 0 <= i < |s| && IsLetter(s[i]) {
      assert s[i] in r;
    }
    if i :| 0 <= i < |s| && IsDigit(s[i]) {
      assert s[i] in r;
    }
  }

  // ---------------------------------------------------------------------------
  // sanitize_input

  /** The characters sanitize_input keeps: alphanumerics and " -_.,". */
  predicate Allowed(c: char)
  {
    IsAlnum(c) || c == ' ' || c == '-' || c == '_' || c == '.' || c == ','
  }

  function StripLeading(s: string): (r: string)
    ensures |r| <= |s| && r == s[|s| - |r|..]
    ensures forall i :: 0 <= i < |s| - |r| ==> s[i] == ' '
    ensures r != [] ==> r[0] != ' '
    decreases |s|
  {
    if s != [] && s[0] == ' ' then StripLeading(s[1..]) else s
  }

  function StripTrailing(s: string): (r: string)
    ensures |r| <= |s| && r == s[..|r|]
    ensures forall i :: |r| <= i < |s| ==> s[i] == ' '
    ensures r != [] ==> r[|r| - 1] != ' '
    decreases |s|
  {
    if s != [] && s[|s| - 1] == ' ' then StripTrailing(s[..|s| - 1]) else s
  }

  /** str.strip() on a string whose only whitespace is the space character. */
  function Strip(s: string): (r: string)
    ensures r != [] ==> r[0] != ' ' && r[|r| - 1] != ' '
  {
    StripTrailing(StripLeading(s))
  }

  /** Only spaces lie outside s[a..b]. */
  predicate SpacesOutside(s: string, a: nat, b: nat)
    requires a <= b <= |s|
  {
    (forall i :: 0 <= i < a ==> s[i] == ' ') && (forall i :: b <= i < |s| ==> s[i] == ' ')
  }

  /** Strip removes spaces at the two ends and nothing else: its result is a slice of s
      with only spaces around it. */
  lemma StripIsTrim(s: string)
    ensures exists a: nat, b: nat :: a <= b <= |s| && Strip(s) == s[a..b] && SpacesOutside(s, a, b)
  {
    var a, b := StripBounds(s);
  }

  /** Where Strip cuts: after the leading spaces and before the trailing ones. */
  lemma StripBounds(s: string) returns (a: nat, b: nat)
    ensures a <= b <= |s| && Strip(s) == s[a..b] && SpacesOutside(s, a, b)
  {
    var l := StripLeading(s);
    var r := StripTrailing(l);
    a := |s| - |l|;
    b := a + |r|;
    PrefixOfSuffix(s, a, l, r);
    SpacesAfter(s, a, l, |r|);
  }

  lemma PrefixOfSuffix(s: string, a: nat, l: string, r: string)
    requires a <= |s| && l == s[a..] && |r| <= |l| && r == l[..|r|]
    ensures r == s[a..a + |r|]
  {
  }

  lemma SpacesAfter(s: string, a: nat, l: string, n: nat)
    requires a <= |s| && l == s[a..] && n <= |l|
    requires forall i :: n <= i < |l| ==> l[i] == ' '
    ensures forall i :: a + n <= i < |s| ==> s[i] == ' '
  {
    forall i | a + n <= i < |s|
      ensures s[i] == ' '
    {
      assert s[i] == l[i - a];
    }
  }

  lemma StripIsSubsequence(s: string)
    ensures IsSubsequence(Strip(s), s)
  {
    var a, b := StripBounds(s);
    SliceIsSubsequence(s, a, b);
  }

  /** IsSubsequence(a, b): a is b with some elements deleted. */
  predicate IsSubsequence(a: string, b: string)
    decreases |b|
  {
    a == [] ||
    (b != [] && ((a[|a| - 1] == b[|b| - 1] && IsSubsequence(a[..|a| - 1], b[..|b| - 1]))
                 || IsSubsequence(a, b[..|b| - 1])))
  }

  lemma {:induction false} SubsequenceTransitive(a: string, b: string, c: string)
    requires IsSubsequence(a, b) && IsSubsequence(b, c)
    ensures IsSubsequence(a, c)
    decreases |c|
  {
    if a != [] {
      assert b != [] && c != [];
      var c' := c[..|c| - 1];
      if IsSubsequence(b, c') {
        SubsequenceTransitive(a, b, c');
      } else {
        var b' := b[..|b| - 1];
        assert b[|b| - 1] == c[|c| - 1] && IsSubsequence(b', c');
        if a[|a| - 1] == b[|b| - 1] && IsSubsequence(a[..|a| - 1], b') {
          SubsequenceTransitive(a[..|a| - 1], b', c');
        } else {
          SubsequenceTransitive(a, b', c');
        }
      }
    }
  }

  lemma {:induction false} SliceIsSubsequence(s: string, i: nat, j: nat)
    requires i <= j <= |s|
    ensures IsSubsequence(s[i..j], s)
    decreases |s|
  {
    if i < j {
      var s' := s[..|s| - 1];
      if j == |s| {
        assert s[i..j][..j - i - 1] == s'[i..j - 1];
        SliceIsSubsequence(s', i, j - 1);
      } else {
        assert s[i..j] == s'[i..j];
        SliceIsSubsequence(s', i, j);
      }
    }
  }

  lemma {:induction false} FilterIsSubsequence(s: string, p: char -> bool)
    ensures IsSubsequence(Filter(s, p), s)
    decreases |s|
  {
    if s != [] {
      var s' := s[..|s| - 1];
      FilterIsSubsequence(s', p);
      if p(s[|s| - 1]) {
        assert Filter(s, p)[..|Filter(s, p)| - 1] == Filter(s', p);
      }
    }
  }

  /** sanitize_input: drop every character outside the allowed set, then strip. The result
      is the allowed characters of the text, in order, less the spaces at the two ends:
      a slice of them with only spaces around it and no space at either end of it. */
  function Sanitize(text: string): (r: string)
    ensures text == "" ==> r == ""
    ensures IsSubsequence(r, text)
    ensures forall i :: 0 <= i < |r| ==> Allowed(r[i])
    ensures r != [] ==> r[0] != ' ' && r[|r| - 1] != ' '
    ensures var kept := Filter(text, Allowed);
      exists a: nat, b: nat :: a <= b <= |kept| && r == kept[a..b] && SpacesOutside(kept, a, b)
  {
    if text == "" then
      assert Filter(text, Allowed)[0..0] == "";
      ""
    else
      var kept := Filter(text, Allowed);
      var r := Strip(kept);
      StripIsTrim(kept);
      StripIsSubsequence(kept);
      FilterIsSubsequence(text, Allowed);
      SubsequenceTransitive(r, kept, text);
      r
  }

  /** Sanitising twice is sanitising once. */
  lemma SanitizeIdempotent(text: string)
    ensures Sanitize(Sanitize(text)) == Sanitize(text)
  {
    var r := Sanitize(text);
    if r != "" {
      FilterAll(r, Allowed);
      assert StripLeading(r) == r;
      assert StripTrailing(r) == r;
    }
  }

  // ---------------------------------------------------------------------------
  // truncate_string

  /** Python's s[:n], negative n counting from the end. */
  function SliceTo(s: string, n: int): string
  {
    if n >= 0 then (if n <= |s| then s[..n] else s)
    else (if |s| + n > 0 then s[..|s| + n] else "")
  }

  /** truncate_string(text, max_length=50). */
  function Truncate(text: string, maxLength: int := 50): (r: string)
    ensures text == "" ==> r == ""
    ensures |text| <= maxLength ==> r == text
    ensures text != "" && |text| > maxLength && maxLength >= 3 ==>
      |r| == maxLength && r[..maxLength - 3] == text[..maxLength - 3] && r[maxLength - 3..] == "..."
    ensures text != "" && |text| > maxLength && maxLength < 3 ==>
      |r| >= 3 && |r| > maxLength && r[|r| - 3..] == "..." && IsSubsequence(r[..|r| - 3], text)
  {
    if text == "" then ""
    else if |text| <= maxLength then text
    else
      var head := SliceTo(text, maxLength - 3);
      var r := head + "...";
      assert r[..|head|] == head && r[|head|..] == "...";
      SliceIsSubsequence(text, 0, |head|);
      assert head == text[0..|head|];
      r
  }

  // ---------------------------------------------------------------------------
  // calculate_overstay_fee

  /** The whole hours charged for an overstay: the overstay rounded up to the hour. */
  function OverstayHours(exitTime: int, expectedExitTime: int): (h: int)
    ensures exitTime <= expectedExitTime ==> h == 0
    ensures exitTime > expectedExitTime ==>
      h >= 1 && (h - 1) * 3600 < exitTime - expectedExitTime <= h * 3600
  {
    if exitTime <= expectedExitTime then 0
    else
      var overstay := exitTime - expectedExitTime;
      overstay / 3600 + (if overstay % 3600 > 0 then 1 else 0)
  }

  /** calculate_overstay_fee (before rounding to cents). */
  function OverstayFee(exitTime: int, expectedExitTime: int, hourlyRate: real): real
  {
    if exitTime <= expectedExitTime then 0.0
    else OverstayHours(exitTime, expectedExitTime) as real * hourlyRate
  }

  /** No fee without an overstay; otherwise each started hour is charged in full,
      so a later exit never costs less at a non-negative rate. */
  lemma OverstayFeeCharges(exitTime: int, laterExit: int, expectedExitTime: int, hourlyRate: real)
    requires exitTime <= laterExit && hourlyRate >= 0.0
    ensures exitTime <= expectedExitTime ==> OverstayFee(exitTime, expectedExitTime, hourlyRate) == 0.0
    ensures exitTime > expectedExitTime ==>
      OverstayFee(exitTime, expectedExitTime, hourlyRate) >= hourlyRate
    ensures OverstayFee(exitTime, expectedExitTime, hourlyRate)
         <= OverstayFee(laterExit, expectedExitTime, hourlyRate)
  {
    var h1 := OverstayHours(exitTime, expectedExitTime);
    var h2 := OverstayHours(laterExit, expectedExitTime);
    assert h1 <= h2;
    assert h1 as real <= h2 as real;
    if exitTime > expectedExitTime {
      assert 1.0 <= h1 as real;
    }
  }

  // ---------------------------------------------------------------------------
  // is_business_hours

  /** is_business_hours(): 8 AM up to, not including, 8 PM. */
  function IsBusinessHours(now: DateTime): (b: bool)
    requires ValidDateTime(now)
    ensures b <==> 8 * SecondsPerHour <= SecondOfDay(now) < 20 * SecondsPerHour
  {
    8 <= now.hour < 20
  }

  // ---------------------------------------------------------------------------
  // get_date_range

  /** The Monday of a date's week lies at most six days back, never before day one. */
  lemma WeekStart(d: Date)
    requires ValidDate(d)
    ensures Weekday(d) < Ordinal(d)
    ensures Weekday(DaysBack(d, Weekday(d))) == 0
  {
    var n := Ordinal(d);
    var w := Weekday(d);
    MondayArithmetic(n, w);
    MondayOf(DaysBack(d, w), n - w);
  }

  /** On day numbers: w = (n + 6) % 7 days back from day n is a day numbered 7k + 1. */
  lemma MondayArithmetic(n: int, w: int)
    requires n >= 1 && w == (n + 6) % 7
    ensures w < n && (n - w + 6) % 7 == 0
  {
    var q := (n + 6) / 7;
    assert n - w + 6 == 7 * q;
    MultipleOfSeven(q);
  }

  /** A day numbered 7k + 1 is a Monday. */
  lemma MondayOf(p: Date, m: int)
    requires ValidDate(p) && Ordinal(p) == m && (m + 6) % 7 == 0
    ensures Weekday(p) == 0
  {
  }

  lemma MultipleOfSeven(q: int)
    ensures (7 * q) % 7 == 0
  {
  }

  /** get_date_range(period): from a midnight up to now. */
  function DateRange(period: string, now: DateTime): (r: (DateTime, DateTime))
    requires ValidDateTime(now)
    ensures r.1 == now
    ensures ValidDateTime(r.0) && SecondOfDay(r.0) == 0
    ensures ToTimestamp(r.0) <= ToTimestamp(now)
    ensures period == "week" ==>
      Weekday(r.0.date) == 0 && Ordinal(now.date) - 7 < Ordinal(r.0.date) <= Ordinal(now.date)
    ensures period == "month" ==>
      r.0.date == Date(now.date.year, now.date.month, 1)
    ensures period == "year" ==> r.0.date == Date(now.date.year, 1, 1)
    ensures period != "week" && period != "month" && period != "year" ==> r.0.date == now.date
  {
    var d := now.date;
    var start :=
      if period == "today" then d
      else if period == "week" then
        WeekStart(d);
        DaysBack(d, Weekday(d))
      else if period == "month" then Date(d.year, d.month, 1)
      else if period == "year" then
        assert Ordinal(Date(d.year, 1, 1)) <= Ordinal(d);
        Date(d.year, 1, 1)
      else d;
    (Midnight(start), now)
  }
}
