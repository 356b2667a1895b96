/** The four field predicates of the contact form: `checkEmails`, `checkDate`,
    `isValidEmail` and `isValidPhone`. */
module Rules {
  import opened Text
  import opened Enquiry

  // ---------------------------------------------------------------- checkEmails

  /** `email.trim().toLowerCase() === confirmEmail.trim().toLowerCase()` */
  predicate CheckEmails(email: string, confirmEmail: string) {
    ToLower(Trim(email)) == ToLower(Trim(confirmEmail))
  }

  /** The comparison is an equivalence: reflexive, symmetric and transitive. */
  lemma CheckEmailsEquivalence(a: string, b: string, c: string)
    ensures CheckEmails(a, a)
    ensures CheckEmails(a, b) <==> CheckEmails(b, a)
    ensures CheckEmails(a, b) && CheckEmails(b, c) ==> CheckEmails(a, c)
  {
  }

  /** Case does not matter: the two addresses are compared after lower-casing
      the whole string, so the comparison equals trimming the lower-cased strings. */
  lemma CheckEmailsIgnoresCase(a: string, b: string)
    ensures CheckEmails(a, b) <==> Trim(ToLower(a)) == Trim(ToLower(b))
    ensures ToLower(a) == ToLower(b) ==> CheckEmails(a, b)
  {
    TrimToLower(a);
    TrimToLower(b);
  }

  /** White space around either address does not matter. */
  lemma CheckEmailsIgnoresMargins(w1: string, a: string, w2: string, b: string)
    requires AllSpace(w1) && AllSpace(w2)
    ensures CheckEmails(w1 + a + w2, b) <==> CheckEmails(a, b)
    ensures CheckEmails(b, w1 + a + w2) <==> CheckEmails(b, a)
  {
    TrimIgnoresMargins(w1, a, w2);
  }

  // ------------------------------------------------------------------ checkDate

  /** `checkDate(dateStr)`: false for the empty string; otherwise the chosen day
      must come at least one calendar day after today. A string that names no
      date gives `Invalid Date`, whose difference is NaN, and NaN >= 1 is false. */
  predicate CheckDate(dateStr: string, clock: Clock) {
    if dateStr == "" then false
    else match clock.dayOf(dateStr)
      case None => false
      case Some(day) => day - clock.today >= 1
  }

  /** Today and every earlier day are rejected, tomorrow and every later day
      accepted; an empty or unreadable date is rejected. */
  lemma CheckDateDays(dateStr: string, clock: Clock)
    ensures dateStr == "" ==> !CheckDate(dateStr, clock)
    ensures clock.dayOf(dateStr).None? ==> !CheckDate(dateStr, clock)
    ensures dateStr != "" && clock.dayOf(dateStr).Some? ==>
              (CheckDate(dateStr, clock) <==> clock.dayOf(dateStr).value > clock.today)
  {
  }

  /** A day accepted today is still accepted on any earlier day. */
  lemma CheckDateEarlierToday(dateStr: string, clock: Clock, earlier: int)
    requires earlier <= clock.today
    ensures CheckDate(dateStr, clock) ==> CheckDate(dateStr, Clock(earlier, clock.dayOf))
  {
  }

  // The date check as the browser runs it. `new Date("YYYY-MM-DD")` reads a
  // date-only string as midnight UTC; `setHours(0, 0, 0, 0)` then moves to
  // midnight of the LOCAL day containing that instant. Instants are
  // milliseconds since the epoch; `offset` is local time minus UTC, taken as
  // constant (no daylight-saving change between the two days).

  const DayMs: int := 86400000

  /** The local calendar day containing instant `t`. */
  function LocalDay(t: int, offset: int): int {
    (t + offset) / DayMs
  }

  /** `d.setHours(0, 0, 0, 0)`: the instant of local midnight of that day. */
  function LocalMidnight(t: int, offset: int): int {
    LocalDay(t, offset) * DayMs - offset
  }

  /** `checkDate` on a non-empty date string naming day `selectedDay`, run at
      instant `now`: the difference of the two local midnights, in days, is
      compared with 1. */
  predicate CheckDateInBrowser(selectedDay: int, now: int, offset: int) {
    var selected := LocalMidnight(selectedDay * DayMs, offset);
    var today := LocalMidnight(now, offset);
    (selected - today) as real / DayMs as real >= 1.0
  }

  /** The local day of a date string's UTC midnight: the named day itself at
      or east of Greenwich, the day before west of it. */
  lemma UtcMidnightLocalDay(day: int, offset: int)
    requires -DayMs < offset < DayMs
    ensures LocalDay(day * DayMs, offset) == if offset < 0 then day - 1 else day
  {
    var q := if offset < 0 then day - 1 else day;
    assert q * DayMs <= day * DayMs + offset < q * DayMs + DayMs;
  }

  /** Both local midnights are whole days apart, so the browser's check
      compares local day numbers; west of Greenwich the chosen day has slid
      back by one. */
  lemma BrowserCompares(selectedDay: int, now: int, offset: int)
    requires -DayMs < offset < DayMs
    ensures CheckDateInBrowser(selectedDay, now, offset) <==>
              (if offset < 0 then selectedDay - 1 else selectedDay) >= LocalDay(now, offset) + 1
  {
    UtcMidnightLocalDay(selectedDay, offset);
    var ds := LocalDay(selectedDay * DayMs, offset);
    var dt := LocalDay(now, offset);
    var diff := LocalMidnight(selectedDay * DayMs, offset) - LocalMidnight(now, offset);
    assert diff == (ds - dt) * DayMs;
    assert diff as real / DayMs as real == (ds - dt) as real;
  }

  /** At or east of Greenwich the browser's check is the calendar-day rule. */
  lemma BrowserAgreesEast(dateStr: string, now: int, offset: int, clock: Clock)
    requires 0 <= offset < DayMs
    requires dateStr != "" && clock.dayOf(dateStr).Some?
    requires clock.today == LocalDay(now, offset)
    ensures CheckDateInBrowser(clock.dayOf(dateStr).value, now, offset) <==> CheckDate(dateStr, clock)
  {
    BrowserCompares(clock.dayOf(dateStr).value, now, offset);
  }

  /** West of Greenwich, tomorrow is rejected although it is one calendar day
      ahead: at any negative offset (New York is UTC-4 in summer), on any day,
      choosing the next day fails. */
  lemma BrowserRejectsTomorrowWest(dateStr: string, now: int, offset: int, clock: Clock)
    requires -DayMs < offset < 0
    requires dateStr != ""
    requires clock.today == LocalDay(now, offset)
    requires clock.dayOf(dateStr) == Some(clock.today + 1)
    ensures CheckDate(dateStr, clock)
    ensures !CheckDateInBrowser(clock.today + 1, now, offset)
  {
    BrowserCompares(clock.today + 1, now, offset);
  }

  // -------------------------------------------------------------- isValidEmail

  /** No character of `s[lo..hi]` is white space or '@': the class `[^\s@]`. */
  predicate Clean(s: string, lo: int, hi: int)
    requires 0 <= lo && hi <= |s|
  {
    forall k :: lo <= k < hi ==> !IsSpace(s[k]) && s[k] != '@'
  }

  /** The language of `/^[^\s@]+@[^\s@]+\.[^\s@]+$/`: a non-empty local part, '@',
      then a domain with a '.' that has non-empty text on both sides, and no white
      space or second '@' anywhere. */
  ghost predicate EmailPattern(s: string) {
    exists i, k :: 0 < i && i + 1 < k && k + 1 < |s| && s[i] == '@' && s[k] == '.'
      && Clean(s, 0, i) && Clean(s, i + 1, k) && Clean(s, k + 1, |s|)
  }

  /** Index of the first '@', or `|s|` when there is none. */
  function FirstAt(s: string): (n: nat)
    ensures n <= |s|
    ensures forall k :: 0 <= k < n ==> s[k] != '@'
    ensures n < |s| ==> s[n] == '@'
  {
    if s == [] || s[0] == '@' then 0 else 1 + FirstAt(s[1..])
  }

  /** `isValidEmail(email)`, decided by a scan: split at the first '@', check
      both sides for white space and '@', then look for a '.' in the domain that
      is neither its first nor its last character. */
  function IsValidEmail(s: string): (ok: bool)
    ensures ok <==> EmailPattern(s)
  {
    var i := FirstAt(s);
    var ok := 0 < i < |s| && Clean(s, 0, i) && Clean(s, i + 1, |s|)
      && exists k :: i + 1 < k < |s| - 1 && s[k] == '.';
    assert ok ==> EmailPattern(s) by {
      if ok {
        var k :| i + 1 < k < |s| - 1 && s[k] == '.';
        assert Clean(s, i + 1, k) && Clean(s, k + 1, |s|);
      }
    }
    assert EmailPattern(s) ==> ok by {
      if EmailPattern(s) {
        var i', k :| 0 < i' && i' + 1 < k && k + 1 < |s| && s[i'] == '@' && s[k] == '.'
          && Clean(s, 0, i') && Clean(s, i' + 1, k) && Clean(s, k + 1, |s|);
        assert i == i';
        assert Clean(s, i + 1, |s|) by {
          forall m | i + 1 <= m < |s| ensures !IsSpace(s[m]) && s[m] != '@' {
            if m == k {
              assert s[m] == '.';
            }
          }
        }
      }
    }
    ok
  }

  /** An accepted address has exactly one '@' and no white space, so an address
      with white space around it, or inside it, is rejected. */
  lemma ValidEmailHasNoSpace(s: string)
    requires IsValidEmail(s)
    ensures forall k :: 0 <= k < |s| ==> !IsSpace(s[k])
    ensures |s| >= 5
    ensures exists i :: 0 < i < |s| && s[i] == '@' && forall k :: 0 <= k < |s| && k != i ==> s[k] != '@'
  {
    var i := FirstAt(s);
    assert s[i] == '@';
  }

  /** Every `local@domain.tld` whose three parts are non-empty and free of white
      space and '@' is accepted; the domain may itself contain dots. */
  lemma AddressFromParts(local: string, domain: string, tld: string)
    requires |local| > 0 && |domain| > 0 && |tld| > 0
    requires Clean(local, 0, |local|) && Clean(domain, 0, |domain|) && Clean(tld, 0, |tld|)
    ensures IsValidEmail(local + "@" + domain + "." + tld)
  {
    var s := local + "@" + domain + "." + tld;
    var i := |local|;
    var k := |local| + 1 + |domain|;
    assert s[i] == '@' && s[k] == '.';
    assert forall m :: 0 <= m < i ==> s[m] == local[m];
    assert forall m :: i + 1 <= m < k ==> s[m] == domain[m - i - 1];
    assert forall m :: k + 1 <= m < |s| ==> s[m] == tld[m - k - 1];
    assert Clean(s, 0, i) && Clean(s, i + 1, k) && Clean(s, k + 1, |s|);
  }

  // -------------------------------------------------------------- isValidPhone

  /** `prefix` followed by 9 or 10 digits (`\d{9,10}`) and nothing else. */
  predicate DigitsAfter(c: string, prefix: string) {
    |prefix| <= |c| && c[..|prefix|] == prefix
    && 9 <= |c| - |prefix| <= 10 && AllDigits(c[|prefix|..])
  }

  /** The language of `/^(?:\+44|0|0044)\d{9,10}$/`. */
  predicate IsUkNumber(c: string) {
    DigitsAfter(c, "+44") || DigitsAfter(c, "0") || DigitsAfter(c, "0044")
  }

  /** `isValidPhone(phone)`: white space removed, then the UK pattern. */
  predicate IsValidPhone(phone: string) {
    IsUkNumber(StripSpaces(phone))
  }

  /** The pattern read character by character: a '+44' number is 12 or 13
      characters of which all but the '+' are digits; a '0' number is all digits,
      10 or 11 long, or 13 or 14 long when it starts '0044'. */
  lemma UkNumberShape(c: string)
    ensures IsUkNumber(c) <==>
      || (12 <= |c| <= 13 && c[..3] == "+44" && AllDigits(c[3..]))
      || (10 <= |c| && c[0] == '0' && AllDigits(c) && (|c| <= 11 || (13 <= |c| <= 14 && c[..4] == "0044")))
  {
    if 10 <= |c| && c[0] == '0' && AllDigits(c) {
      assert c[..1] == "0";
      assert forall k :: 0 <= k < |c| - 1 ==> c[1..][k] == c[k + 1];
      if 13 <= |c| && c[..4] == "0044" {
        assert forall k :: 0 <= k < |c| - 4 ==> c[4..][k] == c[k + 4];
      }
    }
    if DigitsAfter(c, "0") {
      assert c[0] == '0';
      assert forall k :: 1 <= k < |c| ==> c[1..][k - 1] == c[k];
      assert AllDigits(c);
    }
    if DigitsAfter(c, "0044") {
      assert c[..4][0] == '0';
      assert forall k :: 4 <= k < |c| ==> c[4..][k - 4] == c[k];
      assert forall k :: 0 <= k < 4 ==> c[..4][k] == c[k];
      assert AllDigits(c);
    }
  }

  /** White space anywhere in the number is ignored. */
  lemma PhoneIgnoresSpaces(a: string, w: string, b: string)
    requires AllSpace(w)
    ensures IsValidPhone(a + w + b) <==> IsValidPhone(a + b)
  {
    StripSpacesConcat(a + w, b);
    StripSpacesConcat(a, w);
    StripSpacesConcat(a, b);
    StripSpacesAllSpace(w);
    assert StripSpaces(a) + [] == StripSpaces(a);
  }

  /** Digits and '+' are not white space. */
  lemma DialCharNotSpace(c: char)
    requires IsDigit(c) || c == '+'
    ensures !IsSpace(c)
  {
  }

  /** A number typed without white space is checked as it is. */
  lemma PhoneWithoutSpaces(c: string)
    requires forall k :: 0 <= k < |c| ==> !IsSpace(c[k])
    ensures IsValidPhone(c) <==> IsUkNumber(c)
  {
    StripSpacesNoSpace(c);
  }

  /** Each of the three prefixes followed by 9 or 10 digits is accepted. */
  lemma PrefixedNumberAccepted(prefix: string, digits: string)
    requires prefix == "+44" || prefix == "0" || prefix == "0044"
    requires 9 <= |digits| <= 10 && AllDigits(digits)
    ensures IsValidPhone(prefix + digits)
  {
    var c := prefix + digits;
    assert forall k :: |prefix| <= k < |c| ==> c[k] == digits[k - |prefix|];
    forall k | 0 <= k < |c| ensures !IsSpace(c[k]) {
      DialCharNotSpace(c[k]);
    }
    PhoneWithoutSpaces(c);
    assert c[..|prefix|] == prefix && c[|prefix|..] == digits;
    assert DigitsAfter(c, prefix);
  }

  /** The numbers the doc comment of `isValidPhone` lists are accepted. */
  lemma DocumentedPhonesAccepted()
    ensures IsValidPhone("07123456789")
    ensures IsValidPhone("+447123456789")
    ensures IsValidPhone("00447123456789")
  {
    var d := "7123456789";
    assert "0" + d == "07123456789";
    assert "+44" + d == "+447123456789";
    assert "0044" + d == "00447123456789";
    PrefixedNumberAccepted("0", d);
    PrefixedNumberAccepted("+44", d);
    PrefixedNumberAccepted("0044", d);
  }

  /** A number that does not start with '0' must start with '+44'. */
  lemma UkNumberNotZero(c: string)
    requires IsUkNumber(c) && c[0] != '0'
    ensures |c| >= 3 && c[..3] == "+44"
  {
  }

  /** Too short: six digits cannot follow any prefix. */
  lemma ShortPhoneRejected()
    ensures !IsValidPhone("123456")
  {
    assert |StripSpaces("123456")| <= 6;
  }

  /** A number that starts with a country code other than 44 is rejected,
      whatever follows it. */
  lemma ForeignCodeRejected(code: string, rest: string)
    requires |code| >= 2 && code[0] == '+' && code[1] != '4'
    requires forall k :: 0 <= k < |code| ==> !IsSpace(code[k])
    ensures !IsValidPhone(code + rest)
  {
    StripSpacesConcat(code, rest);
    StripSpacesNoSpace(code);
    var c := StripSpaces(code + rest);
    assert c[..2] == code[..2];
    if IsUkNumber(c) {
      UkNumberNotZero(c);
    }
  }

  /** The US number "+1 212 555 0100" is rejected. */
  lemma ForeignPhoneRejected()
    ensures !IsValidPhone("+1 212 555 0100")
  {
    var code, rest := "+1", " 212 555 0100";
    assert code + rest == "+1 212 555 0100";
    DialCharNotSpace('+');
    DialCharNotSpace('1');
    ForeignCodeRejected(code, rest);
  }
}
