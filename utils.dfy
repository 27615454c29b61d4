/** The helpers of the dashboard's `Utils` class: string predicates for the
    profile form, the 12-hour time display, the calendar helpers, the image
    check, the local-storage wrapper and the required-field check. */
module Utils {

  datatype Option<T> = None | Some(value: T)

  // ---------------------------------------------------------------------------
  // Characters and strings
  // ---------------------------------------------------------------------------

  /** The ECMAScript WhiteSpace and LineTerminator code points: what `\s` in a
      regular expression and String.prototype.trim treat as white space. */
  predicate IsWhitespace(c: char) {
    c == '\t' || c == '\n' || c == '\U{B}' || c == '\U{C}' || c == '\r' || c == ' '
    || c == '\U{A0}' || c == '\U{1680}' || ('\U{2000}' <= c <= '\U{200A}')
    || c == '\U{2028}' || c == '\U{2029}' || c == '\U{202F}' || c == '\U{205F}'
    || c == '\U{3000}' || c == '\U{FEFF}'
  }

  predicate IsDigit(c: char) { '0' <= c <= '9' }

  predicate AllDigits(s: string) { forall i | 0 <= i < |s| :: IsDigit(s[i]) }

  predicate IsBlank(s: string) { forall i | 0 <= i < |s| :: IsWhitespace(s[i]) }

  /** Position of the first occurrence of `c` in `s`: the '@' the e-mail
      pattern must match, and the ':' at which `split(':')` cuts a time. */
  function IndexOf(s: string, c: char): (r: Option<nat>)
    ensures r.None? <==> c !in s
    ensures r.Some? ==> r.value < |s| && s[r.value] == c && c !in s[..r.value]
  {
    if |s| == 0 then None
    else if s[0] == c then Some(0)
    else match IndexOf(s[1..], c)
      case None => None
      case Some(k) => assert s[1..][..k] == s[1..k + 1]; Some(k + 1)
  }

  /** `s` without its leading white space. */
  function TrimStart(s: string): string {
    if |s| > 0 && IsWhitespace(s[0]) then TrimStart(s[1..]) else s
  }

  /** `s` without its trailing white space. */
  function TrimEnd(s: string): string {
    if |s| > 0 && IsWhitespace(s[|s| - 1]) then TrimEnd(s[..|s| - 1]) else s
  }

  /** String.prototype.trim. */
  function Trim(s: string): string {
    TrimEnd(TrimStart(s))
  }

  /** TrimStart removes a blank prefix and stops at the first other character. */
  lemma {:induction false} TrimStartSpec(s: string)
    ensures var r := TrimStart(s);
      |r| <= |s| && r == s[|s| - |r|..] && IsBlank(s[..|s| - |r|])
      && (r == [] || !IsWhitespace(r[0]))
  {
    if |s| > 0 && IsWhitespace(s[0]) {
      TrimStartSpec(s[1..]);
      var r := TrimStart(s);
      assert s[1..][..|s| - 1 - |r|] == s[1..|s| - |r|];
      assert s[..|s| - |r|] == [s[0]] + s[1..|s| - |r|];
    }
  }

  /** TrimEnd removes a blank suffix and stops at the last other character. */
  lemma {:induction false} TrimEndSpec(s: string)
    ensures var r := TrimEnd(s);
      |r| <= |s| && r == s[..|r|] && IsBlank(s[|r|..])
      && (r == [] || !IsWhitespace(r[|r| - 1]))
  {
    if |s| > 0 && IsWhitespace(s[|s| - 1]) {
      TrimEndSpec(s[..|s| - 1]);
      var r := TrimEnd(s);
      assert s[..|s| - 1][|r|..] == s[|r|..|s| - 1];
      assert s[|r|..] == s[|r|..|s| - 1] + [s[|s| - 1]];
    }
  }

  /** Trimming leaves nothing exactly when the text is all white space. */
  lemma TrimEmptyIffBlank(s: string)
    ensures Trim(s) == [] <==> IsBlank(s)
  {
    var t := TrimStart(s);
    TrimStartSpec(s);
    TrimEndSpec(t);
    if t == [] {
      assert s[..|s|] == s;
    } else {
      assert s[|s| - |t|] == t[0];
    }
  }

  // ---------------------------------------------------------------------------
  // Decimal numbers
  // ---------------------------------------------------------------------------

  function DigitValue(c: char): nat
    requires IsDigit(c)
  {
    c as int - '0' as int
  }

  function DigitChar(d: nat): (c: char)
    requires d < 10
    ensures IsDigit(c) && DigitValue(c) == d
  {
    "0123456789"[d]
  }

  /** The value of a string of decimal digits, most significant first. */
  function DigitsValue(s: string): nat
    requires AllDigits(s)
  {
    if |s| == 0 then 0 else DigitsValue(s[..|s| - 1]) * 10 + DigitValue(s[|s| - 1])
  }

  /** The decimal text of `n`, as a template literal prints the small numbers
      the dashboard shows (hours 1..12 and day counts 0..2). */
  function NatToString(n: nat): (s: string)
    ensures |s| > 0 && AllDigits(s) && DigitsValue(s) == n
    ensures s[0] != '0' || n == 0
  {
    if n < 10 then [DigitChar(n)]
    else
      var s := NatToString(n / 10) + [DigitChar(n % 10)];
      assert s[..|s| - 1] == NatToString(n / 10);
      s
  }

  /** Number of decimal digits at the start of `s`. */
  function LeadingDigitCount(s: string): (n: nat)
    ensures n <= |s| && AllDigits(s[..n])
    ensures n < |s| ==> !IsDigit(s[n])
  {
    if |s| > 0 && IsDigit(s[0]) then
      var n := 1 + LeadingDigitCount(s[1..]);
      assert s[..n] == [s[0]] + s[1..][..n - 1];
      n
    else 0
  }

  /** parseInt(s) for the texts a time input yields: the value of the leading
      run of decimal digits, or None (NaN) when `s` does not start with one. */
  function ParseInt(s: string): Option<nat> {
    var n := LeadingDigitCount(s);
    if n == 0 then None else Some(DigitsValue(s[..n]))
  }

  /** parseInt reads back every decimal text exactly. */
  lemma ParseIntOfDigits(s: string)
    requires |s| > 0 && AllDigits(s)
    ensures ParseInt(s) == Some(DigitsValue(s))
  {
    var n := LeadingDigitCount(s);
    assert n == |s|;
    assert s[..n] == s;
  }

  // ---------------------------------------------------------------------------
  // E-mail and phone number (the two regular expressions of the profile form)
  // ---------------------------------------------------------------------------

  /** A character of the class `[^\s@]`. */
  predicate IsEmailChar(c: char) { !IsWhitespace(c) && c != '@' }

  /** A match of `[^\s@]+`. */
  predicate IsEmailPart(s: string) {
    |s| > 0 && forall i | 0 <= i < |s| :: IsEmailChar(s[i])
  }

  /** The text after the '@': `[^\s@]+\.[^\s@]+`, so some '.' splits it into two parts. */
  predicate IsEmailDomain(d: string) {
    exists j | 0 < j < |d| - 1 :: d[j] == '.' && IsEmailPart(d[..j]) && IsEmailPart(d[j + 1..])
  }

  /** isValidEmail: `/^[^\s@]+@[^\s@]+\.[^\s@]+$/.test(s)`, read from the first '@'
      (a local part cannot hold an '@', so the first one is the only candidate). */
  predicate IsValidEmail(s: string) {
    match IndexOf(s, '@')
    case None => false
    case Some(k) => IsEmailPart(s[..k]) && IsEmailDomain(s[k + 1..])
  }

  /** `s` is `local + "@" + domain + "." + tld` with three parts of `[^\s@]+`. */
  predicate IsEmailSplit(s: string, local: string, domain: string, tld: string) {
    s == local + "@" + domain + "." + tld
    && IsEmailPart(local) && IsEmailPart(domain) && IsEmailPart(tld)
  }

  ghost predicate EmailShape(s: string) {
    exists local, domain, tld :: IsEmailSplit(s, local, domain, tld)
  }

  /** The first `c` in `s` is at `k` when `s[k]` is `c` and no earlier character is. */
  lemma IndexOfAt(s: string, c: char, k: nat)
    requires k < |s| && s[k] == c
    requires forall i | 0 <= i < k :: s[i] != c
    ensures IndexOf(s, c) == Some(k)
  {
    var r := IndexOf(s, c);
    assert r.Some?;
  }

  lemma EmailValidToShape(s: string)
    requires IsValidEmail(s)
    ensures EmailShape(s)
  {
    var k := IndexOf(s, '@').value;
    var d := s[k + 1..];
    var j :| 0 < j < |d| - 1 && d[j] == '.' && IsEmailPart(d[..j]) && IsEmailPart(d[j + 1..]);
    SplitAtTwo(s, k, j);
    ShapeOfSplit(s, s[..k], d[..j], d[j + 1..]);
  }

  /** Cutting out the '@' at `k` and the '.' at `j` after it. */
  lemma SplitAtTwo(s: string, k: nat, j: nat)
    requires k < |s| && s[k] == '@'
    requires 0 < j < |s[k + 1..]| && s[k + 1..][j] == '.'
    ensures s == s[..k] + "@" + s[k + 1..][..j] + "." + s[k + 1..][j + 1..]
  {
    var d := s[k + 1..];
    assert d == d[..j] + "." + d[j + 1..];
    assert s == s[..k] + "@" + d;
  }

  lemma ShapeOfSplit(s: string, local: string, domain: string, tld: string)
    requires IsEmailSplit(s, local, domain, tld)
    ensures EmailShape(s)
  {
  }

  lemma EmailShapeToValid(s: string, local: string, domain: string, tld: string)
    requires IsEmailSplit(s, local, domain, tld)
    ensures IsValidEmail(s)
  {
    var n := |local|;
    var d := s[n + 1..];
    assert s[..n] == local;
    assert s[n] == '@';
    IndexOfAt(s, '@', n);
    assert d == domain + "." + tld;
    assert d[..|domain|] == domain && d[|domain| + 1..] == tld;
    assert d[|domain|] == '.';
  }

  /** The scanning check accepts exactly the strings the pattern matches. */
  lemma EmailValidIff(s: string)
    ensures IsValidEmail(s) <==> EmailShape(s)
  {
    if IsValidEmail(s) {
      EmailValidToShape(s);
    }
    if EmailShape(s) {
      var local, domain, tld :| IsEmailSplit(s, local, domain, tld);
      EmailShapeToValid(s, local, domain, tld);
    }
  }

  /** A valid e-mail address has no white space and exactly one '@'. */
  lemma ValidEmailHasOneAt(s: string)
    requires IsValidEmail(s)
    ensures forall i | 0 <= i < |s| :: !IsWhitespace(s[i])
    ensures multiset(s)['@'] == 1
  {
    EmailValidIff(s);
    var local, domain, tld :| IsEmailSplit(s, local, domain, tld);
    SplitHasOneAt(s, local, domain, tld);
    SplitHasNoWhitespace(s, local, domain, tld);
  }

  lemma SplitHasOneAt(s: string, local: string, domain: string, tld: string)
    requires IsEmailSplit(s, local, domain, tld)
    ensures multiset(s)['@'] == 1
  {
    assert '@' !in local && '@' !in domain && '@' !in tld;
    assert multiset(s) == multiset(local) + multiset{'@'} + multiset(domain) + multiset{'.'} + multiset(tld);
  }

  lemma SplitHasNoWhitespace(s: string, local: string, domain: string, tld: string)
    requires IsEmailSplit(s, local, domain, tld)
    ensures forall i | 0 <= i < |s| :: !IsWhitespace(s[i])
  {
    forall i | 0 <= i < |s| ensures !IsWhitespace(s[i]) {
      if i < |local| {
        assert s[i] == local[i];
      } else if i == |local| {
      } else if i < |local| + 1 + |domain| {
        assert s[i] == domain[i - |local| - 1];
      } else if i == |local| + 1 + |domain| {
      } else {
        assert s[i] == tld[i - |local| - 2 - |domain|];
      }
    }
  }

  // The text is a parameter fixed by `requires`: written as a literal in the
  // `ensures`, it makes the verifier unfold IsValidEmail on it far enough to run
  // out of resources.
  lemma EmailAcceptsDefault(s: string)
    requires s == "juan.delacruz@dssc.edu.ph"
    ensures IsValidEmail(s)
  {
    assert s == "juan.delacruz" + "@" + "dssc.edu" + "." + "ph";
    EmailShapeToValid(s, "juan.delacruz", "dssc.edu", "ph");
  }

  /** A text without '@' is never an address. */
  lemma EmailRejectsNoAt(s: string)
    requires '@' !in s
    ensures !IsValidEmail(s)
  {
  }

  /** A text holding white space anywhere (in particular in its local part) is
      never an address. */
  lemma EmailRejectsWhitespace(s: string)
    requires exists i | 0 <= i < |s| :: IsWhitespace(s[i])
    ensures !IsValidEmail(s)
  {
    if IsValidEmail(s) {
      ValidEmailHasOneAt(s);
    }
  }

  /** A character of the class `[0-9\s\-\(\)]`. */
  predicate IsPhoneChar(c: char) {
    IsDigit(c) || IsWhitespace(c) || c == '-' || c == '(' || c == ')'
  }

  /** A match of `[0-9\s\-\(\)]{10,}`. */
  predicate IsPhoneBody(body: string) {
    |body| >= 10 && forall i | 0 <= i < |body| :: IsPhoneChar(body[i])
  }

  /** What follows the optional leading '+'. The class does not contain '+', so
      a leading '+' can only be taken by `[\+]?`. */
  function PhoneBody(s: string): string {
    if |s| > 0 && s[0] == '+' then s[1..] else s
  }

  /** isValidPhone: `/^[\+]?[0-9\s\-\(\)]{10,}$/.test(s)`. */
  predicate IsValidPhone(s: string) {
    IsPhoneBody(PhoneBody(s))
  }

  /** `s` is an optional '+' followed by at least ten phone characters. */
  predicate IsPhoneSplit(s: string, sign: string, body: string) {
    (sign == "" || sign == "+") && s == sign + body && IsPhoneBody(body)
  }

  ghost predicate PhoneShape(s: string) {
    exists sign, body :: IsPhoneSplit(s, sign, body)
  }

  /** The deterministic check accepts exactly the strings the pattern matches. */
  lemma PhoneValidIff(s: string)
    ensures IsValidPhone(s) <==> PhoneShape(s)
  {
    if IsValidPhone(s) {
      if |s| > 0 && s[0] == '+' {
        assert s == "+" + s[1..];
        assert IsPhoneSplit(s, "+", s[1..]);
      } else {
        assert IsPhoneSplit(s, "", s);
      }
    }
    if PhoneShape(s) {
      var sign, body :| IsPhoneSplit(s, sign, body);
      if sign == "" {
        assert s == body;
        assert !IsPhoneChar('+');
      } else {
        assert s[1..] == body;
      }
    }
  }

  lemma PhoneRejectsShort()
    ensures !IsValidPhone("123")
  {
  }

  lemma PhoneAcceptsFormatted()
    ensures IsValidPhone("+1 (555) 123-4567")
  {
    var s := "+1 (555) 123-4567";
    assert s[1..] == "1 (555) 123-4567";
  }

  /** Only a leading '+' is allowed: a '+' anywhere after the first character
      makes the number invalid. */
  lemma PhoneRejectsLaterPlus(s: string, k: nat)
    requires 0 < k < |s| && s[k] == '+'
    ensures !IsValidPhone(s)
  {
    var body := PhoneBody(s);
    if |s| > 0 && s[0] == '+' {
      assert body[k - 1] == '+';
    } else {
      assert body[k] == '+';
    }
  }

  // ---------------------------------------------------------------------------
  // Time of day
  // ---------------------------------------------------------------------------

  /** The first element of `s.split(':')`. */
  function FirstField(s: string): string {
    match IndexOf(s, ':')
    case None => s
    case Some(k) => s[..k]
  }

  /** The second element of `s.split(':')`, or the text "undefined" that a
      template literal prints when there is none. */
  function SecondField(s: string): string {
    match IndexOf(s, ':')
    case None => "undefined"
    case Some(k) => FirstField(s[k + 1..])
  }

  /** `hour % 12 || 12`: the hour on a 12-hour clock face. */
  function DisplayHour(h: nat): (d: nat)
    ensures 1 <= d <= 12 && d % 12 == h % 12
  {
    if h % 12 == 0 then 12 else h % 12
  }

  /** formatTime: "HH:MM" on the 24-hour clock to "h:MM AM|PM". An hour that
      does not parse is NaN, which is neither >= 12 nor truthy after `% 12`. */
  function FormatTime(t: string): string {
    var minutes := SecondField(t);
    match ParseInt(FirstField(t))
    case None => NatToString(12) + ":" + minutes + " AM"
    case Some(h) => NatToString(DisplayHour(h)) + ":" + minutes + " " + (if h >= 12 then "PM" else "AM")
  }

  /** Splitting "HH:MM" at ':' gives back the hours and the minutes. */
  lemma FieldsOf(hh: string, mm: string)
    requires ':' !in hh && ':' !in mm
    ensures FirstField(hh + ":" + mm) == hh
    ensures SecondField(hh + ":" + mm) == mm
  {
    var t := hh + ":" + mm;
    IndexOfAt(t, ':', |hh|);
    assert t[..|hh|] == hh;
    assert t[|hh| + 1..] == mm;
  }

  lemma AllDigitsHasNoColon(s: string)
    requires AllDigits(s)
    ensures ':' !in s
  {
  }

  lemma FormatTimeOfDigits(hh: string, mm: string)
    requires |hh| > 0 && AllDigits(hh) && ':' !in mm
    ensures FormatTime(hh + ":" + mm) ==
      NatToString(DisplayHour(DigitsValue(hh))) + ":" + mm + " " + (if DigitsValue(hh) < 12 then "AM" else "PM")
  {
    AllDigitsHasNoColon(hh);
    FieldsOf(hh, mm);
    ParseIntOfDigits(hh);
  }

  /** For "HH:MM" the hour shown is in 1..12 and agrees with HH modulo 12, the
      suffix is "AM" exactly before noon and the minutes are copied verbatim. */
  lemma FormatTimeOf(hh: string, mm: string)
    requires |hh| > 0 && AllDigits(hh) && ':' !in mm
    ensures var h := DigitsValue(hh);
      exists d: nat | 1 <= d <= 12 && d % 12 == h % 12 ::
        FormatTime(hh + ":" + mm) == NatToString(d) + ":" + mm + " " + (if h < 12 then "AM" else "PM")
  {
    FormatTimeOfDigits(hh, mm);
  }

  lemma NatToStringOneTwelve()
    ensures NatToString(1) == "1" && NatToString(12) == "12"
  {
    assert NatToString(1) == [DigitChar(1)];
    assert NatToString(12) == NatToString(1) + [DigitChar(2)];
  }

  /** The value of a two-digit text. */
  lemma TwoDigitsValue(s: string)
    requires |s| == 2 && AllDigits(s)
    ensures DigitsValue(s) == DigitValue(s[0]) * 10 + DigitValue(s[1])
  {
    var first := s[..1];
    assert first[0] == s[0];
    assert DigitsValue(first) == DigitValue(s[0]) by {
      assert first[..0] == [];
    }
  }

  // The examples take their hours and minutes as parameters fixed by `requires`:
  // with the literals written into the `ensures`, the verifier unfolds FormatTime
  // on the literal text far enough to run out of resources.

  lemma FormatTimeMidnight(hh: string, mm: string)
    requires hh == "00" && mm == "30"
    ensures FormatTime(hh + ":" + mm) == "12:30 AM"
  {
    calc {
      FormatTime(hh + ":" + mm);
    == { FormatTimeOfDigits(hh, mm); }
      NatToString(DisplayHour(DigitsValue(hh))) + ":" + mm + " " + (if DigitsValue(hh) < 12 then "AM" else "PM");
    == { TwoDigitsValue(hh); }
      NatToString(DisplayHour(0)) + ":" + mm + " " + "AM";
    == { NatToStringOneTwelve(); }
      "12" + ":" + mm + " " + "AM";
    ==
      "12:30 AM";
    }
  }

  lemma FormatTimeAfternoon(hh: string, mm: string)
    requires hh == "13" && mm == "05"
    ensures FormatTime(hh + ":" + mm) == "1:05 PM"
  {
    calc {
      FormatTime(hh + ":" + mm);
    == { FormatTimeOfDigits(hh, mm); }
      NatToString(DisplayHour(DigitsValue(hh))) + ":" + mm + " " + (if DigitsValue(hh) < 12 then "AM" else "PM");
    == { TwoDigitsValue(hh); }
      NatToString(DisplayHour(13)) + ":" + mm + " " + "PM";
    == { NatToStringOneTwelve(); }
      "1" + ":" + mm + " " + "PM";
    ==
      "1:05 PM";
    }
  }

  lemma FormatTimeNoon(hh: string, mm: string)
    requires hh == "12" && mm == "00"
    ensures FormatTime(hh + ":" + mm) == "12:00 PM"
  {
    calc {
      FormatTime(hh + ":" + mm);
    == { FormatTimeOfDigits(hh, mm); }
      NatToString(DisplayHour(DigitsValue(hh))) + ":" + mm + " " + (if DigitsValue(hh) < 12 then "AM" else "PM");
    == { TwoDigitsValue(hh); }
      NatToString(DisplayHour(12)) + ":" + mm + " " + "PM";
    == { NatToStringOneTwelve(); }
      "12" + ":" + mm + " " + "PM";
    ==
      "12:00 PM";
    }
  }

  // ---------------------------------------------------------------------------
  // Calendar (instants are milliseconds on the local wall clock)
  // ---------------------------------------------------------------------------

  /** 1000 * 60 * 60 * 24 */
  const DayMs: int := 86_400_000

  /** The midnight that starts the day of `t` (Date.prototype.setHours(0, 0, 0, 0)). */
  function StartOfDay(t: int): (m: int)
    ensures m % DayMs == 0 && m <= t < m + DayMs
  {
    (t / DayMs) * DayMs
  }

  /** isDateInFuture: the parsed date is at or after today's midnight. An
      unparsable date (None, NaN) compares false. */
  predicate IsDateInFuture(date: Option<int>, now: int) {
    date.Some? && date.value >= StartOfDay(now)
  }

  /** The check compares calendar days: today itself counts, earlier days do not. */
  lemma IsDateInFutureByDay(x: int, now: int)
    ensures IsDateInFuture(Some(x), now) <==> x / DayMs >= now / DayMs
  {
    var q := now / DayMs;
    var p := x / DayMs;
    assert x == p * DayMs + x % DayMs;
    if p >= q {
      assert p * DayMs >= q * DayMs;
    } else {
      assert p <= q - 1;
      assert p * DayMs <= q * DayMs - DayMs;
    }
  }

  /** getDaysUntil: Math.ceil((target - now) / 86 400 000). */
  function GetDaysUntil(target: int, now: int): (d: int)
    ensures (d - 1) * DayMs < target - now <= d * DayMs
  {
    var q := (now - target) / DayMs;
    assert q * DayMs <= now - target < q * DayMs + DayMs;
    -q
  }

  /** The reminder window "0 to 2 days away" is the span of instants from just
      after 24 hours ago up to 48 hours ahead. */
  lemma DaysUntilWindow(target: int, now: int)
    ensures 0 <= GetDaysUntil(target, now) <= 2 <==> now - DayMs < target <= now + 2 * DayMs
  {
    var d := GetDaysUntil(target, now);
    if d < 0 {
      assert d * DayMs <= -DayMs;
    } else if d > 2 {
      assert (d - 1) * DayMs >= 2 * DayMs;
    }
  }

  /** Today's midnight is 0 days away. */
  lemma DaysUntilStartOfDay(now: int)
    ensures GetDaysUntil(StartOfDay(now), now) == 0
  {
  }

  // ---------------------------------------------------------------------------
  // Profile picture file check
  // ---------------------------------------------------------------------------

  const ValidImageTypes: seq<string> := ["image/jpeg", "image/jpg", "image/png", "image/gif", "image/webp"]

  /** 5 MiB */
  const MaxImageSize: nat := 5 * 1024 * 1024

  const ImageTypeError: string := "Please select a valid image file (JPEG, PNG, GIF, or WebP)."
  const ImageSizeError: string := "Image file size must be less than 5MB."

  /** The MIME type and byte size of a chosen file. */
  datatype ImageFile = ImageFile(mimeType: string, size: nat)

  datatype ImageCheck = ImageOk | ImageRejected(error: string)

  /** validateImageFile: the type check comes first, then the size bound. */
  function ValidateImageFile(file: ImageFile): (r: ImageCheck)
    ensures r.ImageOk? <==> file.mimeType in ValidImageTypes && file.size <= MaxImageSize
    ensures r.ImageRejected? ==>
      r.error == (if file.mimeType in ValidImageTypes then ImageSizeError else ImageTypeError)
  {
    if file.mimeType !in ValidImageTypes then ImageRejected(ImageTypeError)
    else if file.size > MaxImageSize then ImageRejected(ImageSizeError)
    else ImageOk
  }

  lemma ImageFileBoundaries()
    ensures ValidateImageFile(ImageFile("image/png", 5_242_880)) == ImageOk
    ensures ValidateImageFile(ImageFile("image/png", 5_242_881)) == ImageRejected(ImageSizeError)
    ensures ValidateImageFile(ImageFile("image/bmp", 5_242_881)) == ImageRejected(ImageTypeError)
  {
    assert "image/bmp" != ValidImageTypes[0] by { assert "image/bmp"[6] != ValidImageTypes[0][6]; }
    assert "image/bmp" != ValidImageTypes[1] by { assert "image/bmp"[6] != ValidImageTypes[1][6]; }
    assert "image/bmp" != ValidImageTypes[2] by { assert "image/bmp"[6] != ValidImageTypes[2][6]; }
    assert "image/bmp" != ValidImageTypes[3] by { assert "image/bmp"[6] != ValidImageTypes[3][6]; }
    assert "image/bmp" != ValidImageTypes[4] by { assert "image/bmp"[6] != ValidImageTypes[4][6]; }
  }

  // ---------------------------------------------------------------------------
  // Local storage wrapper
  // ---------------------------------------------------------------------------

  /** What the store holds under a key: the JSON text of a value, the empty
      text, or text that JSON.parse rejects. */
  datatype Item<V> = Json(value: V) | EmptyText | Unparseable

  type Store<V> = map<string, Item<V>>

  /** The boolean setLocalStorage returns, and the store after the call. */
  datatype Written<V> = Written(ok: bool, store: Store<V>)

  /** setLocalStorage: on success the value is stored under the key and the
      result is true; a failed write (quota, disabled storage) changes nothing
      and yields false. */
  function SetLocalStorage<V>(store: Store<V>, key: string, data: V, writeOk: bool): Written<V> {
    if writeOk then Written(true, store[key := Json(data)]) else Written(false, store)
  }

  /** getLocalStorage: the stored value, or the default when storage cannot be
      read, the key is absent, its text is empty or it does not parse. */
  function GetLocalStorage<V>(store: Store<V>, key: string, default: V, readOk: bool): V {
    if !readOk || key !in store then default
    else match store[key]
      case Json(v) => v
      case EmptyText => default
      case Unparseable => default
  }

  /** After a successful set, a get on that key returns the stored value. */
  lemma GetAfterSet<V>(store: Store<V>, key: string, data: V, default: V)
    ensures var w := SetLocalStorage(store, key, data, true);
      w.ok && GetLocalStorage(w.store, key, default, true) == data
  {
  }

  /** A set touches only its own key, and a failed set touches nothing. */
  lemma SetFrame<V>(store: Store<V>, key: string, data: V, writeOk: bool, other: string, default: V, readOk: bool)
    ensures var w := SetLocalStorage(store, key, data, writeOk);
      (other != key || !writeOk) ==>
        GetLocalStorage(w.store, other, default, readOk) == GetLocalStorage(store, other, default, readOk)
  {
  }

  /** A get yields something other than the default only from a parsed item. */
  lemma GetFallsBack<V>(store: Store<V>, key: string, default: V, readOk: bool)
    ensures var v := GetLocalStorage(store, key, default, readOk);
      v == default || (readOk && key in store && store[key] == Json(v))
    ensures !readOk || key !in store || store[key] == EmptyText || store[key] == Unparseable ==>
      GetLocalStorage(store, key, default, readOk) == default
  {
  }

  // ---------------------------------------------------------------------------
  // Required-field check
  // ---------------------------------------------------------------------------

  /** A required input counts as filled when its trimmed value is non-empty. */
  predicate IsFilled(value: string) { Trim(value) != [] }

  predicate AllFilled(values: seq<string>) {
    forall i | 0 <= i < |values| :: IsFilled(values[i])
  }

  /** validateForm, boolean result only: true iff every required input is
      filled, that is, none is empty or all white space. Once the accumulator is
      false it stays false. */
  method ValidateForm(values: seq<string>) returns (isValid: bool)
    ensures isValid <==> AllFilled(values)
    ensures isValid <==> forall i | 0 <= i < |values| :: !IsBlank(values[i])
  {
    isValid := true;
    var i := 0;
    while i < |values|
      invariant 0 <= i <= |values|
      invariant isValid <==> forall k | 0 <= k < i :: IsFilled(values[k])
    {
      if Trim(values[i]) == [] {
        isValid := false;
      }
      i := i + 1;
    }
    FilledIffNotBlank(values);
  }

  lemma FilledIffNotBlank(values: seq<string>)
    ensures AllFilled(values) <==> forall i | 0 <= i < |values| :: !IsBlank(values[i])
  {
    forall k | 0 <= k < |values| ensures IsFilled(values[k]) <==> !IsBlank(values[k]) {
      TrimEmptyIffBlank(values[k]);
    }
  }
}
