/** The detail modal: when it asks to be closed, and how it renders a duration. */
module MovieModal {
  import opened Wrappers

  /** What the modal emits to its host: the `close` output. */
  datatype ModalOutput = Close

  /** The class that marks the dimmed area around the dialog. */
  const BackdropClass: string := "modal__backdrop"

  /** `closeModal`: emits `close` once. */
  function CloseModal(): (emitted: seq<ModalOutput>)
    ensures emitted == [Close]
  {
    [Close]
  }

  /** `onEscapeKey`: the Escape key always closes. */
  function OnEscapeKey(): (emitted: seq<ModalOutput>)
    ensures emitted == [Close]
  {
    CloseModal()
  }

  /** `onBackdropClick`: a click closes only when its target is the backdrop itself
      (its class list holds `modal__backdrop`), not a click inside the dialog. */
  function OnBackdropClick(targetClasses: seq<string>): (emitted: seq<ModalOutput>)
    ensures |emitted| <= 1
    ensures emitted == [Close] <==> BackdropClass in targetClasses
  {
    if BackdropClass in targetClasses then CloseModal() else []
  }

  /** `Math.floor(minutes / 60)`: Dafny's division by a positive divisor rounds down. */
  function Hours(minutes: int): int {
    minutes / 60
  }

  /** `minutes % 60` in JavaScript: the remainder takes the sign of the dividend. */
  function Mins(minutes: int): int {
    if minutes >= 0 then minutes % 60 else -((-minutes) % 60)
  }

  /** For a non-negative duration, hours and minutes recompose it, the minutes
      below an hour. */
  lemma DurationSplit(minutes: int)
    requires minutes >= 0
    ensures Hours(minutes) * 60 + Mins(minutes) == minutes
    ensures 0 <= Mins(minutes) < 60 && Hours(minutes) >= 0
  {
  }

  /** A negative duration that is not a whole number of hours does not recompose:
      the floored hours and the truncated minutes are an hour short. */
  lemma NegativeDurationSplit(minutes: int)
    requires minutes < 0 && minutes % 60 != 0
    ensures Hours(minutes) * 60 + Mins(minutes) == minutes - 60
  {
  }

  predicate IsDigit(c: char) {
    '0' <= c <= '9'
  }

  predicate AllDigits(s: string) {
    forall k :: 0 <= k < |s| ==> IsDigit(s[k])
  }

  function DigitChar(d: nat): (c: char)
    requires d < 10
    ensures IsDigit(c)
  {
    ('0' as int + d) as char
  }

  /** The decimal notation of a natural number: digits only, no leading zero. */
  function Digits(n: nat): (s: string)
    ensures |s| >= 1 && AllDigits(s)
    ensures s[0] == '0' ==> s == "0" && n == 0
  {
    if n < 10 then [DigitChar(n)] else Digits(n / 10) + [DigitChar(n % 10)]
  }

  /** Template-literal interpolation of an integer. */
  function NumberToString(n: int): string {
    if n < 0 then "-" + Digits(-n) else Digits(n)
  }

  /** `formatDuration`: hours, `ч `, minutes without zero-padding, `мин`. */
  function FormatDuration(minutes: int): string {
    NumberToString(Hours(minutes)) + HoursUnit + NumberToString(Mins(minutes)) + MinutesUnit
  }

  /** The value a string of decimal digits denotes. */
  function DigitsValue(s: string): nat
    requires AllDigits(s)
  {
    if s == [] then 0 else DigitsValue(s[..|s| - 1]) * 10 + (s[|s| - 1] as int - '0' as int)
  }

  /** The longest prefix of `s` made of digits. */
  function LeadingDigits(s: string): (d: string)
    ensures |d| <= |s| && d == s[..|d|] && AllDigits(d)
    ensures |d| < |s| ==> !IsDigit(s[|d|])
  {
    if s != [] && IsDigit(s[0]) then [s[0]] + LeadingDigits(s[1..]) else []
  }

  const HoursUnit: string := "ч "
  const MinutesUnit: string := "мин"

  /** `s` without the prefix `p`, if it starts with it. */
  function StripPrefix(p: string, s: string): Option<string> {
    if |p| <= |s| && s[..|p|] == p then Some(s[|p|..]) else None
  }

  /** Reads the minutes part back: digits followed by exactly the unit `mu`. */
  function ParseMinutes(mu: string, tail: string): Option<nat> {
    var m := LeadingDigits(tail);
    if m == [] || tail[|m|..] != mu then None else Some(DigitsValue(m))
  }

  /** Reads back digits, the unit `hu`, then the minutes part with unit `mu`. */
  function ParseDurationWith(hu: string, mu: string, s: string): Option<int> {
    var h := LeadingDigits(s);
    if h == [] then None
    else match StripPrefix(hu, s[|h|..])
      case None => None
      case Some(tail) =>
        match ParseMinutes(mu, tail)
        case None => None
        case Some(mins) => Some(DigitsValue(h) * 60 + mins)
  }

  /** Reads a rendered duration back: digits, `ч `, digits, `мин`. */
  function ParseDuration(s: string): Option<int> {
    ParseDurationWith(HoursUnit, MinutesUnit, s)
  }

  lemma {:induction false} DigitsValueOfDigits(n: nat)
    ensures DigitsValue(Digits(n)) == n
  {
    if n >= 10 {
      DigitsValueOfDigits(n / 10);
      var s := Digits(n);
      assert s[..|s| - 1] == Digits(n / 10);
    }
  }

  lemma {:induction false} LeadingDigitsStop(d: string, t: string)
    requires AllDigits(d)
    requires t == [] || !IsDigit(t[0])
    ensures LeadingDigits(d + t) == d
  {
    if d != [] {
      LeadingDigitsStop(d[1..], t);
      assert (d + t)[1..] == d[1..] + t;
    } else {
      assert d + t == t;
    }
  }

  lemma {:induction false} StripPrefixOf(p: string, t: string)
    ensures StripPrefix(p, p + t) == Some(t)
  {
    assert (p + t)[..|p|] == p;
    assert (p + t)[|p|..] == t;
  }

  lemma {:induction false} ParseDurationAccepts(hu: string, mu: string, s: string, h: string, tail: string, mins: nat)
    requires LeadingDigits(s) == h && h != []
    requires StripPrefix(hu, s[|h|..]) == Some(tail)
    requires ParseMinutes(mu, tail) == Some(mins)
    ensures ParseDurationWith(hu, mu, s) == Some(DigitsValue(h) * 60 + mins)
  {
  }

  /** The hours part: digits followed by a unit that starts with a non-digit. */
  lemma {:induction false} HoursPart(hu: string, hd: string, tail: string, s: string)
    requires hu != [] && !IsDigit(hu[0])
    requires AllDigits(hd) && s == hd + (hu + tail)
    ensures LeadingDigits(s) == hd
    ensures StripPrefix(hu, s[|hd|..]) == Some(tail)
  {
    var rest := hu + tail;
    assert rest[0] == hu[0];
    LeadingDigitsStop(hd, rest);
    assert (hd + rest)[|hd|..] == rest;
    StripPrefixOf(hu, tail);
  }

  /** The minutes part: digits followed by exactly a unit that starts with a non-digit. */
  lemma {:induction false} MinutesPart(mu: string, md: string, tail: string)
    requires mu != [] && !IsDigit(mu[0])
    requires |md| >= 1 && AllDigits(md) && tail == md + mu
    ensures ParseMinutes(mu, tail) == Some(DigitsValue(md))
  {
    LeadingDigitsStop(md, mu);
    assert (md + mu)[|md|..] == mu;
  }

  lemma {:induction false} ConcatRight(a: string, b: string, c: string, d: string)
    ensures a + b + c + d == a + (b + (c + d))
  {
  }

  /** Reading back digits, the hours unit, digits, the minutes unit yields the two
      numbers recomposed, for any units that do not start with a digit. */
  lemma {:induction false} ParseRendered(hu: string, mu: string, hd: string, md: string, s: string)
    requires hu != [] && !IsDigit(hu[0]) && mu != [] && !IsDigit(mu[0])
    requires |hd| >= 1 && AllDigits(hd) && |md| >= 1 && AllDigits(md)
    requires s == hd + hu + md + mu
    ensures ParseDurationWith(hu, mu, s) == Some(DigitsValue(hd) * 60 + DigitsValue(md))
  {
    var tail := md + mu;
    assert LeadingDigits(s) == hd && StripPrefix(hu, s[|hd|..]) == Some(tail) by {
      ConcatRight(hd, hu, md, mu);
      HoursPart(hu, hd, tail, s);
    }
    assert ParseMinutes(mu, tail) == Some(DigitsValue(md)) by {
      MinutesPart(mu, md, tail);
    }
    assert ParseDurationWith(hu, mu, s) == Some(DigitsValue(hd) * 60 + DigitsValue(md)) by {
      ParseDurationAccepts(hu, mu, s, hd, tail, DigitsValue(md));
    }
  }

  /** Rendering a non-negative duration loses nothing: it reads back as the same
      number of minutes. */
  lemma {:induction false} FormatDurationRoundTrip(minutes: int)
    requires minutes >= 0
    ensures ParseDuration(FormatDuration(minutes)) == Some(minutes)
  {
    DurationSplit(minutes);
    var hd, md := Digits(Hours(minutes)), Digits(Mins(minutes));
    assert HoursUnit[0] == 'ч' && MinutesUnit[0] == 'м';
    ParseRendered(HoursUnit, MinutesUnit, hd, md, FormatDuration(minutes));
    DigitsValueOfDigits(Hours(minutes));
    DigitsValueOfDigits(Mins(minutes));
  }
}
