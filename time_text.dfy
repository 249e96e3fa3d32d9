/**
 * The two integer/text conversions of the timer page: `writeTime` renders a
 * number of seconds into the minutes and seconds text fields, and
 * `readEditableTime` reads the (possibly user-edited) fields back into seconds.
 * `onEditBlur` is the composition that normalises an edit.
 */
module TimeText {
  import opened Wrappers

  /** The two editable text fields of the display, `#minutes` and `#seconds`. */
  datatype Display = Display(minutes: string, seconds: string)

  predicate IsDigit(c: char) { '0' <= c <= '9' }

  /** The whitespace skipped by `trim` and `parseInt` (ASCII subset). */
  predicate IsSpace(c: char) { c == ' ' || c == '\t' || c == '\n' || c == '\r' }

  predicate AllDigits(s: string) { forall i :: 0 <= i < |s| ==> IsDigit(s[i]) }

  function DigitChar(d: nat): (c: char)
    requires d < 10
    ensures IsDigit(c) && DigitValue(c) == d
  {
    "0123456789"[d]
  }

  function DigitValue(c: char): nat
    requires IsDigit(c)
  {
    (c as int) - ('0' as int)
  }

  /** The number a string of decimal digits denotes (leading zeros allowed). */
  function DigitsValue(s: string): nat
    requires AllDigits(s)
    decreases |s|
  {
    if s == [] then 0 else DigitsValue(s[..|s| - 1]) * 10 + DigitValue(s[|s| - 1])
  }

  // ---------------------------------------------------------------------------
  // Rendering: Number.prototype.toString, String.prototype.padStart, writeTime
  // ---------------------------------------------------------------------------

  /** `n.toString()` for a non-negative integer: its shortest decimal spelling. */
  function NatToString(n: nat): string
    decreases n
  {
    if n < 10 then [DigitChar(n)] else NatToString(n / 10) + [DigitChar(n % 10)]
  }

  function Zeros(k: nat): string
  {
    seq(k, _ => '0')
  }

  /** `s.padStart(width, '0')`. */
  function PadStart(s: string, width: nat): string
  {
    if |s| >= width then s else Zeros(width - |s|) + s
  }

  /** `writeTime(seconds)`: minutes `floor(s/60)` and seconds `s % 60`, each padded to two digits. */
  function WriteTime(seconds: nat): Display
  {
    Display(PadStart(NatToString(seconds / 60), 2), PadStart(NatToString(seconds % 60), 2))
  }

  // ---------------------------------------------------------------------------
  // Reading: String.prototype.trim, parseInt(text, 10), readEditableTime
  // ---------------------------------------------------------------------------

  /** Drops leading whitespace. */
  function TrimStart(s: string): string
    decreases |s|
  {
    if s != [] && IsSpace(s[0]) then TrimStart(s[1..]) else s
  }

  /** Drops trailing whitespace. */
  function TrimEnd(s: string): string
    decreases |s|
  {
    if s != [] && IsSpace(s[|s| - 1]) then TrimEnd(s[..|s| - 1]) else s
  }

  /** `s.trim()`. */
  function Trim(s: string): string
  {
    TrimEnd(TrimStart(s))
  }

  /** The longest prefix of `s` made of decimal digits. */
  function DigitPrefix(s: string): (r: string)
    ensures AllDigits(r)
    decreases |s|
  {
    if s != [] && IsDigit(s[0]) then [s[0]] + DigitPrefix(s[1..]) else []
  }

  /** `parseInt` after the leading whitespace: an optional sign, then a digit prefix; `None` is `NaN`. */
  function ParseSigned(s: string): Option<int>
  {
    if s != [] && (s[0] == '-' || s[0] == '+') then
      var digits := DigitPrefix(s[1..]);
      if digits == [] then None
      else
        var magnitude: int := DigitsValue(digits);
        Some(if s[0] == '-' then -magnitude else magnitude)
    else
      var digits := DigitPrefix(s);
      if digits == [] then None else Some(DigitsValue(digits))
  }

  /** `parseInt(text, 10)`: leading whitespace is skipped, trailing garbage ignored. */
  function ParseInt(text: string): Option<int>
  {
    ParseSigned(TrimStart(text))
  }

  /** `Math.max(0, parseInt(text, 10) || 0)`: `NaN` and `0` both fall back to `0`. */
  function ReadField(text: string): nat
  {
    var v := match ParseInt(text) case None => 0 case Some(v) => v;
    if v > 0 then v else 0
  }

  /** `readEditableTime()`: both fields trimmed, read, and combined as `mins * 60 + secs`. */
  function ReadEditableTime(d: Display): nat
  {
    ReadField(Trim(d.minutes)) * 60 + ReadField(Trim(d.seconds))
  }

  /** The total `mins * 60 + secs` that `onEditBlur` computes from the untrimmed fields. */
  function FieldsTotal(d: Display): nat
  {
    ReadField(d.minutes) * 60 + ReadField(d.seconds)
  }

  /** The display `onEditBlur` writes back: the total re-rendered by `writeTime`. */
  function NormaliseFields(d: Display): Display
  {
    WriteTime(FieldsTotal(d))
  }

  /** A text `parseInt` reads as a number: optional whitespace, optional sign, at least one digit. */
  predicate StartsNumeric(text: string)
  {
    var s := TrimStart(text);
    (s != [] && IsDigit(s[0])) || (|s| >= 2 && (s[0] == '-' || s[0] == '+') && IsDigit(s[1]))
  }

  // ---------------------------------------------------------------------------
  // Lemmas
  // ---------------------------------------------------------------------------

  /** `toString` spells `n` in decimal digits without leading zeros: one digit below 10, two below 100. */
  lemma {:induction false} NatToStringSpec(n: nat)
    ensures var r := NatToString(n);
      && r != [] && AllDigits(r) && DigitsValue(r) == n
      && (n < 10 ==> |r| == 1) && (10 <= n < 100 ==> |r| == 2)
      && (|r| > 1 ==> r[0] != '0')
    decreases n
  {
    if n >= 10 {
      NatToStringSpec(n / 10);
      var prefix := NatToString(n / 10);
      var r := prefix + [DigitChar(n % 10)];
      assert r[..|r| - 1] == prefix;
    }
  }

  /** `padStart` keeps the text as its suffix and fills up to the width with zeros. */
  lemma PadStartSpec(s: string, width: nat)
    ensures var r := PadStart(s, width);
      && |r| == (if |s| >= width then |s| else width)
      && r == Zeros(|r| - |s|) + s
  {
  }

  /** `TrimStart` drops exactly the leading whitespace: what is dropped is whitespace and
      what is left does not start with it. */
  lemma {:induction false} TrimStartSpec(s: string)
    ensures var r := TrimStart(s);
      && |r| <= |s| && r == s[|s| - |r|..]
      && (forall i :: 0 <= i < |s| - |r| ==> IsSpace(s[i]))
      && (r == [] || !IsSpace(r[0]))
    decreases |s|
  {
    if s != [] && IsSpace(s[0]) {
      TrimStartSpec(s[1..]);
    }
  }

  /** `TrimEnd` drops exactly the trailing whitespace. */
  lemma {:induction false} TrimEndSpec(s: string)
    ensures var r := TrimEnd(s);
      && |r| <= |s| && r == s[..|r|]
      && (forall i :: |r| <= i < |s| ==> IsSpace(s[i]))
      && (r == [] || !IsSpace(r[|r| - 1]))
    decreases |s|
  {
    if s != [] && IsSpace(s[|s| - 1]) {
      TrimEndSpec(s[..|s| - 1]);
    }
  }

  /** `DigitPrefix` is the longest prefix made of digits. */
  lemma {:induction false} DigitPrefixSpec(s: string)
    ensures var r := DigitPrefix(s);
      && |r| <= |s| && r == s[..|r|]
      && (|r| < |s| ==> !IsDigit(s[|r|]))
    decreases |s|
  {
    if s != [] && IsDigit(s[0]) {
      DigitPrefixSpec(s[1..]);
    }
  }

  lemma {:induction false} ZerosValue(k: nat)
    ensures AllDigits(Zeros(k)) && DigitsValue(Zeros(k)) == 0
  {
    if k > 0 {
      assert Zeros(k)[..k - 1] == Zeros(k - 1);
      ZerosValue(k - 1);
    }
  }

  /** Leading zeros do not change the value of a digit string. */
  lemma {:induction false} LeadingZeros(k: nat, s: string)
    requires AllDigits(s)
    ensures AllDigits(Zeros(k) + s) && DigitsValue(Zeros(k) + s) == DigitsValue(s)
    decreases |s|
  {
    var z := Zeros(k) + s;
    if s == [] {
      assert z == Zeros(k);
      ZerosValue(k);
    } else {
      assert z[..|z| - 1] == Zeros(k) + s[..|s| - 1];
      LeadingZeros(k, s[..|s| - 1]);
    }
  }

  /** One field as `writeTime` renders it: at least two digits denoting `k`, exactly two below 100. */
  lemma PaddedField(k: nat)
    ensures var r := PadStart(NatToString(k), 2);
      && |r| >= 2 && AllDigits(r) && DigitsValue(r) == k && (k < 100 ==> |r| == 2)
  {
    var s := NatToString(k);
    NatToStringSpec(k);
    PadStartSpec(s, 2);
    LeadingZeros(|PadStart(s, 2)| - |s|, s);
  }

  /** `writeTime(n)`: a two-digit seconds field in 00..59 and a minutes field of at least
      two digits, which together denote exactly `n` seconds. */
  lemma WriteTimeFields(n: nat)
    ensures var d := WriteTime(n);
      && |d.seconds| == 2 && AllDigits(d.seconds) && DigitsValue(d.seconds) == n % 60 < 60
      && |d.minutes| >= 2 && AllDigits(d.minutes) && DigitsValue(d.minutes) == n / 60
      && DigitsValue(d.minutes) * 60 + DigitsValue(d.seconds) == n
  {
    PaddedField(n / 60);
    PaddedField(n % 60);
  }

  /** The rendering of the built-in defaults: 25:00 and 05:00. */
  lemma DefaultDisplays()
    ensures WriteTime(25 * 60) == Display("25", "00")
    ensures WriteTime(5 * 60) == Display("05", "00")
  {
    assert NatToString(25) == "25" by { assert NatToString(2) == "2"; }
  }

  /** A digit string followed by a non-digit (or by nothing) has that string as its digit prefix. */
  lemma {:induction false} DigitPrefixOf(digits: string, rest: string)
    requires AllDigits(digits)
    requires rest == [] || !IsDigit(rest[0])
    ensures DigitPrefix(digits + rest) == digits
    decreases |digits|
  {
    if digits != [] {
      assert (digits + rest)[1..] == digits[1..] + rest;
      DigitPrefixOf(digits[1..], rest);
    }
  }

  /** Whitespace appended after a text does not change what `parseInt` reads from it. */
  lemma ParseSignedIgnoresTrailingSpace(u: string, w: string)
    requires forall i :: 0 <= i < |w| ==> IsSpace(w[i])
    ensures ParseSigned(u + w) == ParseSigned(u)
  {
    if u != [] && (u[0] == '-' || u[0] == '+') {
      assert (u + w)[1..] == u[1..] + w;
      DigitPrefixAppendSpace(u[1..], w);
    } else {
      DigitPrefixAppendSpace(u, w);
    }
  }

  lemma {:induction false} DigitPrefixAppendSpace(u: string, w: string)
    requires forall i :: 0 <= i < |w| ==> IsSpace(w[i])
    ensures DigitPrefix(u + w) == DigitPrefix(u)
    decreases |u|
  {
    if u == [] {
      assert u + w == w;
    } else if IsDigit(u[0]) {
      assert (u + w)[1..] == u[1..] + w;
      DigitPrefixAppendSpace(u[1..], w);
    }
  }

  /** `readEditableTime` trims the fields and `onEditBlur` does not; `parseInt` reads the same number either way. */
  lemma TrimKeepsParse(text: string)
    ensures ParseInt(Trim(text)) == ParseInt(text)
  {
    var t := TrimStart(text);
    var u := TrimEnd(t);
    TrimStartSpec(text);
    TrimEndSpec(t);
    var w := t[|u|..];
    assert t == u + w;
    assert TrimStart(u) == u;
    ParseSignedIgnoresTrailingSpace(u, w);
  }

  /** `parseInt` reads a non-empty digit string as the number it denotes. */
  lemma ParseDigits(s: string)
    requires s != [] && AllDigits(s)
    ensures ParseInt(s) == Some(DigitsValue(s))
  {
    assert TrimStart(s) == s;
    DigitPrefixOf(s, []);
    assert s + [] == s;
  }

  /** A non-empty digit string is read back as the number it denotes, trimmed or not. */
  lemma ReadDigits(s: string)
    requires s != [] && AllDigits(s)
    ensures Trim(s) == s
    ensures ReadField(s) == DigitsValue(s)
  {
    assert TrimStart(s) == s;
    assert TrimEnd(s) == s;
    ParseDigits(s);
  }

  /** `s` is the digit string `digits` followed by `rest`, which does not start with a digit. */
  predicate LeadingDigits(s: string, digits: string, rest: string)
  {
    s == digits + rest && digits != [] && AllDigits(digits) && (rest == [] || !IsDigit(rest[0]))
  }

  /** `readEditableTime` always returns a non-negative number; a field that is not numeric or
      that is negative contributes 0, and a field starting with digits, or with `+` and digits,
      contributes their value. */
  lemma ReadFieldCases(text: string)
    ensures ReadField(text) >= 0
    ensures !StartsNumeric(text) ==> ReadField(text) == 0
    ensures TrimStart(text) != [] && TrimStart(text)[0] == '-' ==> ReadField(text) == 0
    ensures forall digits, rest :: LeadingDigits(TrimStart(text), digits, rest) ==>
      ReadField(text) == DigitsValue(digits)
    ensures forall digits, rest ::
      TrimStart(text) != [] && TrimStart(text)[0] == '+' && LeadingDigits(TrimStart(text)[1..], digits, rest) ==>
      ReadField(text) == DigitsValue(digits)
  {
    forall digits, rest | LeadingDigits(TrimStart(text), digits, rest)
      ensures ReadField(text) == DigitsValue(digits)
    {
      DigitPrefixOf(digits, rest);
    }
    forall digits, rest | TrimStart(text) != [] && TrimStart(text)[0] == '+' && LeadingDigits(TrimStart(text)[1..], digits, rest)
      ensures ReadField(text) == DigitsValue(digits)
    {
      DigitPrefixOf(digits, rest);
    }
  }

  /** Round trip: reading the fields just written by `writeTime(n)` gives `n` back. */
  lemma ReadWriteRoundTrip(n: nat)
    ensures ReadEditableTime(WriteTime(n)) == n
    ensures FieldsTotal(WriteTime(n)) == n
  {
    var d := WriteTime(n);
    var m, s := d.minutes, d.seconds;
    assert DigitsValue(m) * 60 + DigitsValue(s) == n by { WriteTimeFields(n); }
    assert ReadField(m) == DigitsValue(m) && Trim(m) == m by { WriteTimeFields(n); ReadDigits(m); }
    assert ReadField(s) == DigitsValue(s) && Trim(s) == s by { WriteTimeFields(n); ReadDigits(s); }
  }

  /** `readEditableTime` and the untrimmed reading of `onEditBlur` agree on every display. */
  lemma TrimmedReadAgrees(d: Display)
    ensures ReadEditableTime(d) == FieldsTotal(d)
  {
    TrimKeepsParse(d.minutes);
    TrimKeepsParse(d.seconds);
  }

  /** `onEditBlur` keeps the total `mins * 60 + secs` that `readEditableTime` sees, and leaves a
      seconds field of two digits below 60. */
  lemma NormalisePreservesTotal(d: Display)
    ensures ReadEditableTime(NormaliseFields(d)) == ReadEditableTime(d)
    ensures var e := NormaliseFields(d);
      |e.seconds| == 2 && AllDigits(e.seconds) && DigitsValue(e.seconds) < 60
  {
    TrimmedReadAgrees(d);
    ReadWriteRoundTrip(FieldsTotal(d));
    WriteTimeFields(FieldsTotal(d));
  }

  /** A display written by `writeTime` is already normal: `onEditBlur` leaves it as it is. */
  lemma NormaliseFixesWriteTime(n: nat)
    ensures NormaliseFields(WriteTime(n)) == WriteTime(n)
  {
    ReadWriteRoundTrip(n);
  }

  /** Normalising twice is normalising once. */
  lemma NormaliseIdempotent(d: Display)
    ensures NormaliseFields(NormaliseFields(d)) == NormaliseFields(d)
  {
    NormaliseFixesWriteTime(FieldsTotal(d));
  }
}
