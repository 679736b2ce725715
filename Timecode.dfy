/** SubRip timecodes `HH:MM:SS,mmm`. A time is a non-negative number of
    milliseconds (the model's stand-in for `CMTime`). */
module Timecode {
  import opened Wrappers
  import opened Decimal

  /** Whole seconds, minutes and hours of a time, each field below its
      wrap-around bound (the hour field has none). */
  function Millis(t: nat): nat { t % 1000 }
  function Seconds(t: nat): nat { t / 1000 % 60 }
  function Minutes(t: nat): nat { t / 1000 / 60 % 60 }
  function Hours(t: nat): nat { t / 1000 / 60 / 60 }

  /** The time in whole seconds, the value of `startTimeInSeconds` and
      `endTimeInSeconds`: the fraction of a second is dropped. */
  function InSeconds(t: nat): (r: nat)
    ensures r * 1000 <= t < r * 1000 + 1000
    ensures r == Hours(t) * 3600 + Minutes(t) * 60 + Seconds(t)
  {
    t / 1000
  }

  /** `_convertCMTimeToString:`: two-digit hour (more when the time is 100
      hours or longer), minute and second fields and a three-digit
      millisecond field. */
  function ConvertTimeToString(t: nat): (r: string)
    ensures |r| >= 12
  {
    FormatFields(Hours(t), Minutes(t), Seconds(t), Millis(t))
  }

  /** The `%02d:%02d:%02d,%03d` layout of four fields. */
  function FormatFields(h: nat, m: nat, s: nat, ms: nat): string {
    Pad(h, 2) + ":" + Pad(m, 2) + ":" + Pad(s, 2) + "," + Pad(ms, 3)
  }

  /** Every formatted time has the timecode shape and uses only digits and
      the two separators. */
  lemma ConvertedShape(t: nat)
    ensures IsTimecodeShape(ConvertTimeToString(t))
    ensures forall i :: 0 <= i < |ConvertTimeToString(t)| ==> IsTimecodeChar(ConvertTimeToString(t)[i])
  {
    PadWidths(Minutes(t), Seconds(t), Millis(t));
    FieldsShape(Pad(Hours(t), 2), Pad(Minutes(t), 2), Pad(Seconds(t), 2), Pad(Millis(t), 3));
  }

  lemma PadWidths(m: nat, s: nat, ms: nat)
    requires m < 100 && s < 100 && ms < 1000
    ensures |Pad(m, 2)| == 2 && |Pad(s, 2)| == 2 && |Pad(ms, 3)| == 3
  {
    assert Pow10(2) == 100 && Pow10(3) == 1000 by {
      assert Pow10(1) == 10;
    }
    PadLength(m, 2);
    PadLength(s, 2);
    PadLength(ms, 3);
  }

  /** Four digit fields joined by `:`, `:` and `,` have the timecode shape. */
  lemma FieldsShape(hs: string, ms: string, ss: string, fs: string)
    requires |hs| >= 2 && |ms| == 2 && |ss| == 2 && |fs| == 3
    requires AllDigits(hs) && AllDigits(ms) && AllDigits(ss) && AllDigits(fs)
    ensures var r := hs + ":" + ms + ":" + ss + "," + fs;
            && IsTimecodeShape(r) && |r| == |hs| + 10
            && forall i :: 0 <= i < |r| ==> IsTimecodeChar(r[i])
  {
    var r := hs + ":" + ms + ":" + ss + "," + fs;
    assert r[..|r| - 10] == hs;
    assert r[|r| - 9..|r| - 7] == ms;
    assert r[|r| - 6..|r| - 4] == ss;
    assert r[|r| - 3..] == fs;
    forall i | 0 <= i < |r| ensures IsTimecodeChar(r[i]) {
      if i < |hs| {
        assert r[i] == hs[i];
      } else if |hs| < i < |hs| + 3 {
        assert r[i] == ms[i - |hs| - 1];
      } else if |hs| + 3 < i < |hs| + 6 {
        assert r[i] == ss[i - |hs| - 4];
      } else if |hs| + 6 < i {
        assert r[i] == fs[i - |hs| - 7];
      }
    }
  }

  /** The timecode has exactly twelve characters just when the time is
      below 100 hours. */
  lemma TimecodeLength(t: nat)
    ensures |ConvertTimeToString(t)| == 12 <==> t < 100 * 3600000
  {
    PadWidths(Minutes(t), Seconds(t), Millis(t));
    PadLength(Hours(t), 2);
    assert Pow10(2) == 100;
    HoursBelow(t, 100);
  }

  lemma HoursBelow(t: nat, n: nat)
    ensures Hours(t) < n <==> t < n * 3600000
  {
    assert t / 1000 / 60 / 60 == t / 3600000;
  }

  predicate IsTimecodeChar(c: char) {
    IsDigit(c) || c == ':' || c == ','
  }

  /** The textual form `H..H:MM:SS,mmm`: at least two hour digits, then
      two-digit minute and second fields and three millisecond digits. */
  predicate IsTimecodeShape(r: string) {
    && |r| >= 12
    && AllDigits(r[..|r| - 10])
    && r[|r| - 10] == ':' && AllDigits(r[|r| - 9..|r| - 7])
    && r[|r| - 7] == ':' && AllDigits(r[|r| - 6..|r| - 4])
    && r[|r| - 4] == ',' && AllDigits(r[|r| - 3..])
  }

  /** The number of decimal digits at the front of `s`. */
  function DigitRun(s: string): (n: nat)
    ensures n <= |s| && AllDigits(s[..n])
    ensures n < |s| ==> !IsDigit(s[n])
  {
    if s != [] && IsDigit(s[0]) then
      var n := 1 + DigitRun(s[1..]);
      assert s[..n] == [s[0]] + s[1..][..n - 1];
      n
    else 0
  }

  /** The ten characters after the hour field, `:MM:SS,mmm`, read as
      minutes, seconds and milliseconds; `None` on a wrong separator, a
      non-digit, or minutes or seconds of 60 or more. */
  function TimecodeTail(f: string): (r: Option<(nat, nat, nat)>)
    requires |f| == 10
    ensures r.Some? ==> r.value.0 < 60 && r.value.1 < 60 && r.value.2 < 1000
  {
    if f[0] != ':' || f[3] != ':' || f[6] != ',' then None
    else if !(IsDigit(f[1]) && IsDigit(f[2]) && IsDigit(f[4]) && IsDigit(f[5])
              && IsDigit(f[7]) && IsDigit(f[8]) && IsDigit(f[9])) then None
    else
      var mm := 10 * DigitValue(f[1]) + DigitValue(f[2]);
      var ss := 10 * DigitValue(f[4]) + DigitValue(f[5]);
      if mm >= 60 || ss >= 60 then None
      else Some((mm, ss, 100 * DigitValue(f[7]) + 10 * DigitValue(f[8]) + DigitValue(f[9])))
  }

  /** Reads one timecode at the front of `s`: the time in milliseconds and
      the number of characters it takes, or `None` when `s` does not start
      with a timecode (no hour digit, missing field, wrong separator,
      minutes or seconds of 60 or more). */
  function ParseTimecode(s: string): (r: Option<(nat, nat)>)
    ensures r.Some? ==> 11 <= r.value.1 <= |s|
  {
    var n := DigitRun(s);
    if n == 0 || n + 10 > |s| then None
    else
      match TimecodeTail(s[n..n + 10])
      case None => None
      case Some((mm, ss, ms)) => Some((((Value(s[..n]) * 60 + mm) * 60 + ss) * 1000 + ms, n + 10))
  }

  lemma {:induction false} DigitRunOf(hs: string, rest: string)
    requires AllDigits(hs)
    requires rest != [] && !IsDigit(rest[0])
    ensures DigitRun(hs + rest) == |hs|
    decreases |hs|
  {
    var s := hs + rest;
    if hs == [] {
      assert s == rest;
    } else {
      assert s[0] == hs[0] && IsDigit(hs[0]);
      assert s[1..] == hs[1..] + rest;
      DigitRunOf(hs[1..], rest);
    }
  }

  /** The tail `:MM:SS,mmm` built from digit fields is read as their values. */
  lemma TailOf(ms: string, ss: string, fs: string)
    requires |ms| == 2 && |ss| == 2 && |fs| == 3
    requires AllDigits(ms) && AllDigits(ss) && AllDigits(fs)
    requires Value(ms) < 60 && Value(ss) < 60
    ensures |":" + ms + ":" + ss + "," + fs| == 10
    ensures TimecodeTail(":" + ms + ":" + ss + "," + fs) == Some((Value(ms), Value(ss), Value(fs)))
  {
    var f := ":" + ms + ":" + ss + "," + fs;
    assert f[1] == ms[0] && f[2] == ms[1];
    assert f[4] == ss[0] && f[5] == ss[1];
    assert f[7] == fs[0] && f[8] == fs[1] && f[9] == fs[2];
    TwoDigitValue(ms);
    TwoDigitValue(ss);
    ThreeDigitValue(fs);
  }

  /** The fields of a time put back together give the time. */
  lemma {:induction false} FieldsCompose(t: nat)
    ensures ((Hours(t) * 60 + Minutes(t)) * 60 + Seconds(t)) * 1000 + Millis(t) == t
  {
    var secs := t / 1000;
    var mins := secs / 60;
    assert t == secs * 1000 + Millis(t);
    assert secs == mins * 60 + Seconds(t);
    assert mins == Hours(t) * 60 + Minutes(t);
  }

  /** An hour field and a tail built from digit fields, followed by anything,
      are read as the time they denote. */
  lemma ParseFront(hs: string, ms: string, ss: string, fs: string, post: string, total: nat)
    requires |hs| >= 1 && |ms| == 2 && |ss| == 2 && |fs| == 3
    requires AllDigits(hs) && AllDigits(ms) && AllDigits(ss) && AllDigits(fs)
    requires Value(ms) < 60 && Value(ss) < 60
    requires total == ((Value(hs) * 60 + Value(ms)) * 60 + Value(ss)) * 1000 + Value(fs)
    ensures |hs + ":" + ms + ":" + ss + "," + fs| == |hs| + 10
    ensures ParseTimecode(hs + ":" + ms + ":" + ss + "," + fs + post) == Some((total, |hs| + 10))
  {
    var tail := ":" + ms + ":" + ss + "," + fs;
    assert hs + ":" + ms + ":" + ss + "," + fs + post == hs + tail + post;
    TailOf(ms, ss, fs);
    SplitFront(hs, tail, post);
    var s := hs + tail + post;
    ParseParts(s, hs, tail, Value(ms), Value(ss), Value(fs), total);
  }

  lemma SplitFront(hs: string, tail: string, post: string)
    requires AllDigits(hs) && |tail| == 10 && tail[0] == ':'
    ensures var s := hs + tail + post;
            DigitRun(s) == |hs| && s[..|hs|] == hs && s[|hs|..|hs| + 10] == tail
  {
    var s := hs + tail + post;
    assert s == hs + (tail + post);
    assert (tail + post)[0] == ':';
    DigitRunOf(hs, tail + post);
  }

  lemma ParseParts(s: string, hs: string, tail: string, mm: nat, ss: nat, ms: nat, total: nat)
    requires |hs| >= 1 && |hs| + 10 <= |s| && DigitRun(s) == |hs|
    requires s[..|hs|] == hs && s[|hs|..|hs| + 10] == tail
    requires TimecodeTail(tail) == Some((mm, ss, ms))
    requires AllDigits(hs) && total == ((Value(hs) * 60 + mm) * 60 + ss) * 1000 + ms
    ensures ParseTimecode(s) == Some((total, |hs| + 10))
  {
  }

  /** Formatting a time and reading the timecode back, whatever follows it,
      yields the same number of milliseconds and consumes exactly the
      formatted text. */
  lemma ParseConvertedTime(t: nat, post: string)
    ensures ParseTimecode(ConvertTimeToString(t) + post) == Some((t, |ConvertTimeToString(t)|))
  {
    FieldWidths(t);
    FieldValues(t);
    ParseFront(Pad(Hours(t), 2), Pad(Minutes(t), 2), Pad(Seconds(t), 2), Pad(Millis(t), 3), post, t);
  }

  /** The padded fields of a time read back as minutes and seconds below 60
      and recompose to the time. */
  lemma FieldValues(t: nat)
    ensures Value(Pad(Minutes(t), 2)) < 60 && Value(Pad(Seconds(t), 2)) < 60
    ensures t == ((Value(Pad(Hours(t), 2)) * 60 + Value(Pad(Minutes(t), 2))) * 60
                  + Value(Pad(Seconds(t), 2))) * 1000 + Value(Pad(Millis(t), 3))
  {
    ValueOfPad(Hours(t), 2);
    ValueOfPad(Minutes(t), 2);
    ValueOfPad(Seconds(t), 2);
    ValueOfPad(Millis(t), 3);
    FieldsCompose(t);
  }

  lemma FieldWidths(t: nat)
    ensures |Pad(Minutes(t), 2)| == 2 && |Pad(Seconds(t), 2)| == 2 && |Pad(Millis(t), 3)| == 3
  {
    PadLength(Minutes(t), 2);
    PadLength(Seconds(t), 2);
    PadLength(Millis(t), 3);
  }
}
