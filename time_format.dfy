/**
 * `pretty_time` of metrics_config.py: a duration in whole seconds rendered as
 * `<h>h<mm>m<ss>s`, every field left-padded with '0' to two characters.
 */
module TimeFormat {
  import opened Wrappers
  import opened Decimal

  /** Two-character (at least) zero-padded rendering of one field. */
  function Field2(n: nat): (s: string)
    ensures |s| >= 2 && AllDigits(s)
    ensures n < 100 ==> |s| == 2
  {
    ZeroPad(DecimalString(n), 2)
  }

  /** `pretty_time(t)` for whole seconds: two divmods by 60, then padding. */
  function PrettyTime(t: nat): (r: string)
    ensures |r| >= 9 && r[|r| - 1] == 's'
    ensures t < 360000 ==> |r| == 9
  {
    var m, s := t / 60, t % 60;
    var h, m' := m / 60, m % 60;
    Field2(h) + "h" + (Field2(m') + "m" + (Field2(s) + "s"))
  }

  /** Index of the first `c` in `s`, or `|s|` when there is none. */
  function IndexOf(s: string, c: char): (i: nat)
    ensures i <= |s|
    ensures i < |s| ==> s[i] == c
    ensures forall k :: 0 <= k < i ==> s[k] != c
  {
    if s == [] then 0 else if s[0] == c then 0 else 1 + IndexOf(s[1..], c)
  }

  /**
   * Reads a rendered duration back: hours of at least two digits, minutes and
   * seconds of exactly two digits each and below 60.
   */
  function ReadPrettyTime(r: string): Option<nat>
  {
    var i := IndexOf(r, 'h');
    if i == |r| then None else ReadMinutes(r[..i], r[i + 1..])
  }

  /** The part after the hours: minutes up to the `m`, then the seconds. */
  function ReadMinutes(hs: string, rest: string): Option<nat>
  {
    var j := IndexOf(rest, 'm');
    if j == |rest| then None else ReadSeconds(hs, rest[..j], rest[j + 1..])
  }

  /** The part after the minutes: two characters and the closing `s`. */
  function ReadSeconds(hs: string, ms: string, tail: string): Option<nat>
  {
    if |tail| != 3 || tail[2] != 's' then None else ReadClock(hs, ms, tail[..2])
  }

  /** The three fields as a number of seconds, when they are well formed. */
  function ReadClock(hs: string, ms: string, ss: string): Option<nat>
  {
    if !(AllDigits(hs) && AllDigits(ms) && AllDigits(ss)) || |hs| < 2 || |ms| != 2 then None
    else if DecimalValue(ms) >= 60 || DecimalValue(ss) >= 60 then None
    else Some(DecimalValue(hs) * 3600 + DecimalValue(ms) * 60 + DecimalValue(ss))
  }

  lemma {:induction false} IndexAfterDigits(d: string, c: char, rest: string)
    requires AllDigits(d) && !IsDigit(c)
    ensures IndexOf(d + [c] + rest, c) == |d|
  {
    if d != [] {
      assert (d + [c] + rest)[1..] == d[1..] + [c] + rest;
      IndexAfterDigits(d[1..], c, rest);
    }
  }

  /** Any three digit fields joined by 'h', 'm' and 's' read back field by field. */
  lemma {:induction false} ReadJoinedFields(hs: string, ms: string, ss: string)
    requires AllDigits(hs) && AllDigits(ms) && AllDigits(ss)
    requires |hs| >= 2 && |ms| == 2 && |ss| == 2
    requires DecimalValue(ms) < 60 && DecimalValue(ss) < 60
    ensures ReadPrettyTime(hs + "h" + (ms + "m" + (ss + "s")))
         == Some(DecimalValue(hs) * 3600 + DecimalValue(ms) * 60 + DecimalValue(ss))
  {
    ReadHours(hs, ms + "m" + (ss + "s"));
    ReadMinutesOf(hs, ms, ss + "s");
    assert (ss + "s")[..2] == ss;
  }

  lemma ReadHours(hs: string, rest: string)
    requires AllDigits(hs)
    ensures ReadPrettyTime(hs + "h" + rest) == ReadMinutes(hs, rest)
  {
    IndexAfterDigits(hs, 'h', rest);
    assert (hs + "h" + rest)[..|hs|] == hs && (hs + "h" + rest)[|hs| + 1..] == rest;
  }

  lemma ReadMinutesOf(hs: string, ms: string, tail: string)
    requires AllDigits(ms)
    ensures ReadMinutes(hs, ms + "m" + tail) == ReadSeconds(hs, ms, tail)
  {
    IndexAfterDigits(ms, 'm', tail);
    assert (ms + "m" + tail)[..|ms|] == ms && (ms + "m" + tail)[|ms| + 1..] == tail;
  }

  lemma SecondsSplit(t: nat)
    ensures t / 60 / 60 * 3600 + t / 60 % 60 * 60 + t % 60 == t
  {
    var q := t / 60;
    assert q * 60 + t % 60 == t;
    assert q / 60 * 60 + q % 60 == q;
  }

  /**
   * The rendered duration reads back as the seconds it was made from: the hour,
   * minute and second fields satisfy h*3600 + m*60 + s == t with m, s < 60, and
   * every field is at least two digits long.
   */
  lemma PrettyTimeRoundTrip(t: nat)
    ensures ReadPrettyTime(PrettyTime(t)) == Some(t)
  {
    var h, m, s := t / 60 / 60, t / 60 % 60, t % 60;
    PaddedValue(h, 2);
    PaddedValue(m, 2);
    PaddedValue(s, 2);
    ReadJoinedFields(Field2(h), Field2(m), Field2(s));
    SecondsSplit(t);
  }

  /** Two different durations never render alike. */
  lemma PrettyTimeInjective(t: nat, u: nat)
    requires PrettyTime(t) == PrettyTime(u)
    ensures t == u
  {
    PrettyTimeRoundTrip(t);
    PrettyTimeRoundTrip(u);
  }
}
