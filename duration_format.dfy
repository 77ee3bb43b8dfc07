/** `formatDuration` of the dashboard page (`pages/dashboard.js`): a number of
    seconds shown as hours and minutes, or as minutes and seconds below an
    hour. */
module DurationFormat {
  import opened Wrappers
  import opened Strings

  /** JavaScript's `%`: the remainder takes the sign of the dividend. */
  function JsRem(a: int, b: int): (r: int)
    requires b > 0
    ensures a >= 0 ==> r == a % b
    ensures a < 0 ==> -b < r <= 0
  {
    if a >= 0 then a % b else -((-a) % b)
  }

  /** `Math.floor(s / 3600)`. */
  function Hours(s: int): int { s / 3600 }

  /** `Math.floor((s % 3600) / 60)`. */
  function Minutes(s: int): int { JsRem(s, 3600) / 60 }

  /** `s % 60`. */
  function Seconds(s: int): int { JsRem(s, 60) }

  /** The text shown for a duration; no value shows an em dash. */
  function FormatDuration(sec: Option<int>): (r: string)
    ensures sec.None? ==> r == "\U{2014}"
  {
    match sec
    case None => "\U{2014}"
    case Some(s) =>
      if Hours(s) > 0 then IntToString(Hours(s)) + "h " + IntToString(Minutes(s)) + "m"
      else IntToString(Minutes(s)) + "m " + IntToString(Seconds(s)) + "s"
  }

  /** For a non-negative duration the three parts add back up to it and the
      minutes and seconds are below 60. */
  lemma Components(s: nat)
    ensures Hours(s) * 3600 + Minutes(s) * 60 + Seconds(s) == s
    ensures 0 <= Hours(s) && 0 <= Minutes(s) < 60 && 0 <= Seconds(s) < 60
  {
    var h, r := s / 3600, s % 3600;
    assert Hours(s) == h && Minutes(s) == r / 60 && Seconds(s) == s % 60;
    var m, ss := r / 60, r % 60;
    assert s == h * 3600 + r;
    assert r == m * 60 + ss;
    SecondsOfSum(h * 60 + m, ss, s);
  }

  lemma SecondsOfSum(q: int, ss: int, s: int)
    requires 0 <= ss < 60 && s == q * 60 + ss
    ensures s % 60 == ss
  {
  }

  /** From one hour on the text is `<h>h <m>m`, below it `<m>m <s>s`. */
  lemma Shape(s: nat)
    ensures s >= 3600 ==>
      FormatDuration(Some(s)) == NatToString(s / 3600) + "h " + NatToString(s % 3600 / 60) + "m"
    ensures s < 3600 ==>
      FormatDuration(Some(s)) == NatToString(s / 60) + "m " + NatToString(s % 60) + "s"
  {
    Components(s);
  }

  lemma NoLetterH(i: int)
    ensures 'h' !in IntToString(i)
  {
    var r := IntToString(i);
    var digits := if i >= 0 then r else r[1..];
    assert digits == NatToString(if i >= 0 then i else -i);
    assert forall k :: 0 <= k < |digits| ==> IsDigit(digits[k]);
    if i < 0 {
      assert r == "-" + digits;
    }
  }

  /** Any duration below an hour, negative ones included, has no hours part. */
  lemma NoHoursBelowAnHour(s: int)
    requires s < 3600
    ensures 'h' !in FormatDuration(Some(s))
  {
    assert Hours(s) <= 0;
    NoLetterH(Minutes(s));
    NoLetterH(Seconds(s));
  }
}
