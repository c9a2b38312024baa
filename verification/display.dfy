/** The lockout countdown as shown on the blocked screen: minutes and seconds,
    each padded to two digits, handed out one digit per rotating card. */
module Display {
  import opened Decimal

  /** `formatTime(seconds)`: the digits of the whole minutes padded to two,
      followed by the digits of the remaining seconds padded to two. Under
      100 minutes this is exactly four cards, MM SS, that spell `seconds`
      back as minutes and seconds with a tens-of-seconds digit of at most 5. */
  function FormatTime(seconds: nat): (r: string)
    ensures |r| >= 4 && AllDigits(r)
    ensures seconds < 6000 ==>
              && |r| == 4
              && 60 * (10 * DigitValue(r[0]) + DigitValue(r[1]))
                   + 10 * DigitValue(r[2]) + DigitValue(r[3]) == seconds
              && DigitValue(r[2]) <= 5
  {
    CardsAreDigits(seconds);
    FourCards(seconds);
    Cards(seconds)
  }

  /** The minutes group followed by the seconds group. */
  function Cards(seconds: nat): string {
    PadStart(ToString(seconds / 60), 2) + PadStart(ToString(seconds % 60), 2)
  }

  lemma CardsAreDigits(seconds: nat)
    ensures |Cards(seconds)| >= 4 && AllDigits(Cards(seconds))
  {
    var minutes := PadStart(ToString(seconds / 60), 2);
    var rest := PadStart(ToString(seconds % 60), 2);
    PadStartDigits(ToString(seconds / 60), 2);
    PadStartDigits(ToString(seconds % 60), 2);
    DigitsConcat(minutes, rest);
  }

  lemma FourCards(seconds: nat)
    ensures seconds < 6000 ==>
              var r := Cards(seconds);
              && |r| == 4 && AllDigits(r)
              && 60 * (10 * DigitValue(r[0]) + DigitValue(r[1]))
                   + 10 * DigitValue(r[2]) + DigitValue(r[3]) == seconds
              && DigitValue(r[2]) <= 5
  {
    if seconds < 6000 {
      FourCardsUnder(seconds);
    }
  }

  lemma FourCardsUnder(seconds: nat)
    requires seconds < 6000
    ensures var r := Cards(seconds);
            && |r| == 4 && AllDigits(r)
            && 60 * (10 * DigitValue(r[0]) + DigitValue(r[1]))
                 + 10 * DigitValue(r[2]) + DigitValue(r[3]) == seconds
            && DigitValue(r[2]) <= 5
  {
    var m := seconds / 60;
    var sec := seconds % 60;
    var minutes := PadStart(ToString(m), 2);
    var rest := PadStart(ToString(sec), 2);
    var r := Cards(seconds);
    assert r == minutes + rest;
    TwoCards(sec);
    TwoCards(m);
    assert r[0] == minutes[0] && r[1] == minutes[1] && r[2] == rest[0] && r[3] == rest[1];
    assert seconds == 60 * m + sec;
  }

  /** One two-card group: a number under 100 padded to exactly two digits. */
  lemma TwoCards(n: nat)
    requires n < 100
    ensures var p := PadStart(ToString(n), 2);
            |p| == 2 && AllDigits(p) && 10 * DigitValue(p[0]) + DigitValue(p[1]) == n
  {
    var p := PadStart(ToString(n), 2);
    TwoDigitsAtMost(n);
    ParsePadStart(ToString(n), 2);
    ParseToString(n);
    ParseTwoDigits(p);
  }

  lemma TwoDigitsAtMost(n: nat)
    requires n < 100
    ensures |ToString(n)| <= 2
  {
  }

  /** Whatever the number of minutes, the last two cards are the seconds and
      everything before them the minutes: reading them back gives `seconds`. */
  lemma FormatTimeReadsBack(seconds: nat)
    ensures var r := FormatTime(seconds);
            ParseInt(r[..|r| - 2]) * 60 + ParseInt(r[|r| - 2..]) == seconds
            && DigitValue(r[|r| - 2]) <= 5
  {
    var minutes := PadStart(ToString(seconds / 60), 2);
    var rest := PadStart(ToString(seconds % 60), 2);
    var r := FormatTime(seconds);
    assert r == minutes + rest;
    TwoDigitsAtMost(seconds % 60);
    assert |rest| == 2;
    assert r[..|r| - 2] == minutes && r[|r| - 2..] == rest;
    ParsePadStart(ToString(seconds / 60), 2);
    ParsePadStart(ToString(seconds % 60), 2);
    ParseToString(seconds / 60);
    ParseToString(seconds % 60);
    ParseTwoDigits(rest);
  }

  /** A fresh lockout of 3599 seconds shows 59:59. */
  lemma FullLockoutShows5959(seconds: nat, shown: string)
    requires seconds == 3599 && shown == "5959"
    ensures FormatTime(seconds) == shown
  {
    assert seconds / 60 == 59 && seconds % 60 == 59;
    var five, nine := DigitChar(5), DigitChar(9);
    assert five == '5' && nine == '9';
    assert ToString(5) == [five];
    assert ToString(59) == [five, nine];
    assert Cards(seconds) == [five, nine] + [five, nine];
  }
}
