/** The FlipClock component (countdown.jsx:178-206): each field is rendered
    with toString and padStart(2, '0'), and the characters at indices 0 and 1
    of the four padded strings, in the order days, hours, minutes, seconds,
    are the digit props of the eight FlipUnits. A days string of three or more
    characters is not truncated by padStart, but only its first two characters
    reach a unit. */
module FlipClock {
  import opened Arith
  import opened Digits
  import opened CountdownTime

  /** n.toString().padStart(2, '0'). */
  function Pad2(n: nat): (s: string)
    ensures |s| >= 2
  {
    PadStart(NatToString(n), 2, '0')
  }

  /** Padding gives max(2, number of digits) characters: the decimal digits
      of n, preceded by zeros only, so the padded string still denotes n. */
  lemma Pad2Value(n: nat)
    ensures |Pad2(n)| == Max(2, NumDigits(n))
    ensures AllDigits(Pad2(n))
    ensures Pad2(n) == Zeros(|Pad2(n)| - NumDigits(n)) + NatToString(n)
    ensures ValueOf(Pad2(n)) == n
  {
    var s, k := Pad2(n), |Pad2(n)| - NumDigits(n);
    PadStartShape(NatToString(n), 2, '0');
    assert s == s[..k] + s[k..];
    assert s[..k] == Zeros(k);
    LeadingZerosValue(k, NatToString(n));
    ValueOfNatToString(n);
  }

  /** Below 100 the padded string is the tens digit followed by the units
      digit. */
  lemma Pad2Small(n: nat)
    requires n < 100
    ensures Pad2(n) == [DigitChar(n / 10), DigitChar(n % 10)]
  {
    if n >= 10 {
      assert NatToString(n / 10) == [DigitChar(n / 10)];
    }
  }

  /** The eight digit props in display order. */
  function Display(f: Fields): (ds: string)
    ensures |ds| == 8
  {
    var d, h, m, s := Pad2(f.days), Pad2(f.hours), Pad2(f.minutes), Pad2(f.seconds);
    [d[0], d[1], h[0], h[1], m[0], m[1], s[0], s[1]]
  }

  /** Display unfolded: unit 2k + j shows character j of the k-th padded
      field (days, hours, minutes, seconds). */
  lemma DisplayPositions(f: Fields)
    ensures var ds := Display(f);
      && ds[0] == Pad2(f.days)[0] && ds[1] == Pad2(f.days)[1]
      && ds[2] == Pad2(f.hours)[0] && ds[3] == Pad2(f.hours)[1]
      && ds[4] == Pad2(f.minutes)[0] && ds[5] == Pad2(f.minutes)[1]
      && ds[6] == Pad2(f.seconds)[0] && ds[7] == Pad2(f.seconds)[1]
  {
    var d, h, m, s := Pad2(f.days), Pad2(f.hours), Pad2(f.minutes), Pad2(f.seconds);
    assert Display(f) == [d[0], d[1], h[0], h[1], m[0], m[1], s[0], s[1]];
  }

  /** With fewer than 100 days every field is two digits, and the clock shows
      the tens digit then the units digit of days, hours, minutes and seconds. */
  lemma DisplayClosedForm(f: Fields)
    requires Bounded(f) && f.days < 100
    ensures Display(f) == [DigitChar(f.days / 10), DigitChar(f.days % 10),
                           DigitChar(f.hours / 10), DigitChar(f.hours % 10),
                           DigitChar(f.minutes / 10), DigitChar(f.minutes % 10),
                           DigitChar(f.seconds / 10), DigitChar(f.seconds % 10)]
  {
    Pad2Small(f.days);
    Pad2Small(f.hours);
    Pad2Small(f.minutes);
    Pad2Small(f.seconds);
  }

  /** Each pair of units depends on its own field only: two clocks that agree
      on a field show the same two characters for it, whatever the others. */
  lemma DisplayFieldsIndependent(f: Fields, g: Fields)
    ensures f.days == g.days ==> Display(f)[0..2] == Display(g)[0..2]
    ensures f.hours == g.hours ==> Display(f)[2..4] == Display(g)[2..4]
    ensures f.minutes == g.minutes ==> Display(f)[4..6] == Display(g)[4..6]
    ensures f.seconds == g.seconds ==> Display(f)[6..8] == Display(g)[6..8]
  {
    DisplayPositions(f);
    DisplayPositions(g);
  }

  /** Two units fed the padded string of a field below 100 read back the
      field. */
  lemma SlotReadsBack(ds: string, i: nat, n: nat)
    requires i + 2 <= |ds| && n < 100
    requires ds[i] == Pad2(n)[0] && ds[i + 1] == Pad2(n)[1]
    ensures AllDigits(ds[i..i + 2]) && ValueOf(ds[i..i + 2]) == n
  {
    Pad2Small(n);
    var slot := ds[i..i + 2];
    assert slot == [DigitChar(n / 10), DigitChar(n % 10)];
    var tens := slot[..1];
    assert tens == [DigitChar(n / 10)] && tens[..0] == [];
    assert ValueOf(tens) == n / 10;
    assert ValueOf(slot) == ValueOf(tens) * 10 + n % 10;
  }

  /** With fewer than 100 days the eight units read back exactly the four
      fields. */
  lemma DisplayReadsBack(f: Fields)
    requires Bounded(f) && f.days < 100
    ensures var ds := Display(f);
      && ValueOf(ds[0..2]) == f.days && ValueOf(ds[2..4]) == f.hours
      && ValueOf(ds[4..6]) == f.minutes && ValueOf(ds[6..8]) == f.seconds
  {
    var ds := Display(f);
    DisplayPositions(f);
    SlotReadsBack(ds, 0, f.days);
    SlotReadsBack(ds, 2, f.hours);
    SlotReadsBack(ds, 4, f.minutes);
    SlotReadsBack(ds, 6, f.seconds);
  }

  /** From 100 on, numbers have three digits or more and padding leaves
      them alone. */
  lemma LongDaysUnpadded(n: nat)
    requires n >= 100
    ensures NumDigits(n) >= 3 && Pad2(n) == NatToString(n)
  {
    var k := NumDigits(n);
    NumDigitsBounds(n);
    assert Pow10(1) == 10 && Pow10(2) == 100;
    Pad2Value(n);
    assert Zeros(0) + NatToString(n) == NatToString(n);
  }

  /** With 100 days or more the day units show only the two leading digits of
      the days string: the number of days with its last NumDigits - 2 digits
      dropped, which is less than the true number. */
  lemma DisplayDropsDayDigits(f: Fields)
    requires f.days >= 100
    ensures var ds := Display(f);
      && ds[0..2] == NatToString(f.days)[..2]
      && ValueOf(ds[0..2]) == f.days / Pow10(NumDigits(f.days) - 2)
      && ValueOf(ds[0..2]) < f.days
  {
    var n, s := f.days, NatToString(f.days);
    LongDaysUnpadded(n);
    DisplayPositions(f);
    var ds := Display(f);
    assert ds[0..2] == s[..2];
    PrefixValue(s, 2);
    ValueOfNatToString(n);
    ValueOfBound(ds[0..2]);
    assert Pow10(2) == 100;
  }

  /** The clock in the state of countdown.jsx:231-240: a remaining time below
      100 days is shown exactly, to the whole second, by the eight units. */
  lemma ClockShowsRemaining(remaining: nat)
    requires remaining < 100 * MsPerDay
    ensures var f := Decompose(remaining); var ds := Display(f);
      && Reconstruct(f) <= remaining < Reconstruct(f) + MsPerSecond
      && ValueOf(ds[0..2]) * MsPerDay + ValueOf(ds[2..4]) * MsPerHour
         + ValueOf(ds[4..6]) * MsPerMinute + ValueOf(ds[6..8]) * MsPerSecond == Reconstruct(f)
  {
    DecomposeReconstructs(remaining);
    DisplayReadsBack(Decompose(remaining));
  }

  /** Three days, five hours, nine minutes and zero seconds are shown as
      "03", "05", "09", "00". */
  lemma DisplayExample()
    ensures Display(Fields(3, 5, 9, 0)) == "03050900"
  {
    Pad2Small(3);
    Pad2Small(5);
    Pad2Small(9);
    Pad2Small(0);
  }

  /** The state on load: zero remaining shows eight zeros. */
  lemma DisplayOfZero()
    ensures Decompose(0) == Fields(0, 0, 0, 0)
    ensures Display(Decompose(0)) == "00000000"
  {
    Pad2Small(0);
  }
}
