/** The countdown arithmetic of the App component: the remaining time to the
    target, clamped at zero, and its split into days, hours, minutes and
    seconds (countdown.jsx:220-234). Times are integers of milliseconds. */
module CountdownTime {
  import opened Arith

  const MsPerSecond: nat := 1000
  const MsPerMinute: nat := 60 * MsPerSecond
  const MsPerHour: nat := 60 * MsPerMinute
  const MsPerDay: nat := 24 * MsPerHour

  /** The hard-coded target 2025-10-16T15:00:00+02:00, in milliseconds since
      the Unix epoch (2025-10-16T13:00:00Z). */
  const TargetInstant: int := 1760619600000

  /** Math.max(0, target - now): the least non-negative value not below
      target - now. */
  function Remaining(target: int, now: int): (r: nat)
    ensures r >= target - now
    ensures r == 0 || r == target - now
  {
    if target - now > 0 then target - now else 0
  }

  /** The four displayed fields. */
  datatype Fields = Fields(days: nat, hours: nat, minutes: nat, seconds: nat)

  /** Every field but days lies within its natural modulus. */
  predicate Bounded(f: Fields) {
    f.hours < 24 && f.minutes < 60 && f.seconds < 60
  }

  /** The whole seconds the fields stand for, in milliseconds. */
  function Reconstruct(f: Fields): nat {
    f.days * MsPerDay + f.hours * MsPerHour + f.minutes * MsPerMinute + f.seconds * MsPerSecond
  }

  /** The four Math.floor divisions of countdown.jsx:231-234. On non-negative
      operands JavaScript's % and floored / agree with Dafny's. */
  function Decompose(remaining: nat): (f: Fields)
    ensures Bounded(f)
  {
    Fields(remaining / 86400000,
           (remaining % 86400000) / 3600000,
           (remaining % 3600000) / 60000,
           (remaining % 60000) / 1000)
  }

  /** The fields give back the duration up to its dropped sub-second part. */
  lemma DecomposeReconstructs(remaining: nat)
    ensures Reconstruct(Decompose(remaining)) <= remaining < Reconstruct(Decompose(remaining)) + MsPerSecond
    ensures Reconstruct(Decompose(remaining)) == remaining - remaining % MsPerSecond
  {
    var r := remaining;
    ModMod(r, MsPerHour, 24);
    ModMod(r, MsPerMinute, 60);
    ModMod(r, MsPerSecond, 60);
    var f := Decompose(r);
    assert r == f.days * MsPerDay + r % MsPerDay;
    assert r % MsPerDay == f.hours * MsPerHour + r % MsPerHour;
    assert r % MsPerHour == f.minutes * MsPerMinute + r % MsPerMinute;
    assert r % MsPerMinute == f.seconds * MsPerSecond + r % MsPerSecond;
  }

  /** Bounded fields are the only ones that rebuild a duration up to its
      sub-second part, so they are exactly what Decompose returns. */
  lemma DecomposeUnique(f: Fields, remaining: nat)
    requires Bounded(f)
    requires Reconstruct(f) <= remaining < Reconstruct(f) + MsPerSecond
    ensures Decompose(remaining) == f
  {
    var r := remaining;
    var x := r - Reconstruct(f);
    var belowMinute := f.seconds * MsPerSecond + x;
    var belowHour := f.minutes * MsPerMinute + belowMinute;
    var belowDay := f.hours * MsPerHour + belowHour;
    DivModUnique(r, MsPerDay, f.days, belowDay);
    ModMod(r, MsPerHour, 24);
    DivModUnique(belowDay, MsPerHour, f.hours, belowHour);
    ModMod(r, MsPerMinute, 60);
    DivModUnique(belowHour, MsPerMinute, f.minutes, belowMinute);
    ModMod(r, MsPerSecond, 60);
    DivModUnique(belowMinute, MsPerSecond, f.seconds, x);
  }

  /** Decomposing a whole-second duration built from bounded fields gives the
      fields back. */
  lemma DecomposeOfReconstruct(f: Fields)
    requires Bounded(f)
    ensures Decompose(Reconstruct(f)) == f
  {
    DecomposeUnique(f, Reconstruct(f));
  }

  /** With the target 90,061,001 ms ahead the clock shows one day, one hour,
      one minute and one second. */
  lemma DecomposeExample(now: int)
    ensures Decompose(Remaining(now + 90061001, now)) == Fields(1, 1, 1, 1)
  {
    DecomposeUnique(Fields(1, 1, 1, 1), 90061001);
  }

  /** At or after the target the remaining time is zero. */
  lemma RemainingAfterTarget(target: int, now: int)
    requires now >= target
    ensures Remaining(target, now) == 0
  {
  }

  /** The remaining time never grows as the clock advances; once it is zero
      it stays zero. */
  lemma RemainingMonotone(target: int, now: int, later: int)
    requires now <= later
    ensures Remaining(target, later) <= Remaining(target, now)
    ensures Remaining(target, now) == 0 ==> Remaining(target, later) == 0
  {
  }
}
