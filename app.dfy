/** The App component (countdown.jsx:219-244) with the FlipClock it renders:
    the remaining time, kept up to date by the one-second interval, and the
    eight FlipUnits that show it. Each interval tick is a call of Tick with
    the current time; each completion timeout of a unit is a call of
    UnitTimerFires. App creates isMuted as true and never changes it, and its
    audio context ref stays null, so both are constants here. */
module CountdownApp {
  import opened CountdownTime
  import opened FlipClock
  import opened FlipUnitModel

  class App {
    const target: int
    const muted: bool
    const audio: bool
    var remaining: nat
    const units: seq<FlipUnit>

    /** Sound stays off (muted, no context) and the clock is made of eight
        distinct valid units. */
    ghost predicate Mounted()
      reads this, units
    {
      && muted && !audio
      && |units| == 8
      && (forall i, j :: 0 <= i < j < 8 ==> units[i] != units[j])
      && (forall i :: 0 <= i < 8 ==> units[i].Valid())
    }

    /** The mounted units together show the clock for the current remaining
        time. */
    ghost predicate Valid()
      reads this, units
    {
      Mounted() && Currents(units) == Display(Decompose(remaining))
    }

    /** The first render: remaining starts at 0, so every unit mounts with
        '0', before any tick has run. */
    constructor ()
      ensures target == TargetInstant && muted && !audio && remaining == 0
      ensures |units| == 8
      ensures forall i :: 0 <= i < 8 ==> fresh(units[i]) && units[i].State() == Initial('0')
      ensures Currents(units) == "00000000"
      ensures Valid()
    {
      target, muted, audio := TargetInstant, true, false;
      remaining := 0;
      DisplayOfZero();
      var us := MountUnits(Display(Decompose(0)));
      units := us;
    }

    /** One interval tick at time now, followed by the render it causes:
        remaining becomes max(0, target - now) and unit i receives the i-th
        displayed digit of the new remaining time, and nothing else. Only
        mounted units are needed: whatever they showed before, afterwards they
        show the new remaining time. */
    method Tick(now: int)
      requires Mounted()
      modifies this, units
      ensures Valid()
      ensures remaining == Remaining(target, now)
      ensures forall i :: 0 <= i < 8 ==>
        units[i].State() == OnDigit(old(units[i].State()), Display(Decompose(remaining))[i], muted, audio)
      ensures forall i :: 0 <= i < 8 ==> units[i].soundCalls == old(units[i].soundCalls)
    {
      var r := Remaining(target, now);
      var ds := Display(Decompose(r));
      RenderUnits(units, ds, muted, audio);
      remaining := r;
    }

    /** The pending completion timeout of unit i, if id names it, fires. */
    method UnitTimerFires(i: nat, id: nat)
      requires Valid() && i < 8
      modifies units[i]
      ensures Valid()
      ensures units[i].State() == OnTimer(old(units[i].State()), id)
    {
      units[i].TimerFires(id);
    }
  }

  /** The characters a row of eight units shows, in display order. */
  ghost function Currents(us: seq<FlipUnit>): string
    reads us
    requires |us| == 8
  {
    [us[0].current, us[1].current, us[2].current, us[3].current,
     us[4].current, us[5].current, us[6].current, us[7].current]
  }

  /** FlipClock's first render: one freshly mounted unit per digit prop. */
  method MountUnits(ds: string) returns (us: seq<FlipUnit>)
    requires |ds| == 8
    ensures |us| == 8
    ensures forall i, j :: 0 <= i < j < 8 ==> us[i] != us[j]
    ensures forall i :: 0 <= i < 8 ==> fresh(us[i]) && us[i].Valid() && us[i].State() == Initial(ds[i])
  {
    us := [];
    for i := 0 to 8
      invariant |us| == i
      invariant forall j, k :: 0 <= j < k < i ==> us[j] != us[k]
      invariant forall j :: 0 <= j < i ==> fresh(us[j]) && us[j].Valid() && us[j].State() == Initial(ds[j])
    {
      var u := new FlipUnit(ds[i]);
      us := us + [u];
    }
  }

  /** FlipClock's re-render with new digit props: unit i receives ds[i]. */
  method RenderUnits(us: seq<FlipUnit>, ds: string, muted: bool, audio: bool)
    requires |us| == 8 && |ds| == 8
    requires forall i, j :: 0 <= i < j < 8 ==> us[i] != us[j]
    requires forall i :: 0 <= i < 8 ==> us[i].Valid()
    modifies us
    ensures forall i :: 0 <= i < 8 ==> us[i].Valid()
    ensures forall i :: 0 <= i < 8 ==> us[i].State() == OnDigit(old(us[i].State()), ds[i], muted, audio)
    ensures Currents(us) == ds
    ensures muted || !audio ==> forall i :: 0 <= i < 8 ==> us[i].soundCalls == old(us[i].soundCalls)
  {
    for i := 0 to 8
      invariant forall j :: 0 <= j < 8 ==> us[j].Valid()
      invariant forall j :: 0 <= j < i ==> us[j].State() == OnDigit(old(us[j].State()), ds[j], muted, audio)
      invariant forall j :: i <= j < 8 ==> us[j].State() == old(us[j].State())
    {
      us[i].Receive(ds[i], muted, audio);
    }
    forall i | 0 <= i < 8
      ensures us[i].current == ds[i]
      ensures muted || !audio ==> us[i].soundCalls == old(us[i].soundCalls)
    {
      OnDigitShowsDigit(old(us[i].State()), ds[i], muted, audio);
    }
    assert Currents(us) == ds;
  }

  /** From a valid state, a tick whose displayed digits differ from the shown
      ones only at position k flips unit k alone. */
  lemma OnlyChangedPositionFlips(shown: seq<UnitState>, ds: string, k: nat, muted: bool, audio: bool)
    requires |shown| == 8 && |ds| == 8 && k < 8
    requires forall i :: 0 <= i < 8 ==> Inv(shown[i]) && (i != k <==> ds[i] == shown[i].current)
    ensures forall i :: 0 <= i < 8 && i != k ==> OnDigit(shown[i], ds[i], muted, audio) == shown[i]
    ensures OnDigit(shown[k], ds[k], muted, audio).flipping
    ensures OnDigit(shown[k], ds[k], muted, audio).previous == shown[k].current
  {
    forall i | 0 <= i < 8 && i != k
      ensures OnDigit(shown[i], ds[i], muted, audio) == shown[i]
    {
      SameDigitIsNoop(shown[i], ds[i], muted, audio);
    }
    NewDigitFlips(shown[k], ds[k], muted, audio);
  }
}
