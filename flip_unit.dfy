/** The FlipUnit component (countdown.jsx:127-148): one displayed character
    with its flip animation. React's two effects become two transitions on a
    UnitState value, OnDigit (a render with a new digit prop) and OnTimer (the
    500 ms completion timeout firing); the FlipUnit class holds the same state
    in fields and its methods are proved to perform those transitions.

    Timers are modelled by a generation number: arming a timer issues the id
    timerId + 1, clearing it drops timerPending, and a firing carries the id
    of the timer that fired. The timeout closure captures the digit prop of
    the render that armed it; timerDigit records that capture. The sound is
    recorded as the delay playFlipSound is called with. */
module FlipUnitModel {

  /** Delay, in seconds, passed to playFlipSound on a flip. */
  const SoundDelay: real := 0.38

  datatype UnitState = UnitState(
    prop: char,          // the digit prop of the last render
    current: char,       // currentDigit
    previous: char,      // previousDigit
    flipping: bool,      // isFlipping
    timerPending: bool,  // a completion timeout is scheduled and not cleared
    timerId: nat,        // id of the latest timeout armed
    timerDigit: char,    // the digit prop that timeout captured
    sounds: seq<real>    // delays of the playFlipSound calls so far
  )

  /** What every reachable state satisfies: the unit shows its prop, exactly
      the flipping units have a pending timer, that timer captured the shown
      digit, and every sound was requested with the fixed delay. */
  predicate Inv(s: UnitState) {
    && s.prop == s.current
    && s.timerPending == s.flipping
    && (s.timerPending ==> s.timerDigit == s.current)
    && forall i :: 0 <= i < |s.sounds| ==> s.sounds[i] == SoundDelay
  }

  /** The state on mount: useState(digit) twice and useState(false). */
  function Initial(d: char): (s: UnitState)
    ensures Inv(s)
    ensures s.prop == s.current == s.previous == d && !s.flipping && !s.timerPending && s.sounds == []
  {
    UnitState(d, d, d, false, false, 0, d, [])
  }

  /** A render with digit prop d. The first effect flips when d differs from
      currentDigit, asking for the sound only when unmuted with a context. The
      second effect re-runs when isFlipping or the digit prop changed: its
      cleanup clears the pending timeout, and when flipping it arms a fresh
      one that captures d. */
  function OnDigit(s: UnitState, d: char, muted: bool, audio: bool): (t: UnitState)
    ensures t.prop == d
  {
    var flips := d != s.current;
    var sounds := if flips && !muted && audio then s.sounds + [SoundDelay] else s.sounds;
    var previous := if flips then s.current else s.previous;
    var current := if flips then d else s.current;
    var flipping := s.flipping || flips;
    var rerun := flipping != s.flipping || d != s.prop;
    if rerun then
      UnitState(d, current, previous, flipping, flipping,
                if flipping then s.timerId + 1 else s.timerId,
                if flipping then d else s.timerDigit, sounds)
    else
      UnitState(d, current, previous, flipping, s.timerPending, s.timerId, s.timerDigit, sounds)
  }

  /** The timeout with the given id fires. Only the pending timeout can fire
      (a cleared one was cancelled); it sets previousDigit to the digit it
      captured and ends the flip, and the effect re-run that follows arms
      nothing because isFlipping is now false. */
  function OnTimer(s: UnitState, id: nat): (t: UnitState)
    ensures t.current == s.current && t.prop == s.prop && t.sounds == s.sounds
    ensures !(s.timerPending && id == s.timerId) ==> t == s
  {
    if s.timerPending && id == s.timerId then
      s.(previous := s.timerDigit, flipping := false, timerPending := false)
    else
      s
  }

  lemma OnDigitKeepsInv(s: UnitState, d: char, muted: bool, audio: bool)
    requires Inv(s)
    ensures Inv(OnDigit(s, d, muted, audio))
  {
  }

  lemma OnTimerKeepsInv(s: UnitState, id: nat)
    requires Inv(s)
    ensures Inv(OnTimer(s, id))
  {
  }

  /** The digit already shown changes nothing: no flip, no sound, and the
      pending timer (if any) is left alone. */
  lemma SameDigitIsNoop(s: UnitState, d: char, muted: bool, audio: bool)
    requires Inv(s) && d == s.current
    ensures OnDigit(s, d, muted, audio) == s
  {
  }

  /** After a render the unit shows the rendered digit, and a render that is
      muted or has no context asks for no sound. */
  lemma OnDigitShowsDigit(s: UnitState, d: char, muted: bool, audio: bool)
    requires Inv(s)
    ensures OnDigit(s, d, muted, audio).current == d
    ensures muted || !audio ==> OnDigit(s, d, muted, audio).sounds == s.sounds
  {
  }

  /** A different digit flips: the old digit moves to previous, the new one is
      shown, the unit is flipping under a single fresh timer that captured the
      new digit, and the old sound log is kept. */
  lemma NewDigitFlips(s: UnitState, d: char, muted: bool, audio: bool)
    requires Inv(s) && d != s.current
    ensures var t := OnDigit(s, d, muted, audio);
      && t.previous == s.current && t.current == d
      && t.flipping && t.timerPending
      && t.timerId > s.timerId && t.timerDigit == d
      && t.sounds[..|s.sounds|] == s.sounds
  {
  }

  /** Exactly one sound, with delay 0.38, is requested on a render if and only
      if the digit changed, the unit is not muted and a context is present;
      otherwise the log is unchanged. */
  lemma SoundIffAudibleFlip(s: UnitState, d: char, muted: bool, audio: bool)
    ensures var t := OnDigit(s, d, muted, audio);
      && (|t.sounds| == |s.sounds| + 1 <==> (d != s.current && !muted && audio))
      && (|t.sounds| == |s.sounds| + 1 ==> t.sounds == s.sounds + [SoundDelay])
      && (|t.sounds| != |s.sounds| + 1 ==> t.sounds == s.sounds)
  {
  }


  /** When the pending timer completes, previous catches up with current, so
      the capture of the prop rather than of currentDigit is harmless: both
      are the same character whenever the timer can fire. */
  lemma CompletionShowsCurrent(s: UnitState)
    requires Inv(s) && s.timerPending
    ensures var t := OnTimer(s, s.timerId);
      !t.flipping && !t.timerPending && t.previous == t.current == s.current
  {
  }

  /** What can happen to a unit: a render with a digit, or a timeout firing. */
  datatype Event = Render(digit: char, muted: bool, audio: bool) | Fired(id: nat)

  function Run(s: UnitState, events: seq<Event>): UnitState
    decreases |events|
  {
    if events == [] then s
    else
      var s' := match events[0]
        case Render(d, m, a) => OnDigit(s, d, m, a)
        case Fired(id) => OnTimer(s, id);
      Run(s', events[1..])
  }

  /** The digit shown after the events: the last one rendered ("latest wins"). */
  function LastDigit(shown: char, events: seq<Event>): char
    decreases |events|
  {
    if events == [] then shown
    else match events[0]
      case Render(d, _, _) => LastDigit(d, events[1..])
      case Fired(_) => LastDigit(shown, events[1..])
  }

  /** How many renders change the shown digit while unmuted with a context,
      starting from shown digit `shown`. */
  function AudibleFlips(shown: char, events: seq<Event>): nat
    decreases |events|
  {
    if events == [] then 0
    else match events[0]
      case Render(d, m, a) => (if d != shown && !m && a then 1 else 0) + AudibleFlips(d, events[1..])
      case Fired(_) => AudibleFlips(shown, events[1..])
  }

  /** Over any sequence of renders and timeouts the invariant holds, the unit
      shows the latest digit, and the sound log grows by one 0.38 entry per
      audible digit change and by nothing else. */
  lemma {:induction false} RunSpec(s: UnitState, events: seq<Event>)
    requires Inv(s)
    ensures var t := Run(s, events);
      && Inv(t)
      && t.current == LastDigit(s.current, events)
      && t.sounds == s.sounds + seq(AudibleFlips(s.current, events), _ => SoundDelay)
    decreases |events|
  {
    if events != [] {
      var s' := match events[0]
        case Render(d, m, a) => OnDigit(s, d, m, a)
        case Fired(id) => OnTimer(s, id);
      match events[0] {
        case Render(d, m, a) => OnDigitKeepsInv(s, d, m, a);
        case Fired(id) => OnTimerKeepsInv(s, id);
      }
      RunSpec(s', events[1..]);
    }
  }

  /** Timeout ids only grow: a run never issues an id below the current one. */
  lemma {:induction false} RunTimerIdMono(s: UnitState, events: seq<Event>)
    ensures Run(s, events).timerId >= s.timerId
    decreases |events|
  {
    if events != [] {
      var s' := match events[0]
        case Render(d, m, a) => OnDigit(s, d, m, a)
        case Fired(id) => OnTimer(s, id);
      RunTimerIdMono(s', events[1..]);
    }
  }

  /** A timer superseded by a new flip never fires: whatever renders and
      timeouts follow the flip, firing any id issued before it has no effect. */
  lemma SupersededTimerNeverFires(s: UnitState, d: char, muted: bool, audio: bool, id: nat, events: seq<Event>)
    requires Inv(s) && d != s.current && id <= s.timerId
    ensures var t := Run(OnDigit(s, d, muted, audio), events); OnTimer(t, id) == t
  {
    RunTimerIdMono(OnDigit(s, d, muted, audio), events);
  }

  /** Renders that keep repeating the digit already shown change nothing,
      whatever the mute flag and context: an idle unit does not start a flip,
      a flipping one keeps its pending timeout, and no sound is asked for. */
  lemma {:induction false} RepeatedDigitNeverFlips(s: UnitState, events: seq<Event>)
    requires Inv(s)
    requires forall i :: 0 <= i < |events| ==> events[i].Render? && events[i].digit == s.current
    ensures Run(s, events) == s
    decreases |events|
  {
    if events != [] {
      SameDigitIsNoop(s, events[0].digit, events[0].muted, events[0].audio);
      RepeatedDigitNeverFlips(s, events[1..]);
    }
  }

  /** The unit as React holds it: state hooks as fields. */
  class FlipUnit {
    var prop: char
    var current: char
    var previous: char
    var flipping: bool
    var timerPending: bool
    var timerId: nat
    var timerDigit: char
    ghost var soundCalls: seq<real>

    ghost function State(): UnitState
      reads this
    {
      UnitState(prop, current, previous, flipping, timerPending, timerId, timerDigit, soundCalls)
    }

    ghost predicate Valid()
      reads this
    {
      Inv(State())
    }

    /** Mounting with the digit prop d. */
    constructor (d: char)
      ensures Valid() && State() == Initial(d)
    {
      prop, current, previous := d, d, d;
      flipping, timerPending := false, false;
      timerId, timerDigit := 0, d;
      soundCalls := [];
    }

    /** A render with digit prop d, running both effects. */
    method Receive(d: char, muted: bool, audio: bool)
      requires Valid()
      modifies this
      ensures Valid()
      ensures State() == OnDigit(old(State()), d, muted, audio)
    {
      ghost var before := State();
      var wasFlipping, oldProp := flipping, prop;
      prop := d;
      if d != current {
        if !muted && audio {
          soundCalls := soundCalls + [SoundDelay];
        }
        previous := current;
        current := d;
        flipping := true;
      }
      if flipping != wasFlipping || d != oldProp {
        timerPending := false;
        if flipping {
          timerId := timerId + 1;
          timerDigit := d;
          timerPending := true;
        }
      }
      OnDigitKeepsInv(before, d, muted, audio);
    }

    /** The timeout with the given id fires. */
    method TimerFires(id: nat)
      requires Valid()
      modifies this
      ensures Valid()
      ensures State() == OnTimer(old(State()), id)
    {
      if timerPending && id == timerId {
        previous := timerDigit;
        flipping := false;
        timerPending := false;
      }
    }
  }
}
