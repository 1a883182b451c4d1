/**
  The replay transport of play.cpp's cMyControl::ProcessKey: the speed and
  pause keys, and the arrow keys that either steer a DVD menu or fall through
  to the transport keys. The player globals PlayerSpeed, PlayerPaused and
  PlayerDvdNav become fields of a Control object, and every PlayerSend* call
  is appended to an event log instead of being sent to the player process.
 */
module Transport {
  import P = Play

  /** The keys of the speed and pause part of the switch; k_Release variants are separate keys. */
  datatype Key =
    | Up | Down | Left | Right
    | PlayKey | PauseKey | FastRew | FastFwd
    | FastRewRelease | LeftRelease | Red

  /** The PlayerSend* calls this part of the switch makes. */
  datatype Event =
    | SetSpeed(speed: int)
    | SendPause
    | Seek(seconds: int)
    | DvdNavUp | DvdNavDown | DvdNavLeft | DvdNavRight

  /** The transport state: PlayerSpeed and PlayerPaused. */
  datatype TransportState = TransportState(speed: int, paused: bool)

  /** 2 to the power k. */
  function Pow2(k: nat): (p: nat)
    ensures p >= 1
  {
    if k == 0 then 1 else 2 * Pow2(k - 1)
  }

  /** The speeds the keys can reach from normal speed: 1, 2, 4, 8, 16 and 32. */
  predicate ValidSpeed(speed: int) {
    exists k :: 0 <= k <= 5 && speed == Pow2(k)
  }

  /** The case an arrow key falls through to when it does not steer a DVD menu. */
  function FallThrough(key: Key): (k: Key)
    ensures !k.Up? && !k.Down? && !k.Left? && !k.Right?
    ensures key.Up? ==> k == PlayKey
    ensures key.Down? ==> k == PauseKey
    ensures key.Left? ==> k == FastRew
    ensures key.Right? ==> k == FastFwd
    ensures !key.Up? && !key.Down? && !key.Left? && !key.Right? ==> k == key
  {
    match key
    case Up => PlayKey
    case Down => PauseKey
    case Left => FastRew
    case Right => FastFwd
    case _ => key
  }

  /**
    One key, as the switch handles it while the player runs: the new
    transport state and the calls sent to the player, in order. An arrow key
    with DVD navigation active only sends the navigation call; otherwise
    Up acts as Play, Down as Pause, Left as FastRew and Right as FastFwd.
   */
  function Step(t: TransportState, dvdNav: bool, key: Key): (r: (TransportState, seq<Event>))
    ensures dvdNav && (key.Up? || key.Down? || key.Left? || key.Right?) ==> r.0 == t && |r.1| == 1
    ensures r.0.speed != t.speed ==> SetSpeed(r.0.speed) in r.1
    ensures r.0.paused != t.paused ==> SendPause in r.1
    ensures r.0.speed in {1, t.speed, t.speed / 2, t.speed * 2}
  {
    if dvdNav && key.Up? then (t, [DvdNavUp])
    else if dvdNav && key.Down? then (t, [DvdNavDown])
    else if dvdNav && key.Left? then (t, [DvdNavLeft])
    else if dvdNav && key.Right? then (t, [DvdNavRight])
    else
      match FallThrough(key)
      case PlayKey =>
        var speedEvents := if t.speed != 1 then [SetSpeed(1)] else [];
        var pauseEvents := if t.paused then [SendPause] else [];
        (TransportState(1, false), speedEvents + pauseEvents)
      case PauseKey => (TransportState(t.speed, !t.paused), [SendPause])
      case FastRew =>
        if t.speed > 1 then (TransportState(t.speed / 2, t.paused), [SetSpeed(t.speed / 2)])
        else (t, [Seek(-10)])
      case FastFwd =>
        if t.speed < 32 then (TransportState(t.speed * 2, t.paused), [SetSpeed(t.speed * 2)])
        else (t, [])
      case _ => (t, [])
  }

  /** The state after a sequence of keys, none of them handled as DVD navigation. */
  function Run(t: TransportState, keys: seq<Key>): TransportState
    decreases |keys|
  {
    if keys == [] then t else Run(Step(t, false, keys[0]).0, keys[1..])
  }

  /** Halving a valid speed above 1 and doubling a valid speed below 32 stay valid. */
  lemma HalveDoubleValid(speed: int)
    requires ValidSpeed(speed)
    ensures speed > 1 ==> ValidSpeed(speed / 2)
    ensures speed < 32 ==> ValidSpeed(speed * 2)
  {
    var k :| 0 <= k <= 5 && speed == Pow2(k);
    if speed > 1 {
      assert k >= 1 && Pow2(k - 1) == speed / 2;
    }
    if speed < 32 {
      assert Pow2(5) == 32;
      assert k < 5 && Pow2(k + 1) == speed * 2;
    }
  }

  /** Every key keeps the speed a power of two between 1 and 32. */
  lemma StepKeepsValidSpeed(t: TransportState, dvdNav: bool, key: Key)
    requires ValidSpeed(t.speed)
    ensures ValidSpeed(Step(t, dvdNav, key).0.speed)
  {
    HalveDoubleValid(t.speed);
    assert Pow2(0) == 1;
  }

  /** Starting from normal speed, any key sequence keeps the speed in 1, 2, 4, 8, 16, 32. */
  lemma {:induction false} RunKeepsValidSpeed(t: TransportState, keys: seq<Key>)
    requires ValidSpeed(t.speed)
    ensures ValidSpeed(Run(t, keys).speed)
    ensures 1 <= Run(t, keys).speed <= 32
    decreases |keys|
  {
    if keys == [] {
      ValidSpeedBounds(t.speed);
    } else {
      StepKeepsValidSpeed(t, false, keys[0]);
      RunKeepsValidSpeed(Step(t, false, keys[0]).0, keys[1..]);
    }
  }

  lemma ValidSpeedBounds(speed: int)
    requires ValidSpeed(speed)
    ensures 1 <= speed <= 32
  {
    var k :| 0 <= k <= 5 && speed == Pow2(k);
    assert Pow2(1) == 2 && Pow2(2) == 4 && Pow2(3) == 8 && Pow2(4) == 16 && Pow2(5) == 32;
  }

  /** FastFwd doubles the speed below the cap of 32 and tells the player; at 32 nothing happens. */
  lemma FastFwdDoublesUpToCap(t: TransportState)
    ensures t.speed < 32 ==> Step(t, false, FastFwd) == (TransportState(2 * t.speed, t.paused), [SetSpeed(2 * t.speed)])
    ensures t.speed >= 32 ==> Step(t, false, FastFwd) == (t, [])
    ensures Step(t, true, Right) == (t, [DvdNavRight])
    ensures Step(t, false, Right) == Step(t, false, FastFwd)
  {
  }

  /** FastRew halves the speed above 1; at normal speed it seeks back ten seconds instead. */
  lemma FastRewHalvesOrSeeks(t: TransportState)
    ensures t.speed > 1 ==> Step(t, false, FastRew).0 == TransportState(t.speed / 2, t.paused)
    ensures t.speed <= 1 ==> Step(t, false, FastRew) == (t, [Seek(-10)])
  {
  }

  /** Play always leaves normal speed, unpaused, whatever the state before. */
  lemma PlayResumes(t: TransportState, dvdNav: bool)
    ensures Step(t, dvdNav, PlayKey).0 == TransportState(1, false)
    ensures Step(t, dvdNav, PlayKey).1 == [] <==> t == TransportState(1, false)
  {
  }

  /** Pause toggles the pause flag, keeps the speed and sends one pause call; twice restores the state. */
  lemma PauseIsInvolution(t: TransportState, dvdNav: bool)
    ensures Step(t, dvdNav, PauseKey) == (TransportState(t.speed, !t.paused), [SendPause])
    ensures Step(Step(t, dvdNav, PauseKey).0, dvdNav, PauseKey).0 == t
  {
  }

  /** Below the cap, FastFwd followed by FastRew comes back to the same speed. */
  lemma FastFwdThenFastRew(t: TransportState)
    requires ValidSpeed(t.speed) && t.speed < 32
    ensures Step(Step(t, false, FastFwd).0, false, FastRew).0 == t
  {
    ValidSpeedBounds(t.speed);
  }

  /**
    The replay control: the player globals this part of the switch reads and
    writes, and the log of calls sent to the player.
   */
  class Control {
    var speed: int
    var paused: bool
    var dvdNav: bool
    var events: seq<Event>

    /** The transport state as a value. */
    function State(): TransportState
      reads this
    {
      TransportState(speed, paused)
    }

    /** A freshly started player runs at normal speed, unpaused. */
    constructor (dvd: bool)
      ensures State() == TransportState(1, false) && dvdNav == dvd && events == []
    {
      speed := 1;
      paused := false;
      dvdNav := dvd;
      events := [];
    }

    /**
      cMyControl::ProcessKey for the transport keys: osEnd with no change
      when the player has died; otherwise the switch updates the speed and
      pause flag in place, sends its calls, and returns osContinue.
     */
    method ProcessKey(running: bool, key: Key) returns (r: P.OsState)
      modifies this
      ensures dvdNav == old(dvdNav)
      ensures !running ==> r == P.OsEnd && State() == old(State()) && events == old(events)
      ensures running ==> r == P.OsContinue
      ensures running ==> State() == Step(old(State()), dvdNav, key).0
      ensures running ==> events == old(events) + Step(old(State()), dvdNav, key).1
      ensures ValidSpeed(old(speed)) ==> ValidSpeed(speed)
    {
      if ValidSpeed(speed) {
        StepKeepsValidSpeed(State(), dvdNav, key);
      }
      if !running {
        return P.OsEnd;
      }
      var k := if dvdNav then key else FallThrough(key);
      match k {
        case Up => events := events + [DvdNavUp];
        case Down => events := events + [DvdNavDown];
        case Left => events := events + [DvdNavLeft];
        case Right => events := events + [DvdNavRight];
        case PlayKey =>
          if speed != 1 {
            speed := 1;
            events := events + [SetSpeed(speed)];
          }
          if paused {
            events := events + [SendPause];
            paused := !paused;
          }
        case PauseKey =>
          events := events + [SendPause];
          paused := !paused;
        case FastRew =>
          if speed > 1 {
            speed := speed / 2;
            events := events + [SetSpeed(speed)];
          } else {
            events := events + [Seek(-10)];
          }
        case FastFwd =>
          if speed < 32 {
            speed := speed * 2;
            events := events + [SetSpeed(speed)];
          }
        case FastRewRelease =>
        case LeftRelease =>
        case Red =>
      }
      return P.OsContinue;
    }
  }
}
