/** The proximity locker: one session reads the sensor's lines, keeps a bounded
    queue of "far" readings, and locks or unlocks the screen with hysteresis
    against the screensaver status it is told on every pass. */
module DistanceLocker {
  import opened PyText
  import opened Deques

  /** UNLOCK_STATE and LOCK_STATE. */
  datatype LockState = Unlocked | Locked

  /** A run of LOCKER_LOCK_COMMAND or of LOCKER_UNLOCK_COMMAND; the command
      strings themselves are opaque. */
  datatype Command = LockScreen | UnlockScreen

  const QUEUE_MAXLEN: nat := 5
  /** The queue size below which a locked screen is unlocked. */
  const UNLOCK_BELOW: nat := 4
  /** What a "Not connected." line pushes once the device has been seen. */
  const DISCONNECTED_RSSI: int := -255
  /** A reading below this counts as far; at or above it, as near. */
  const NEAR_RSSI: int := -1
  const NOT_CONNECTED := "Not connected."
  const READING_PREFIX := "Device connected. RSSI: "
  const DO_NOT_CARE_SENSOR_MESSAGES: seq<string> := [
    "Read RSSI failed: Input/output error",
    "Attempting connection...",
    "GONE!",
    "HERE!"
  ]

  /** The contents of the deque(maxlen=5), left end first (newest first). */
  type Window = q: seq<int> | |q| <= QUEUE_MAXLEN

  /** One pass of the loop: the line the sensor printed, and what the status
      command prints during that pass. */
  datatype Iteration = Iteration(line: string, statusOutput: string)

  /** The state the locker keeps between lines, with the commands run so far. */
  datatype Session = Session(queue: Window, bluetoothActive: bool, state: LockState, commands: seq<Command>)

  const INITIAL := Session([], false, Unlocked, [])

  /** The queue after a reading: a far one goes in at the newest end (the
      oldest falling off a full queue), a near one takes the oldest out if
      there is one. */
  function AfterReading(q: Window, rssi: int): (r: Window)
    ensures rssi < NEAR_RSSI ==>
              |r| == (if |q| < QUEUE_MAXLEN then |q| + 1 else QUEUE_MAXLEN) && r[0] == rssi && r[1..] == q[..|r| - 1]
    ensures rssi >= NEAR_RSSI ==> |r| == (if q == [] then 0 else |q| - 1) && r == q[..|r|]
  {
    if rssi < NEAR_RSSI then PushedLeft(q, rssi, QUEUE_MAXLEN)
    else if q != [] then q[..|q| - 1]
    else q
  }

  /** What parse_line makes of a line: a noise message, the disconnect
      notice, a reading, or a line whose number int() refuses. */
  datatype LineKind = Noise | Disconnected | Reading(rssi: int) | Malformed

  /** The branch of parse_line a raw line takes: strip it, compare it with
      the noise messages and the disconnect notice, and otherwise read the
      number left once every copy of the prefix is removed. */
  function Classify(raw: string): LineKind {
    var line := Strip(raw);
    if line in DO_NOT_CARE_SENSOR_MESSAGES then Noise
    else if line == NOT_CONNECTED then Disconnected
    else
      match ParseInt(RemoveAll(line, READING_PREFIX))
      case None => Malformed
      case Some(value) => Reading(value)
  }

  /** The session after parse_line on one raw line; None where int() raises. */
  function ParsedLine(s: Session, raw: string): (r: Option<Session>)
    ensures r.Some? ==> r.value.state == s.state && r.value.commands == s.commands
    ensures r.Some? && s.bluetoothActive ==> r.value.bluetoothActive
    ensures r.Some? ==> |s.queue| - 1 <= |r.value.queue| <= |s.queue| + 1
    ensures r.None? <==> Classify(raw) == Malformed
  {
    match Classify(raw)
    case Noise => Some(s)
    case Disconnected =>
      Some(if s.bluetoothActive then s.(queue := PushedLeft(s.queue, DISCONNECTED_RSSI, QUEUE_MAXLEN)) else s)
    case Reading(value) => Some(s.(queue := AfterReading(s.queue, value), bluetoothActive := true))
    case Malformed => None
  }

  /** check_screen_save_status on the status command's output. */
  function ScreenSaverStatus(output: string, unlockPrefix: string): (r: LockState)
    ensures r == Unlocked <==> |unlockPrefix| <= |output| && output[..|unlockPrefix|] == unlockPrefix
  {
    if unlockPrefix <= output then Unlocked else Locked
  }

  /** The new state and the commands run, given the screensaver's actual
      state and the queue size: lock only at a full queue, unlock only below 4. */
  function Transition(truth: LockState, queueSize: nat): (d: (LockState, seq<Command>))
    ensures d.0 == Locked <==> queueSize == QUEUE_MAXLEN || (truth == Locked && queueSize >= UNLOCK_BELOW)
    ensures d.1 == if d.0 == truth then [] else if d.0 == Locked then [LockScreen] else [UnlockScreen]
  {
    if truth == Unlocked && queueSize == QUEUE_MAXLEN then (Locked, [LockScreen])
    else if truth == Locked && queueSize < UNLOCK_BELOW then (Unlocked, [UnlockScreen])
    else
      assert truth == Locked ==> queueSize >= UNLOCK_BELOW;
      (truth, [])
  }

  /** One pass of the loop body; None where the line is fatal. */
  function ProcessedLine(s: Session, unlockPrefix: string, it: Iteration): (r: Option<Session>)
    ensures r.Some? ==> s.commands <= r.value.commands && |r.value.commands| <= |s.commands| + 1
  {
    match ParsedLine(s, it.line)
    case None => None
    case Some(p) =>
      var d := Transition(ScreenSaverStatus(it.statusOutput, unlockPrefix), |p.queue|);
      Some(p.(state := d.0, commands := p.commands + d.1))
  }

  /** Where a whole session ends: the last session reached, and the index of
      the fatal line if there was one. */
  datatype Outcome = Outcome(session: Session, failedAt: Option<nat>)

  /** The loop over the sensor's lines, stopping at the first fatal line. */
  function Run(s: Session, unlockPrefix: string, stream: seq<Iteration>): (o: Outcome)
    ensures o.failedAt.Some? ==> o.failedAt.value < |stream|
    ensures s.commands <= o.session.commands && |o.session.commands| <= |s.commands| + |stream|
    decreases |stream|
  {
    if stream == [] then Outcome(s, None)
    else
      var before := Run(s, unlockPrefix, stream[..|stream| - 1]);
      if before.failedAt.Some? then before
      else
        match ProcessedLine(before.session, unlockPrefix, stream[|stream| - 1])
        case None => Outcome(before.session, Some(|stream| - 1))
        case Some(next) => Outcome(next, None)
  }

  /** Running one line more after a prefix that did not fail. */
  lemma RunOneMore(s: Session, unlockPrefix: string, stream: seq<Iteration>, k: nat)
    requires k < |stream| && Run(s, unlockPrefix, stream[..k]).failedAt.None?
    ensures Run(s, unlockPrefix, stream[..k + 1]) ==
            match ProcessedLine(Run(s, unlockPrefix, stream[..k]).session, unlockPrefix, stream[k])
            case None => Outcome(Run(s, unlockPrefix, stream[..k]).session, Some(k))
            case Some(next) => Outcome(next, None)
  {
    assert stream[..k + 1][..k] == stream[..k];
  }

  /** Once a line is fatal, the lines after it change nothing. */
  lemma {:induction false} RunStopsAtFailure(s: Session, unlockPrefix: string, stream: seq<Iteration>, k: nat)
    requires k <= |stream| && Run(s, unlockPrefix, stream[..k]).failedAt.Some?
    ensures Run(s, unlockPrefix, stream) == Run(s, unlockPrefix, stream[..k])
    decreases |stream| - k
  {
    if k < |stream| {
      assert stream[..k + 1][..k] == stream[..k];
      RunStopsAtFailure(s, unlockPrefix, stream, k + 1);
    } else {
      assert stream[..k] == stream;
    }
  }

  /** The variables of bluetooth_distance_locker that parse_line and the loop
      update in place. */
  class Locker {
    const unlockPrefix: string
    const queue: Deque
    var state: LockState
    var bluetoothActive: bool
    /** The lock and unlock commands run so far, oldest first. */
    var commands: seq<Command>

    ghost predicate Valid()
      reads this, queue
    {
      queue.Valid() && queue.maxlen == QUEUE_MAXLEN
    }

    ghost function Current(): Session
      reads this, queue
      requires Valid()
    {
      Session(queue.items, bluetoothActive, state, commands)
    }

    constructor (unlockPrefix: string)
      ensures Valid() && fresh(queue)
      ensures this.unlockPrefix == unlockPrefix && Current() == INITIAL
    {
      this.unlockPrefix := unlockPrefix;
      queue := new Deque(QUEUE_MAXLEN);
      state := Unlocked;
      bluetoothActive := false;
      commands := [];
    }

    /** parse_line: ok is false where int() raises, after the device has
        already been marked active. */
    method ParseLine(raw: string) returns (ok: bool)
      requires Valid()
      modifies this, queue
      ensures Valid() && ok == ParsedLine(old(Current()), raw).Some?
      ensures ok ==> Current() == ParsedLine(old(Current()), raw).value
      ensures !ok ==> Current() == old(Current()).(bluetoothActive := true)
    {
      ghost var before := Current();
      var line := Strip(raw);
      if line in DO_NOT_CARE_SENSOR_MESSAGES {
        assert ParsedLine(before, raw) == Some(before);
        return true;
      }
      if line == NOT_CONNECTED {
        if bluetoothActive {
          queue.AppendLeft(DISCONNECTED_RSSI);
        }
        assert ParsedLine(before, raw) == Some(Current());
        return true;
      }
      bluetoothActive := true;
      var value := ParseInt(RemoveAll(line, READING_PREFIX));
      if value.None? {
        assert ParsedLine(before, raw) == None;
        return false;
      }
      if value.value < NEAR_RSSI {
        queue.AppendLeft(value.value);
        assert ParsedLine(before, raw) == Some(Current());
        return true;
      }
      if |queue.items| > 0 {
        var _ := queue.Pop();
        assert ParsedLine(before, raw) == Some(Current());
        return true;
      }
      assert ParsedLine(before, raw) == Some(Current());
      return true;
    }

    /** The loop body: parse the line, read the screensaver status, and run
        the lock or unlock command when the hysteresis rule says so. */
    method ProcessLine(raw: string, statusOutput: string) returns (ok: bool)
      requires Valid()
      modifies this, queue
      ensures Valid()
      ensures ok == ProcessedLine(old(Current()), unlockPrefix, Iteration(raw, statusOutput)).Some?
      ensures ok ==> Current() == ProcessedLine(old(Current()), unlockPrefix, Iteration(raw, statusOutput)).value
      ensures !ok ==> Current() == old(Current()).(bluetoothActive := true)
    {
      ok := ParseLine(raw);
      if !ok {
        return;
      }
      var queueSize := |queue.items|;
      state := ScreenSaverStatus(statusOutput, unlockPrefix);
      if state == Unlocked && queueSize == queue.maxlen {
        state := Locked;
        commands := commands + [LockScreen];
      } else if state == Locked && queueSize < UNLOCK_BELOW {
        state := Unlocked;
        commands := commands + [UnlockScreen];
      }
    }
  }

  /** bluetooth_distance_locker over the sensor's lines: the commands it runs,
      and the index of the line whose int() raised, if any. */
  method BluetoothDistanceLocker(unlockPrefix: string, stream: seq<Iteration>)
    returns (commands: seq<Command>, failedAt: Option<nat>)
    ensures commands == Run(INITIAL, unlockPrefix, stream).session.commands
    ensures failedAt == Run(INITIAL, unlockPrefix, stream).failedAt
  {
    var locker := new Locker(unlockPrefix);
    var i := 0;
    while i < |stream|
      invariant 0 <= i <= |stream|
      invariant locker.Valid() && fresh(locker.queue) && locker.unlockPrefix == unlockPrefix
      invariant Run(INITIAL, unlockPrefix, stream[..i]) == Outcome(locker.Current(), None)
    {
      var ok := locker.ProcessLine(stream[i].line, stream[i].statusOutput);
      RunOneMore(INITIAL, unlockPrefix, stream, i);
      if !ok {
        RunStopsAtFailure(INITIAL, unlockPrefix, stream, i + 1);
        commands, failedAt := locker.commands, Some(i);
        return;
      }
      i := i + 1;
    }
    assert stream[..i] == stream;
    commands, failedAt := locker.commands, None;
  }
}
