/** What the locker promises: how each kind of sensor line moves the queue,
    the hysteresis of the lock decision, and two whole sessions: five far
    readings lock the screen on the fifth line, and two near readings unlock
    a locked screen whose queue was full. */
module LockerProperties {
  import opened PyText
  import opened Deques
  import opened DistanceLocker

  /** The line the sensor prints for a connected read, newline included. */
  function ReadingText(rssi: int): string {
    READING_PREFIX + Decimal(rssi) + "\n"
  }

  /** Every queue entry is a far reading (or the -255 sentinel). */
  predicate AllFar(q: seq<int>) {
    forall i :: 0 <= i < |q| ==> q[i] < NEAR_RSSI
  }

  lemma DecimalChars(rssi: int)
    ensures forall c :: c in Decimal(rssi) ==> c == '-' || IsDigit(c)
  {
    var d := Decimal(rssi);
    forall c | c in d ensures c == '-' || IsDigit(c) {
      var i :| 0 <= i < |d| && d[i] == c;
    }
  }

  /** Neither a noise message nor the disconnect notice starts with 'D', a
      digit or a sign. */
  lemma NotSpecialLine(t: string)
    requires |t| > 0 && (t[0] == 'D' || t[0] == '-' || t[0] == '+' || IsDigit(t[0]))
    ensures t !in DO_NOT_CARE_SENSOR_MESSAGES && t != NOT_CONNECTED
  {
    assert DO_NOT_CARE_SENSOR_MESSAGES[0][0] == 'R' && DO_NOT_CARE_SENSOR_MESSAGES[1][0] == 'A';
    assert DO_NOT_CARE_SENSOR_MESSAGES[2][0] == 'G' && DO_NOT_CARE_SENSOR_MESSAGES[3][0] == 'H';
    assert NOT_CONNECTED[0] == 'N';
  }

  /** Every line of the stream is a reading, of the value at the same index. */
  predicate ReadingsOf(stream: seq<Iteration>, values: seq<int>)
    decreases |stream|
  {
    |stream| == |values| &&
    (stream != [] ==>
       ReadingsOf(stream[..|stream| - 1], values[..|values| - 1]) &&
       Classify(stream[|stream| - 1].line) == Reading(values[|values| - 1]))
  }

  /** A reading of rssi marks the device active and moves the queue by rssi. */
  lemma ReadingEffect(s: Session, raw: string, rssi: int)
    requires Classify(raw) == Reading(rssi)
    ensures ParsedLine(s, raw) == Some(s.(bluetoothActive := true, queue := AfterReading(s.queue, rssi)))
  {
  }

  /** A line equal, once stripped, to one of the noise messages changes
      nothing. */
  lemma NoiseLine(s: Session, raw: string)
    requires Strip(raw) in DO_NOT_CARE_SENSOR_MESSAGES
    ensures Classify(raw) == Noise && ParsedLine(s, raw) == Some(s)
  {
  }

  /** "Not connected." pushes the -255 sentinel at the newest end only once the
      device has been seen, and never changes whether it has. */
  lemma DisconnectLine(s: Session, raw: string)
    requires Strip(raw) == NOT_CONNECTED
    ensures Classify(raw) == Disconnected && ParsedLine(s, raw).Some?
    ensures ParsedLine(s, raw).value.bluetoothActive == s.bluetoothActive
    ensures !s.bluetoothActive ==> ParsedLine(s, raw).value == s
    ensures s.bluetoothActive ==> ParsedLine(s, raw).value == s.(queue := PushedLeft(s.queue, DISCONNECTED_RSSI, QUEUE_MAXLEN))
  {
    assert NOT_CONNECTED !in DO_NOT_CARE_SENSOR_MESSAGES by {
      assert NOT_CONNECTED[0] == 'N';
      assert DO_NOT_CARE_SENSOR_MESSAGES[0][0] == 'R' && DO_NOT_CARE_SENSOR_MESSAGES[1][0] == 'A';
      assert DO_NOT_CARE_SENSOR_MESSAGES[2][0] == 'G' && DO_NOT_CARE_SENSOR_MESSAGES[3][0] == 'H';
    }
  }

  /** Any other line marks the device active, whether or not its number
      parses. */
  lemma OtherLineActivates(s: Session, raw: string)
    requires Strip(raw) !in DO_NOT_CARE_SENSOR_MESSAGES && Strip(raw) != NOT_CONNECTED
    ensures Classify(raw).Reading? || Classify(raw) == Malformed
    ensures ParsedLine(s, raw).Some? <==> ParseInt(RemoveAll(Strip(raw), READING_PREFIX)).Some?
    ensures ParsedLine(s, raw).Some? ==> ParsedLine(s, raw).value.bluetoothActive
  {
  }

  /** The stripped text of a reading line is the prefix and the number. */
  lemma ReadingTextStrips(rssi: int)
    ensures Strip(ReadingText(rssi)) == READING_PREFIX + Decimal(rssi)
  {
    PrefixedLineStrips(Decimal(rssi));
  }

  /** Removing the prefix from a reading's text leaves its number, which
      int() reads back. */
  lemma ReadingTextNumber(rssi: int)
    ensures ParseInt(RemoveAll(READING_PREFIX + Decimal(rssi), READING_PREFIX)) == Some(rssi)
  {
    var d := Decimal(rssi);
    var text := READING_PREFIX + d;
    assert READING_PREFIX <= text && text[|READING_PREFIX|..] == d;
    DecimalChars(rssi);
    RemoveAllAbsent(d, READING_PREFIX);
    ParseIntDecimal(rssi);
  }

  /** "Device connected. RSSI: <n>" is a reading of n. */
  lemma ReadingTextIsReading(rssi: int)
    ensures Classify(ReadingText(rssi)) == Reading(rssi)
  {
    ReadingTextStrips(rssi);
    NotSpecialLine(READING_PREFIX + Decimal(rssi));
    ReadingTextNumber(rssi);
  }

  /** The line the sensor prints for a reading of rssi moves the queue by rssi. */
  lemma ReadingLine(s: Session, rssi: int)
    ensures ParsedLine(s, ReadingText(rssi)) == Some(s.(bluetoothActive := true, queue := AfterReading(s.queue, rssi)))
  {
    ReadingTextIsReading(rssi);
    ReadingEffect(s, ReadingText(rssi), rssi);
  }

  /** The prefix is not required: a bare number is a reading too. */
  lemma BareNumberIsReading(rssi: int)
    ensures Classify(Decimal(rssi)) == Reading(rssi)
  {
    var d := Decimal(rssi);
    StripUnpadded(d);
    NotSpecialLine(d);
    DecimalChars(rssi);
    RemoveAllAbsent(d, READING_PREFIX);
    ParseIntDecimal(rssi);
  }

  /** A reading line as a whole pass of the loop: the queue moves, and then
      the hysteresis rule runs on the new size. */
  lemma ReadingStep(s: Session, unlockPrefix: string, rssi: int, statusOutput: string)
    ensures var q := AfterReading(s.queue, rssi);
            var d := Transition(ScreenSaverStatus(statusOutput, unlockPrefix), |q|);
            ProcessedLine(s, unlockPrefix, Iteration(ReadingText(rssi), statusOutput)) ==
              Some(Session(q, true, d.0, s.commands + d.1))
  {
    ReadingLine(s, rssi);
  }

  /** Line k of a stream whose first k lines ran without a fatal line, when
      parse_line turns the session into parsed. */
  lemma RunStep(s: Session, unlockPrefix: string, stream: seq<Iteration>, k: nat, parsed: Session)
    requires k < |stream| && Run(s, unlockPrefix, stream[..k]).failedAt.None?
    requires ParsedLine(Run(s, unlockPrefix, stream[..k]).session, stream[k].line) == Some(parsed)
    ensures var d := Transition(ScreenSaverStatus(stream[k].statusOutput, unlockPrefix), |parsed.queue|);
            Run(s, unlockPrefix, stream[..k + 1]) == Outcome(parsed.(state := d.0, commands := parsed.commands + d.1), None)
  {
    RunOneMore(s, unlockPrefix, stream, k);
  }

  /** A reading at position k of a stream whose first k lines ran without a
      fatal line: the queue moves, then the hysteresis rule runs on its size. */
  lemma ReadingRunStep(s: Session, unlockPrefix: string, stream: seq<Iteration>, k: nat, rssi: int)
    requires k < |stream| && Classify(stream[k].line) == Reading(rssi)
    requires Run(s, unlockPrefix, stream[..k]).failedAt.None?
    ensures var before := Run(s, unlockPrefix, stream[..k]).session;
            var q := AfterReading(before.queue, rssi);
            var d := Transition(ScreenSaverStatus(stream[k].statusOutput, unlockPrefix), |q|);
            Run(s, unlockPrefix, stream[..k + 1]) == Outcome(Session(q, true, d.0, before.commands + d.1), None)
  {
    var before := Run(s, unlockPrefix, stream[..k]).session;
    ReadingEffect(before, stream[k].line, rssi);
    RunStep(s, unlockPrefix, stream, k, before.(bluetoothActive := true, queue := AfterReading(before.queue, rssi)));
  }

  /** A reading as the last line of a stream, seen from the queue alone. */
  lemma LastReadingQueue(s: Session, unlockPrefix: string, stream: seq<Iteration>, rssi: int)
    requires stream != [] && Classify(stream[|stream| - 1].line) == Reading(rssi)
    requires Run(s, unlockPrefix, stream[..|stream| - 1]).failedAt.None?
    ensures var o := Run(s, unlockPrefix, stream);
            o.failedAt.None? && o.session.queue == AfterReading(Run(s, unlockPrefix, stream[..|stream| - 1]).session.queue, rssi)
  {
    ReadingRunStep(s, unlockPrefix, stream, |stream| - 1, rssi);
    assert stream[..|stream|] == stream;
  }

  /** A line with no digit anywhere that is neither a noise message nor the
      disconnect notice is one whose number int() refuses. */
  lemma NoDigitIsMalformed(raw: string)
    requires forall i :: 0 <= i < |raw| ==> !IsDigit(raw[i])
    requires Strip(raw) !in DO_NOT_CARE_SENSOR_MESSAGES && Strip(raw) != NOT_CONNECTED
    ensures Classify(raw) == Malformed
  {
    var line := Strip(raw);
    var rest := RemoveAll(line, READING_PREFIX);
    StripKeepsChars(raw);
    RemoveAllKeepsChars(line, READING_PREFIX);
    forall i | 0 <= i < |rest| ensures !IsDigit(rest[i]) {
      assert rest[i] in line;
      var j :| 0 <= j < |raw| && raw[j] == rest[i];
    }
    NoDigitNoNumber(rest);
  }

  /** A reading line whose value has no digit (an empty value, a word, a
      value with white space inside) is one int() refuses. */
  lemma NonNumericReading(word: string)
    requires forall i :: 0 <= i < |word| ==> !IsDigit(word[i])
    ensures Classify(READING_PREFIX + word + "\n") == Malformed
  {
    var raw := READING_PREFIX + word + "\n";
    forall i | 0 <= i < |raw| ensures !IsDigit(raw[i]) {
      if i < |READING_PREFIX| {
        assert raw[i] == READING_PREFIX[i];
      } else if i < |READING_PREFIX| + |word| {
        assert raw[i] == word[i - |READING_PREFIX|];
      }
    }
    assert raw[0] == 'D';
    StripKeepsHead(raw);
    NotSpecialLine(Strip(raw));
    NoDigitIsMalformed(raw);
  }

  /** int() does not skip a file separator in front of the number, though
      strip() keeps it inside the line: such a reading is refused, whatever
      the number. */
  lemma SeparatorInReadingIsMalformed(n: int)
    ensures Classify(READING_PREFIX + "\U{1C}" + Decimal(n) + "\n") == Malformed
  {
    var word := "\U{1C}" + Decimal(n);
    assert READING_PREFIX + "\U{1C}" + Decimal(n) == READING_PREFIX + word;
    PrefixedLineStrips(word);
    NotSpecialLine(READING_PREFIX + word);
    SeparatorWordRemoved(n);
    assert HasSeparator(word) by { assert IsSeparator(word[0]); }
  }

  /** The prefix, then a word that does not end in white space, then the
      newline: strip leaves the prefix and the word. */
  lemma PrefixedLineStrips(word: string)
    requires word != [] && !IsSpace(word[|word| - 1])
    ensures Strip(READING_PREFIX + word + "\n") == READING_PREFIX + word
  {
    var text := READING_PREFIX + word;
    assert text[|text| - 1] == word[|word| - 1];
    StripPadded([], text, "\n");
    assert [] + text + "\n" == text + "\n";
  }

  /** Removing the prefix in front of a separator and a number leaves them. */
  lemma SeparatorWordRemoved(n: int)
    ensures RemoveAll(READING_PREFIX + ("\U{1C}" + Decimal(n)), READING_PREFIX) == "\U{1C}" + Decimal(n)
  {
    var word := "\U{1C}" + Decimal(n);
    DecimalChars(n);
    assert forall i :: 0 < i < |word| ==> word[i] == Decimal(n)[i - 1];
    PrefixRemoved(word);
  }

  /** Removing the prefix from the prefix and a word without a 'D' leaves the word. */
  lemma PrefixRemoved(word: string)
    requires forall i :: 0 <= i < |word| ==> word[i] != 'D'
    ensures RemoveAll(READING_PREFIX + word, READING_PREFIX) == word
  {
    var text := READING_PREFIX + word;
    assert READING_PREFIX <= text && text[|READING_PREFIX|..] == word;
    RemoveAllAbsent(word, READING_PREFIX);
  }

  /** Such a line is fatal whatever the state: parse_line raises, and the
      pass runs no command. */
  lemma NonNumericReadingIsFatal(s: Session, unlockPrefix: string, word: string, statusOutput: string)
    requires forall i :: 0 <= i < |word| ==> !IsDigit(word[i])
    ensures ParsedLine(s, READING_PREFIX + word + "\n") == None
    ensures ProcessedLine(s, unlockPrefix, Iteration(READING_PREFIX + word + "\n", statusOutput)) == None
  {
    NonNumericReading(word);
  }

  /** A fatal line ends the session at that line: no command is run for it
      or for any line after it. */
  lemma FatalLineEndsSession(s: Session, unlockPrefix: string, stream: seq<Iteration>, k: nat)
    requires k < |stream| && Run(s, unlockPrefix, stream[..k]).failedAt.None?
    requires ParsedLine(Run(s, unlockPrefix, stream[..k]).session, stream[k].line).None?
    ensures Run(s, unlockPrefix, stream) == Outcome(Run(s, unlockPrefix, stream[..k]).session, Some(k))
  {
    RunOneMore(s, unlockPrefix, stream, k);
    RunStopsAtFailure(s, unlockPrefix, stream, k + 1);
  }

  /** Noise lines, however many, never move the queue or the device flag and
      are never fatal. */
  lemma {:induction false} NoiseLinesKeepWindow(s: Session, unlockPrefix: string, stream: seq<Iteration>)
    requires forall i :: 0 <= i < |stream| ==> Strip(stream[i].line) in DO_NOT_CARE_SENSOR_MESSAGES
    ensures Run(s, unlockPrefix, stream).failedAt.None?
    ensures Run(s, unlockPrefix, stream).session.queue == s.queue
    ensures Run(s, unlockPrefix, stream).session.bluetoothActive == s.bluetoothActive
    decreases |stream|
  {
    if stream != [] {
      var init := stream[..|stream| - 1];
      NoiseLinesKeepWindow(s, unlockPrefix, init);
      NoiseLine(Run(s, unlockPrefix, init).session, stream[|stream| - 1].line);
    }
  }

  /** Before any reading, "Not connected." and noise lines leave the queue
      empty and the device inactive, so the screen is never locked. */
  lemma {:induction false} DisconnectsBeforeFirstReading(s: Session, unlockPrefix: string, stream: seq<Iteration>)
    requires !s.bluetoothActive && s.queue == []
    requires forall i :: 0 <= i < |stream| ==>
               Strip(stream[i].line) in DO_NOT_CARE_SENSOR_MESSAGES || Strip(stream[i].line) == NOT_CONNECTED
    ensures var o := Run(s, unlockPrefix, stream);
            o.failedAt.None? && o.session.queue == [] && !o.session.bluetoothActive &&
            LockScreen !in o.session.commands[|s.commands|..]
    decreases |stream|
  {
    if stream != [] {
      var n := |stream| - 1;
      DisconnectsBeforeFirstReading(s, unlockPrefix, stream[..n]);
      var before := Run(s, unlockPrefix, stream[..n]).session;
      if Strip(stream[n].line) == NOT_CONNECTED {
        DisconnectLine(before, stream[n].line);
      } else {
        NoiseLine(before, stream[n].line);
      }
      RunStep(s, unlockPrefix, stream, n, before);
      var d := Transition(ScreenSaverStatus(stream[n].statusOutput, unlockPrefix), 0);
      assert d.1 == [] || d.1 == [UnlockScreen];
      assert stream[..n + 1] == stream;
      assert (before.commands + d.1)[|s.commands|..] == before.commands[|s.commands|..] + d.1;
    }
  }

  /** Once a reading has been seen, the device stays active for the rest of
      the session: the flag is never reset. */
  lemma {:induction false} ActiveStaysActive(s: Session, unlockPrefix: string, stream: seq<Iteration>)
    requires s.bluetoothActive
    ensures Run(s, unlockPrefix, stream).session.bluetoothActive
    decreases |stream|
  {
    if stream != [] {
      ActiveStaysActive(s, unlockPrefix, stream[..|stream| - 1]);
    }
  }

  lemma PushedLeftAllFar(q: Window, x: int)
    requires AllFar(q) && x < NEAR_RSSI
    ensures AllFar(PushedLeft(q, x, QUEUE_MAXLEN))
  {
    var r := PushedLeft(q, x, QUEUE_MAXLEN);
    forall i | 0 <= i < |r| ensures r[i] < NEAR_RSSI {
      if i > 0 { assert r[i] == r[1..][i - 1]; }
    }
  }

  /** The queue only ever holds far readings and the sentinel: every line
      keeps that true. */
  lemma QueueHoldsOnlyFarReadings(s: Session, raw: string)
    requires AllFar(s.queue)
    requires ParsedLine(s, raw).Some?
    ensures AllFar(ParsedLine(s, raw).value.queue)
  {
    var line := Strip(raw);
    if line in DO_NOT_CARE_SENSOR_MESSAGES {
      NoiseLine(s, raw);
    } else if line == NOT_CONNECTED {
      DisconnectLine(s, raw);
      if s.bluetoothActive {
        PushedLeftAllFar(s.queue, DISCONNECTED_RSSI);
      }
    } else {
      var rssi := ParseInt(RemoveAll(line, READING_PREFIX)).value;
      ReadingEffect(s, raw, rssi);
      if rssi < NEAR_RSSI {
        PushedLeftAllFar(s.queue, rssi);
      } else {
        assert AfterReading(s.queue, rssi) == s.queue[..|AfterReading(s.queue, rssi)|];
      }
    }
  }

  /** Far readings fill the queue one by one up to 5 and no further, with
      the newest reading at the newest end. */
  lemma {:induction false} FarReadingsSaturate(s: Session, unlockPrefix: string, stream: seq<Iteration>, values: seq<int>)
    requires ReadingsOf(stream, values) && forall i :: 0 <= i < |values| ==> values[i] < NEAR_RSSI
    ensures var o := Run(s, unlockPrefix, stream);
            o.failedAt.None? &&
            |o.session.queue| == (if |s.queue| + |values| < QUEUE_MAXLEN then |s.queue| + |values| else QUEUE_MAXLEN) &&
            (values != [] ==> o.session.queue[0] == values[|values| - 1])
    decreases |stream|
  {
    if stream != [] {
      var n := |stream| - 1;
      FarReadingsSaturate(s, unlockPrefix, stream[..n], values[..n]);
      LastReadingQueue(s, unlockPrefix, stream, values[|values| - 1]);
    }
  }

  /** Near readings take out the oldest entries one per line, never go below
      empty, and keep the order of what remains. */
  lemma {:induction false} NearReadingsErode(s: Session, unlockPrefix: string, stream: seq<Iteration>, values: seq<int>)
    requires ReadingsOf(stream, values) && forall i :: 0 <= i < |values| ==> values[i] >= NEAR_RSSI
    ensures var o := Run(s, unlockPrefix, stream);
            o.failedAt.None? &&
            o.session.queue == s.queue[..if |values| < |s.queue| then |s.queue| - |values| else 0]
    decreases |stream|
  {
    if stream != [] {
      var n := |stream| - 1;
      NearReadingsErode(s, unlockPrefix, stream[..n], values[..n]);
      NearReadingLast(s, unlockPrefix, stream, values);
    }
  }

  /** A near reading as the last line of a run of near readings, after the
      lines before it left the oldest entries of the starting queue. */
  lemma NearReadingLast(s: Session, unlockPrefix: string, stream: seq<Iteration>, values: seq<int>)
    requires ReadingsOf(stream, values) && stream != [] && values[|values| - 1] >= NEAR_RSSI
    requires var n := |stream| - 1;
             var o := Run(s, unlockPrefix, stream[..n]);
             o.failedAt.None? &&
             o.session.queue == s.queue[..if |values[..n]| < |s.queue| then |s.queue| - |values[..n]| else 0]
    ensures var o := Run(s, unlockPrefix, stream);
            o.failedAt.None? &&
            o.session.queue == s.queue[..if |values| < |s.queue| then |s.queue| - |values| else 0]
  {
    var n := |stream| - 1;
    assert |values| == n + 1 && |values[..n]| == n;
    var rssi := values[n];
    var m: nat := if n < |s.queue| then |s.queue| - n else 0;
    LastReadingQueue(s, unlockPrefix, stream, rssi);
    NearReadingOnPrefix(s.queue, m, rssi);
  }

  /** A near reading on the oldest-first prefix of a queue shortens the prefix. */
  lemma NearReadingOnPrefix(q: Window, m: nat, rssi: int)
    requires m <= |q| && rssi >= NEAR_RSSI
    ensures AfterReading(q[..m], rssi) == q[..if m > 0 then m - 1 else 0]
  {
    if m > 0 {
      assert q[..m][..m - 1] == q[..m - 1];
    }
  }

  /** The rule for one line: the screensaver's state becomes the new state
      unless the queue is full while unlocked (lock) or below 4 while locked
      (unlock), and at most that one command is run. */
  lemma LineDecision(s: Session, unlockPrefix: string, it: Iteration)
    requires ProcessedLine(s, unlockPrefix, it).Some?
    ensures var next := ProcessedLine(s, unlockPrefix, it).value;
            var truth := ScreenSaverStatus(it.statusOutput, unlockPrefix);
            var n := |next.queue|;
            next.queue == ParsedLine(s, it.line).value.queue &&
            (truth == Unlocked && n == QUEUE_MAXLEN ==>
               next.state == Locked && next.commands == s.commands + [LockScreen]) &&
            (truth == Locked && n < UNLOCK_BELOW ==>
               next.state == Unlocked && next.commands == s.commands + [UnlockScreen]) &&
            (!(truth == Unlocked && n == QUEUE_MAXLEN) && !(truth == Locked && n < UNLOCK_BELOW) ==>
               next.state == truth && next.commands == s.commands)
  {
    var p := ParsedLine(s, it.line).value;
    var d := Transition(ScreenSaverStatus(it.statusOutput, unlockPrefix), |p.queue|);
    assert ProcessedLine(s, unlockPrefix, it).value == p.(state := d.0, commands := p.commands + d.1);
  }

  /** The line after one that locked the screen cannot unlock it: the queue
      was full, and one line takes out at most one entry, which leaves 4. */
  lemma NoUnlockRightAfterLock(s: Session, unlockPrefix: string, first: Iteration, second: Iteration)
    requires ProcessedLine(s, unlockPrefix, first).Some?
    requires ProcessedLine(s, unlockPrefix, first).value.commands == s.commands + [LockScreen]
    requires ProcessedLine(ProcessedLine(s, unlockPrefix, first).value, unlockPrefix, second).Some?
    ensures var mid := ProcessedLine(s, unlockPrefix, first).value;
            var last := ProcessedLine(mid, unlockPrefix, second).value;
            |mid.queue| == QUEUE_MAXLEN &&
            (last.commands == mid.commands || last.commands == mid.commands + [LockScreen])
  {
    var mid := ProcessedLine(s, unlockPrefix, first).value;
    var p := ParsedLine(s, first.line).value;
    var d := Transition(ScreenSaverStatus(first.statusOutput, unlockPrefix), |p.queue|);
    assert mid == p.(state := d.0, commands := p.commands + d.1);
    assert d.1 == [LockScreen] by {
      assert d.1 == mid.commands[|s.commands|..];
    }
    var p2 := ParsedLine(mid, second.line).value;
    var d2 := Transition(ScreenSaverStatus(second.statusOutput, unlockPrefix), |p2.queue|);
    assert ProcessedLine(mid, unlockPrefix, second).value == p2.(state := d2.0, commands := p2.commands + d2.1);
  }

  /** Far readings from a fresh session while the screensaver is inactive:
      after k <= 5 of them the queue holds k copies of the reading, and only
      the fifth locks the screen. */
  lemma {:induction false} FarReadingsFromFresh(unlockPrefix: string, inactive: string, line: string, rssi: int,
                                                stream: seq<Iteration>, k: nat)
    requires unlockPrefix <= inactive && rssi < NEAR_RSSI && Classify(line) == Reading(rssi)
    requires k <= |stream| && k <= QUEUE_MAXLEN
    requires forall i :: 0 <= i < k ==> stream[i] == Iteration(line, inactive)
    ensures var o := Run(INITIAL, unlockPrefix, stream[..k]);
            o.failedAt.None? && |o.session.queue| == k &&
            (forall i :: 0 <= i < k ==> o.session.queue[i] == rssi) &&
            o.session.state == (if k == QUEUE_MAXLEN then Locked else Unlocked) &&
            o.session.commands == (if k == QUEUE_MAXLEN then [LockScreen] else [])
  {
    if k == 0 {
      assert stream[..0] == [];
    } else {
      FarReadingsFromFresh(unlockPrefix, inactive, line, rssi, stream, k - 1);
      var before := Run(INITIAL, unlockPrefix, stream[..k - 1]).session;
      assert |before.queue| == k - 1;
      var q := FarStep(INITIAL, unlockPrefix, inactive, rssi, stream, k - 1);
      var full := k == QUEUE_MAXLEN;
      assert Run(INITIAL, unlockPrefix, stream[..k]) ==
             Outcome(Session(q, true, if full then Locked else Unlocked, if full then [LockScreen] else []), None);
      PushSame(before.queue, rssi);
    }
  }

  /** Pushing a copy of the value every entry already holds. */
  lemma PushSame(q: seq<int>, x: int)
    requires forall i :: 0 <= i < |q| ==> q[i] == x
    ensures forall i :: 0 <= i < |[x] + q| ==> ([x] + q)[i] == x
  {
    forall i | 0 < i < |[x] + q| ensures ([x] + q)[i] == x {
      assert ([x] + q)[i] == q[i - 1];
    }
  }

  /** One more far reading with the screensaver inactive, after a prefix of
      the stream that ran without a command: the reading goes in at the
      newest end, and the screen is locked exactly when that fills the queue. */
  lemma FarStep(s: Session, unlockPrefix: string, inactive: string, rssi: int, stream: seq<Iteration>, k: nat)
    returns (q: seq<int>)
    requires unlockPrefix <= inactive && rssi < NEAR_RSSI
    requires k < |stream| && stream[k].statusOutput == inactive && Classify(stream[k].line) == Reading(rssi)
    requires var o := Run(s, unlockPrefix, stream[..k]);
             o.failedAt.None? && o.session.state == Unlocked && o.session.commands == [] &&
             |o.session.queue| < QUEUE_MAXLEN
    ensures var before := Run(s, unlockPrefix, stream[..k]).session;
            var full := |before.queue| == QUEUE_MAXLEN - 1;
            q == [rssi] + before.queue &&
            Run(s, unlockPrefix, stream[..k + 1]) ==
              Outcome(Session(q, true, if full then Locked else Unlocked, if full then [LockScreen] else []), None)
  {
    var before := Run(s, unlockPrefix, stream[..k]).session;
    q := [rssi] + before.queue;
    assert ScreenSaverStatus(inactive, unlockPrefix) == Unlocked;
    ReadingRunStep(s, unlockPrefix, stream, k, rssi);
    assert AfterReading(before.queue, rssi) == q;
  }

  /** Five readings of the same far value, from a fresh session while the
      screensaver is inactive: nothing happens for four lines, and the fifth
      locks. */
  lemma FarReadingsLockOnFifth(unlockPrefix: string, inactive: string, line: string, rssi: int, stream: seq<Iteration>)
    requires unlockPrefix <= inactive && rssi < NEAR_RSSI && Classify(line) == Reading(rssi)
    requires |stream| == 5 && forall i :: 0 <= i < 5 ==> stream[i] == Iteration(line, inactive)
    ensures var o := Run(INITIAL, unlockPrefix, stream[..4]);
            o.failedAt.None? && o.session.state == Unlocked && o.session.commands == [] && |o.session.queue| == 4
    ensures var o := Run(INITIAL, unlockPrefix, stream);
            o.failedAt.None? && o.session.state == Locked && o.session.commands == [LockScreen] &&
            |o.session.queue| == 5 && forall i :: 0 <= i < 5 ==> o.session.queue[i] == rssi
  {
    FarReadingsFromFresh(unlockPrefix, inactive, line, rssi, stream, 4);
    FarReadingsFromFresh(unlockPrefix, inactive, line, rssi, stream, 5);
    assert stream[..5] == stream;
  }

  /** Five "Device connected. RSSI: <n>" lines with a far n, as the sensor
      prints them: the lock command runs on the fifth and not before. */
  lemma FiveFarReadingsLock(unlockPrefix: string, inactive: string, rssi: int, stream: seq<Iteration>)
    requires unlockPrefix <= inactive && rssi < NEAR_RSSI
    requires |stream| == 5 && forall i :: 0 <= i < 5 ==> stream[i] == Iteration(ReadingText(rssi), inactive)
    ensures Run(INITIAL, unlockPrefix, stream[..4]).session.commands == []
    ensures Run(INITIAL, unlockPrefix, stream).session.commands == [LockScreen]
  {
    ReadingTextIsReading(rssi);
    FarReadingsLockOnFifth(unlockPrefix, inactive, ReadingText(rssi), rssi, stream);
  }

  /** A near reading while the screensaver reports locked: the oldest entry
      goes, and the screen is unlocked exactly when fewer than 4 are left. */
  lemma NearReadingWhileLocked(s: Session, unlockPrefix: string, locked: string, stream: seq<Iteration>, k: nat, rssi: int)
    requires !(unlockPrefix <= locked) && rssi >= NEAR_RSSI
    requires k < |stream| && stream[k].statusOutput == locked && Classify(stream[k].line) == Reading(rssi)
    requires Run(s, unlockPrefix, stream[..k]).failedAt.None?
    ensures var before := Run(s, unlockPrefix, stream[..k]).session;
            var q := AfterReading(before.queue, rssi);
            var unlock := |q| < UNLOCK_BELOW;
            Run(s, unlockPrefix, stream[..k + 1]) ==
              Outcome(Session(q, true, if unlock then Unlocked else Locked,
                              before.commands + if unlock then [UnlockScreen] else []), None)
  {
    assert ScreenSaverStatus(locked, unlockPrefix) == Locked;
    ReadingRunStep(s, unlockPrefix, stream, k, rssi);
  }

  /** A locked screen with a full queue: one near reading leaves it locked at
      size 4, the dead zone. */
  lemma NearReadingInDeadZone(q: Window, unlockPrefix: string, locked: string, rssi: int, stream: seq<Iteration>)
    requires |q| == QUEUE_MAXLEN && !(unlockPrefix <= locked) && rssi >= NEAR_RSSI
    requires |stream| > 0 && stream[0].statusOutput == locked && Classify(stream[0].line) == Reading(rssi)
    ensures Run(Session(q, true, Locked, []), unlockPrefix, stream[..1]) == Outcome(Session(q[..4], true, Locked, []), None)
  {
    assert stream[..0] == [];
    NearReadingWhileLocked(Session(q, true, Locked, []), unlockPrefix, locked, stream, 0, rssi);
  }

  /** A second near reading takes the queue to 3 and unlocks. */
  lemma TwoNearReadingsUnlock(q: Window, unlockPrefix: string, locked: string, line: string, rssi: int, stream: seq<Iteration>)
    requires |q| == QUEUE_MAXLEN && !(unlockPrefix <= locked) && rssi >= NEAR_RSSI && Classify(line) == Reading(rssi)
    requires |stream| == 2 && forall i :: 0 <= i < 2 ==> stream[i] == Iteration(line, locked)
    ensures Run(Session(q, true, Locked, []), unlockPrefix, stream[..1]) == Outcome(Session(q[..4], true, Locked, []), None)
    ensures Run(Session(q, true, Locked, []), unlockPrefix, stream) == Outcome(Session(q[..3], true, Unlocked, [UnlockScreen]), None)
  {
    NearReadingInDeadZone(q, unlockPrefix, locked, rssi, stream);
    NearReadingWhileLocked(Session(q, true, Locked, []), unlockPrefix, locked, stream, 1, rssi);
    NearReadingOnPrefix(q, 4, rssi);
    assert stream[..2] == stream;
  }
}
