/**
 * The per-frame activity-detection state machine of the capture loop, on values:
 * the ON/OFF flag, the hysteresis counter, the recording queue, the playback queue
 * and the console log of edge events.
 */
module Activity {
  import opened Meter

  /** The two console lines the capture loop prints. */
  datatype Event = On | Off

  /** The command-line parameters the machine depends on. */
  datatype Config = Config(threshold: I16, hysteresis: nat)

  /**
   * Everything one capture step reads and writes: `state`, `counter`, the contents of
   * the recording channel, the contents of the playback channel, and the printed log.
   */
  datatype Monitor = Monitor(
    active: bool,
    counter: nat,
    recording: seq<Frame>,
    playback: seq<Frame>,
    log: seq<Event>)

  /** The state before the first frame is read: OFF, counter 0, both channels empty. */
  const Initial: Monitor := Monitor(false, 0, [], [], [])

  /** The log reads ON, OFF, ON, OFF, ... */
  predicate Alternating(log: seq<Event>)
  {
    forall i :: 0 <= i < |log| ==> log[i] == (if i % 2 == 0 then On else Off)
  }

  /** What holds of every state the capture loop reaches. */
  predicate Valid(c: Config, m: Monitor)
  {
    && m.counter <= c.hysteresis
    && (m.counter > 0 ==> m.active)
    && (!m.active ==> m.recording == [])
    && Alternating(m.log)
    && (m.active <==> |m.log| % 2 == 1)
  }

  lemma InitialValid(c: Config)
    ensures Valid(c, Initial)
  {
  }

  /**
   * One iteration of the capture loop on `frame`: decide from the level, then record the
   * frame if the machine is ON afterwards. When the grace window has run out, the whole
   * recording queue moves, in order, to the end of the playback queue.
   */
  function Capture(c: Config, m: Monitor, frame: Frame): (m': Monitor)
    ensures m'.active <==> Level(frame) > c.threshold || (m.active && m.counter > 0)
  {
    var decided :=
      if Level(frame) > c.threshold then
        m.(active := true, counter := c.hysteresis,
           log := if m.active then m.log else m.log + [On])
      else if m.counter == 0 then
        m.(active := false,
           log := if m.active then m.log + [Off] else m.log,
           playback := m.playback + m.recording, recording := [])
      else
        m.(counter := m.counter - 1);
    if decided.active then decided.(recording := decided.recording + [frame]) else decided
  }

  /** One step keeps the invariant. */
  lemma CaptureValid(c: Config, m: Monitor, frame: Frame)
    requires Valid(c, m)
    ensures Valid(c, Capture(c, m, frame))
  {
  }

  /** When the machine is ON after a step, the frame just read is the newest recorded one. */
  lemma CaptureRecords(c: Config, m: Monitor, frame: Frame)
    ensures var m' := Capture(c, m, frame);
      m'.active ==> m'.recording != [] && m'.recording[|m'.recording| - 1] == frame
  {
  }

  /**
   * Conservation and order for one step: playback followed by recording grows by exactly
   * the frame when the machine is ON afterwards, and not at all otherwise.
   */
  lemma CaptureConserves(c: Config, m: Monitor, frame: Frame)
    ensures var m' := Capture(c, m, frame);
      m'.playback + m'.recording == m.playback + m.recording + (if m'.active then [frame] else [])
  {
  }

  /** A loud frame turns the machine ON, refills the grace window and is recorded; ON is printed only on an edge. */
  lemma LoudFrame(c: Config, m: Monitor, frame: Frame)
    requires Level(frame) > c.threshold
    ensures var m' := Capture(c, m, frame);
      && m'.active && m'.counter == c.hysteresis
      && m'.log == m.log + (if m.active then [] else [On])
      && m'.recording == m.recording + [frame]
      && m'.playback == m.playback
  {
  }

  /**
   * A quiet frame inside the grace window uses up one unit of it and is still recorded
   * (a positive counter implies ON in every valid state).
   */
  lemma GraceFrame(c: Config, m: Monitor, frame: Frame)
    requires m.active
    requires Level(frame) <= c.threshold && m.counter > 0
    ensures var m' := Capture(c, m, frame);
      && m'.active == m.active && m'.counter == m.counter - 1
      && m'.log == m.log
      && m'.recording == m.recording + [frame]
      && m'.playback == m.playback
  {
  }

  /**
   * A quiet frame after the grace window turns the machine OFF, prints OFF only on an edge,
   * flushes the recording queue in order onto the playback queue, and is not recorded itself.
   */
  lemma ExpiredFrame(c: Config, m: Monitor, frame: Frame)
    requires Level(frame) <= c.threshold && m.counter == 0
    ensures var m' := Capture(c, m, frame);
      && !m'.active && m'.counter == 0
      && m'.log == m.log + (if m.active then [Off] else [])
      && m'.recording == []
      && m'.playback == m.playback + m.recording
  {
  }

  /** While OFF, a quiet frame changes nothing at all: it is neither recorded nor played. */
  lemma IdleFrame(c: Config, m: Monitor, frame: Frame)
    requires Valid(c, m) && !m.active
    requires Level(frame) <= c.threshold
    ensures Capture(c, m, frame) == m
  {
  }

  /** The capture loop run over a finite sequence of frames, first frame first. */
  function Run(c: Config, m: Monitor, frames: seq<Frame>): (m': Monitor)
    ensures |m.log| <= |m'.log| && m'.log[..|m.log|] == m.log
    decreases |frames|
  {
    if frames == [] then m else Run(c, Capture(c, m, frames[0]), frames[1..])
  }

  lemma {:induction false} RunConcat(c: Config, m: Monitor, a: seq<Frame>, b: seq<Frame>)
    ensures Run(c, m, a + b) == Run(c, Run(c, m, a), b)
    decreases |a|
  {
    if a == [] {
      assert a + b == b;
    } else {
      assert (a + b)[0] == a[0];
      assert (a + b)[1..] == a[1..] + b;
      RunConcat(c, Capture(c, m, a[0]), a[1..], b);
    }
  }

  /** Running one more frame is one more capture step. */
  lemma RunSnoc(c: Config, m: Monitor, frames: seq<Frame>, frame: Frame)
    ensures Run(c, m, frames + [frame]) == Capture(c, Run(c, m, frames), frame)
  {
    RunConcat(c, m, frames, [frame]);
    RunSingle(c, Run(c, m, frames), frame);
  }

  /** Every state reached from a valid one, in particular from `Initial`, is valid. */
  lemma {:induction false} RunValid(c: Config, m: Monitor, frames: seq<Frame>)
    requires Valid(c, m)
    ensures Valid(c, Run(c, m, frames))
    decreases |frames|
  {
    if frames != [] {
      CaptureValid(c, m, frames[0]);
      RunValid(c, Capture(c, m, frames[0]), frames[1..]);
    }
  }

  /** The frames a run keeps: those after which the machine is ON, in arrival order. */
  function Kept(c: Config, m: Monitor, frames: seq<Frame>): (r: seq<Frame>)
    ensures |r| <= |frames|
    decreases |frames|
  {
    if frames == [] then []
    else
      var m' := Capture(c, m, frames[0]);
      (if m'.active then [frames[0]] else []) + Kept(c, m', frames[1..])
  }

  /** `a` is `b` with some elements left out, the rest in the same order. */
  predicate IsSubsequence<T(==)>(a: seq<T>, b: seq<T>)
    decreases |b|
  {
    if a == [] then true
    else if b == [] then false
    else (a[0] == b[0] && IsSubsequence(a[1..], b[1..])) || IsSubsequence(a, b[1..])
  }

  /**
   * Conservation over a whole run: the two queues together hold what they held before,
   * followed by the kept frames.
   */
  lemma {:induction false} RunConserves(c: Config, m: Monitor, frames: seq<Frame>)
    ensures var m' := Run(c, m, frames);
      m'.playback + m'.recording == m.playback + m.recording + Kept(c, m, frames)
    decreases |frames|
  {
    if frames != [] {
      var m1 := Capture(c, m, frames[0]);
      var head := if m1.active then [frames[0]] else [];
      CaptureConserves(c, m, frames[0]);
      assert m1.playback + m1.recording == m.playback + m.recording + head;
      RunConserves(c, m1, frames[1..]);
      assert Kept(c, m, frames) == head + Kept(c, m1, frames[1..]);
      assert m.playback + m.recording + head + Kept(c, m1, frames[1..])
          == m.playback + m.recording + Kept(c, m, frames);
    }
  }

  /** The kept frames are the input with some frames dropped, none duplicated or reordered. */
  lemma {:induction false} KeptIsSubsequence(c: Config, m: Monitor, frames: seq<Frame>)
    ensures IsSubsequence(Kept(c, m, frames), frames)
    decreases |frames|
  {
    if frames != [] {
      var m1 := Capture(c, m, frames[0]);
      KeptIsSubsequence(c, m1, frames[1..]);
      var k := Kept(c, m1, frames[1..]);
      if m1.active {
        assert ([frames[0]] + k)[1..] == k;
      } else {
        assert Kept(c, m, frames) == k;
      }
    }
  }

  /** Every frame of `frames` is at or below the threshold. */
  predicate AllQuiet(c: Config, frames: seq<Frame>)
    decreases |frames|
  {
    frames == [] || (Level(frames[0]) <= c.threshold && AllQuiet(c, frames[1..]))
  }

  /** Quiet frames that fit in the remaining grace window are all recorded and keep the machine ON. */
  lemma {:induction false} GraceWindow(c: Config, m: Monitor, quiet: seq<Frame>)
    requires m.active && AllQuiet(c, quiet) && |quiet| <= m.counter
    ensures Run(c, m, quiet) == m.(counter := m.counter - |quiet|, recording := m.recording + quiet)
    decreases |quiet|
  {
    if quiet == [] {
      assert m.recording + quiet == m.recording;
    } else {
      var m1 := Capture(c, m, quiet[0]);
      GraceFrame(c, m, quiet[0]);
      GraceWindow(c, m1, quiet[1..]);
      assert m.recording + [quiet[0]] + quiet[1..] == m.recording + quiet;
    }
  }

  /**
   * Hysteresis, first half: after a loud frame, exactly `hysteresis` further quiet frames
   * are all recorded, the machine stays ON and no event is printed beyond the ON edge.
   */
  lemma GraceAfterLoud(c: Config, m: Monitor, loud: Frame, quiet: seq<Frame>)
    requires Level(loud) > c.threshold
    requires |quiet| == c.hysteresis && AllQuiet(c, quiet)
    ensures Run(c, m, [loud] + quiet)
            == m.(active := true, counter := 0, recording := m.recording + [loud] + quiet,
                  log := m.log + (if m.active then [] else [On]))
  {
    var m1 := m.(active := true, counter := c.hysteresis, recording := m.recording + [loud],
                 log := m.log + (if m.active then [] else [On]));
    LoudFrame(c, m, loud);
    RunSingle(c, m, loud);
    RunConcat(c, m, [loud], quiet);
    GraceWindow(c, m1, quiet);
    assert m1.recording + quiet == m.recording + [loud] + quiet;
  }

  /**
   * Hysteresis, second half: the quiet frame after the grace window prints exactly one OFF,
   * is not recorded, and moves the whole utterance, in order, onto the playback queue.
   */
  lemma Hysteresis(c: Config, m: Monitor, loud: Frame, quiet: seq<Frame>, last: Frame)
    requires Level(loud) > c.threshold
    requires |quiet| == c.hysteresis && AllQuiet(c, quiet)
    requires Level(last) <= c.threshold
    ensures Run(c, m, [loud] + quiet + [last])
            == m.(active := false, counter := 0, recording := [],
                  playback := m.playback + (m.recording + [loud] + quiet),
                  log := m.log + (if m.active then [] else [On]) + [Off])
  {
    var during := m.(active := true, counter := 0, recording := m.recording + [loud] + quiet,
                     log := m.log + (if m.active then [] else [On]));
    GraceAfterLoud(c, m, loud, quiet);
    HysteresisEnd(c, m, [loud] + quiet, during, last);
  }

  lemma HysteresisEnd(c: Config, m: Monitor, utterance: seq<Frame>, during: Monitor, last: Frame)
    requires during == Run(c, m, utterance)
    requires during.counter == 0 && during.active && Level(last) <= c.threshold
    ensures Run(c, m, utterance + [last])
            == during.(active := false, recording := [],
                       playback := during.playback + during.recording, log := during.log + [Off])
  {
    RunSnoc(c, m, utterance, last);
    ExpiredFrame(c, during, last);
  }

  lemma RunSingle(c: Config, m: Monitor, frame: Frame)
    ensures Run(c, m, [frame]) == Capture(c, m, frame)
  {
    assert [frame][1..] == [];
  }

  /** From the initial state, the log is ON, OFF, ON, ... and ends in ON exactly while the machine is ON. */
  lemma EventsAlternate(c: Config, frames: seq<Frame>)
    ensures var m := Run(c, Initial, frames);
      Alternating(m.log) && (m.active <==> |m.log| % 2 == 1)
  {
    RunValid(c, Initial, frames);
  }

  /**
   * A worked example: threshold 1000, hysteresis 2, frames of levels 1500, 200, 200, 200.
   * The first three frames reach the playback queue in order and the log reads ON, OFF.
   */
  lemma Scenario(f1: Frame, f2: Frame, f3: Frame, f4: Frame)
    requires Level(f1) == 1500 && Level(f2) == 200 && Level(f3) == 200 && Level(f4) == 200
    ensures Run(Config(1000, 2), Initial, [f1, f2, f3, f4]) == Monitor(false, 0, [], [f1, f2, f3], [On, Off])
  {
    var c: Config, quiet: seq<Frame> := Config(1000, 2), [f2, f3];
    assert AllQuiet(c, quiet) by {
      assert quiet[1..] == [f3] && |quiet[1..][1..]| == 0;
    }
    Hysteresis(c, Initial, f1, quiet, f4);
    ScenarioSequences(f1, f2, f3, f4);
  }

  lemma ScenarioSequences(f1: Frame, f2: Frame, f3: Frame, f4: Frame)
    ensures [f1] + [f2, f3] + [f4] == [f1, f2, f3, f4]
    ensures Initial.playback + (Initial.recording + [f1] + [f2, f3]) == [f1, f2, f3]
    ensures Initial.log + (if Initial.active then [] else [On]) + [Off] == [On, Off]
  {
  }
}
