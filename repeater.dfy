/**
 * The capture loop and the player loop as an object whose fields the two loops update:
 * the ON/OFF flag and hysteresis counter of `main`, the recording channel `s2`/`r2`,
 * the playback channel `s`/`r`, and the ON/OFF lines printed so far.
 */
module Repeater {
  import opened Meter
  import opened Activity
  import opened Playback

  class Repeater {
    const config: Config
    var active: bool
    var counter: nat
    var recording: seq<Frame>
    var playback: seq<Frame>
    var log: seq<Event>

    /** The fields seen as a value of the state machine. */
    function Model(): Monitor
      reads this
    {
      Monitor(active, counter, recording, playback, log)
    }

    ghost predicate Valid()
      reads this
    {
      Activity.Valid(config, Model())
    }

    /** The state right before the capture loop starts. */
    constructor (threshold: I16, hysteresis: nat)
      ensures config == Config(threshold, hysteresis)
      ensures Model() == Initial && Valid()
    {
      config := Config(threshold, hysteresis);
      active, counter := false, 0;
      recording, playback, log := [], [], [];
    }

    /** One iteration of the capture loop on the frame just read. */
    method Step(frame: Frame)
      modifies this
      ensures Model() == Capture(config, old(Model()), frame)
      ensures old(Valid()) ==> Valid()
    {
      var lvl := AudioLevel(frame);
      if lvl > config.threshold {
        if !active {
          log := log + [On];
        }
        active := true;
        counter := config.hysteresis;
      } else {
        if counter == 0 {
          if active {
            log := log + [Off];
          }
          active := false;
          Drain();
        } else {
          counter := counter - 1;
        }
      }
      if active {
        recording := recording + [frame];
      }
    }

    /** Move every frame of the recording channel, oldest first, onto the playback channel. */
    method Drain()
      modifies this`recording, this`playback
      ensures recording == [] && playback == old(playback) + old(recording)
    {
      while recording != []
        invariant playback + recording == old(playback) + old(recording)
        decreases |recording|
      {
        playback := playback + [recording[0]];
        recording := recording[1..];
      }
    }

    /** The capture loop over the frames read so far. */
    method Listen(frames: seq<Frame>)
      modifies this
      ensures Model() == Run(config, old(Model()), frames)
      ensures old(Valid()) ==> Valid()
    {
      for i := 0 to |frames|
        invariant Model() == Run(config, old(Model()), frames[..i])
        invariant old(Valid()) ==> Valid()
      {
        RunSnoc(config, old(Model()), frames[..i], frames[i]);
        assert frames[..i] + [frames[i]] == frames[..i + 1];
        Step(frames[i]);
      }
      assert frames[..|frames|] == frames;
    }

    /** One player cycle: write the oldest queued frame, or silence if none is queued. */
    method PlayStep() returns (written: Frame)
      modifies this`playback
      ensures Cycle(written, playback) == Play(old(playback))
    {
      if playback != [] {
        written := playback[0];
        playback := playback[1..];
      } else {
        written := Silence();
      }
    }

    /**
     * `n` player cycles while the capture side adds nothing: the queued frames come out
     * in order, followed by silence.
     */
    method Player(n: nat) returns (written: seq<Frame>)
      modifies this`playback
      ensures (written, playback) == PlayN(old(playback), n)
      ensures written == if n <= |old(playback)| then old(playback)[..n]
                         else old(playback) + Silences(n - |old(playback)|)
    {
      written := [];
      for i := 0 to n
        invariant (written, playback) == PlayN(old(playback), i)
      {
        var frame := PlayStep();
        written := written + [frame];
      }
      PlayInOrder(old(playback), n);
    }
  }
}
