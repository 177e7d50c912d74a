# audiorepeat: verified model of the activity detector and its replay queues

audiorepeat listens on a mono 16-bit input and measures the peak level of each
block it reads. While the source is loud, and for a grace window of `hysteresis`
quiet blocks after it, the program records the blocks. When the window runs out, it
prints `OFF` and hands the whole recording, in order, to a player thread. That thread
writes the next queued block to the output, or a 4800-sample block of silence when
nothing is queued.

This project models that core in Dafny and proves its properties:

- `meter.dfy` (module `Meter`): the `i16` sample type, saturating negation and
  absolute value, the peak-level function `Level`, and `AudioLevel`, the loop that
  implements `audio_level` and is proved equal to `Level`.
- `activity.dfy` (module `Activity`): the capture-loop transition as a function on a
  `Monitor` value. A `Monitor` holds the ON/OFF flag, the counter, the recording
  channel, the playback channel and the printed log. The module also defines `Run`,
  the transition folded over a finite sequence of frames, and proves the invariant,
  conservation, ordering, hysteresis and alternation lemmas about it.
- `playback.dfy` (module `Playback`): one player cycle (`Play`), `n` cycles
  (`PlayN`), and the lemma that the player writes the queue in order and then silence.
- `repeater.dfy` (module `Repeater`): class `Repeater` with the fields the two loops
  update. `Step`, `Drain`, `Listen`, `PlayStep` and `Player` are imperative methods.
  Each one is proved to produce exactly the state that the functions above give.

Points where the code's behaviour is easy to misread:

- The `hysteresis` option is documented as the "number of silent blocks to wait before
  considering it OFF" (src/main.rs:34). The code sets `counter = hysteresis` on a loud
  frame (src/main.rs:124) and declares OFF only on a quiet frame that finds
  `counter == 0` (src/main.rs:126). So `hysteresis` quiet frames are still recorded, and
  OFF comes on quiet frame number `hysteresis + 1`. `Activity.Hysteresis` states this,
  and `Activity.Scenario` works it through for threshold 1000 and hysteresis 2.
- The threshold is a signed `i16` (src/main.rs:28), so it may be negative. Then every
  frame counts as loud, because every level is at least 0.
- The code drains the recording channel on every quiet frame that finds
  `counter == 0`, also when the machine is already OFF (src/main.rs:126-134). The model
  does the same. `Activity.IdleFrame` shows that this changes nothing in a reachable
  state.
- The silence buffer is always 4800 samples (src/main.rs:42), whatever `block_size` is.
- A frame is whatever `readi` returned: at most `block_size` samples, the empty frame
  included (src/main.rs:108, 114-115). The model allows a frame of any length. An empty
  frame has level 0.

## Model

| member | source | states |
|---|---|---|
| `Meter.SatNeg` | src/main.rs:68 | saturating negation: -32768 maps to 32767, every other sample to its negation |
| `Meter.SatAbs` | src/main.rs:68 | the saturating absolute value is non-negative, equals the true absolute value above -32768, and is 32767 at -32768 |
| `Meter.Level` | src/main.rs:64-72 | the level is non-negative, at least the saturating absolute value of every sample, attained by some sample when the frame is non-empty, and 0 for an empty frame |
| `Meter.MinSampleSaturates` | src/main.rs:64-72 | a frame containing -32768 has level 32767 (no wrap-around) |
| `Meter.QuietFrame` | src/main.rs:64-72 | a frame whose samples stay within plus or minus a bound has level at most that bound |
| `Meter.AudioLevel` | src/main.rs:64-72 | the accumulator loop returns exactly `Level` of the buffer |
| `Activity.Capture` | src/main.rs:113-143 | the machine is ON after a step exactly when the frame is loud or it was ON with grace left; the lemmas `CaptureValid`, `CaptureConserves`, `CaptureRecords`, `LoudFrame`, `GraceFrame`, `ExpiredFrame` and `IdleFrame` state the rest of what one step does |
| `Activity.InitialValid` | src/main.rs:110-111 | the start state (OFF, counter 0, empty channels, empty log) satisfies the machine invariant |
| `Activity.CaptureValid` | src/main.rs:113-143 | one step keeps the invariant: counter at most hysteresis, counter > 0 implies ON, OFF implies an empty recording channel, and an alternating log that ends in ON exactly while ON |
| `Activity.CaptureConserves` | src/main.rs:132-141 | one step makes playback followed by recording grow by exactly the frame if the machine is ON afterwards, and by nothing otherwise |
| `Activity.CaptureRecords` | src/main.rs:140-141 | when the machine is ON after a step, the frame just read is the newest frame in the recording channel |
| `Activity.LoudFrame` | src/main.rs:119-124 | a frame above the threshold sets ON and counter to hysteresis, prints ON only if the machine was OFF, records the frame and leaves the playback channel alone |
| `Activity.GraceFrame` | src/main.rs:135-141 | a quiet frame with counter > 0 in an ON state (every valid state with counter > 0 is ON) decrements the counter by one, keeps the flag and the log, and records the frame |
| `Activity.ExpiredFrame` | src/main.rs:126-134 | a quiet frame with counter 0 sets OFF, prints OFF only if the machine was ON, appends the whole recording channel in order to the playback channel, empties it, and does not record the frame |
| `Activity.IdleFrame` | src/main.rs:126-140 | while OFF in a reachable state, a quiet frame changes nothing: it is neither recorded nor played |
| `Activity.Run` | src/main.rs:113-143 | the capture loop over a finite sequence of frames only ever appends to the printed log: the old log is a prefix of the new one |
| `Activity.RunConcat` | src/main.rs:113-143 | running two sequences of frames one after the other is running their concatenation |
| `Activity.RunValid` | src/main.rs:110-143 | every state reached by any sequence of frames from a valid state satisfies the invariant |
| `Activity.Kept` | src/main.rs:140-141 | a run keeps at most as many frames as it reads |
| `Activity.RunConserves` | src/main.rs:132-141 | over a whole run, playback followed by recording is the old contents followed by the kept frames (those after which the machine is ON) |
| `Activity.KeptIsSubsequence` | src/main.rs:140-141 | the kept frames are a subsequence of the input: frames may be dropped but are never duplicated or reordered |
| `Activity.GraceWindow` | src/main.rs:135-141 | from an ON state, quiet frames that fit in the remaining grace window all get recorded in order, keep the machine ON and only lower the counter |
| `Activity.GraceAfterLoud` | src/main.rs:119-141 | from any state, after a loud frame, exactly `hysteresis` quiet frames leave the machine ON with counter 0, everything recorded, and nothing printed beyond the ON edge |
| `Activity.Hysteresis` | src/main.rs:119-141 | the next quiet frame after those prints exactly one OFF, is not recorded, and moves the loud frame and the grace frames, after any earlier recording, onto the playback channel |
| `Activity.EventsAlternate` | src/main.rs:119-130 | from the start state the printed log reads ON, OFF, ON, ... and ends in ON exactly while the machine is ON |
| `Activity.Scenario` | src/main.rs:113-143 | threshold 1000, hysteresis 2, frames of levels 1500, 200, 200, 200: the first three frames are queued for playback in order, and the log is ON, OFF |
| `Playback.Silence` | src/main.rs:42 | the silence buffer has 4800 samples, all zero |
| `Playback.Play` | src/main.rs:47-50 | with a non-empty queue the cycle writes the front frame and leaves the tail; with an empty queue it writes 4800 zero samples and the queue stays empty |
| `Playback.PlayN` | src/main.rs:44-50 | `n` player cycles write exactly `n` buffers |
| `Playback.PlayInOrder` | src/main.rs:44-50 | `n` cycles write the first `n` queued frames in order, or the whole queue followed by one silence buffer per extra cycle; what remains is the rest of the queue |
| `Playback.PlayFromQueue` | src/main.rs:47-48 | while queued frames remain, cycle `n` writes the `n`-th queued frame and leaves the frames after it |
| `Playback.PlayFromSilence` | src/main.rs:42-50 | once the queue is used up, each further cycle writes one more silence buffer and the queue stays empty |
| `Repeater.Repeater.constructor` | src/main.rs:108-111 | the object starts in the initial state, which is valid |
| `Repeater.Repeater.Step` | src/main.rs:113-143 | the imperative step leaves the fields exactly as `Activity.Capture` says, and so keeps the invariant |
| `Repeater.Repeater.Drain` | src/main.rs:132-134 | the drain loop empties the recording channel and appends its contents, oldest first, to the playback channel |
| `Repeater.Repeater.Listen` | src/main.rs:113-143 | the capture loop over a finite sequence of frames leaves the fields exactly as `Activity.Run` says |
| `Repeater.Repeater.PlayStep` | src/main.rs:47-50 | one player cycle writes and leaves exactly what `Playback.Play` gives |
| `Repeater.Repeater.Player` | src/main.rs:44-50 | `n` player cycles write the queued frames in order, then silence |

## Left out

- ALSA device opening and hardware parameters (src/main.rs:80-98) are foreign library calls and device configuration.
- `readi` and `writei` (src/main.rs:114, 48-49) are device I/O. A read is an arbitrary input frame; a write is the frame a method returns.
- A read error ends the capture loop and the program (`?` at src/main.rs:114). A write error gets one `try_recover` (src/main.rs:56). If that succeeds, the frame whose write failed is not written again; if it fails, the player thread ends. A short write is not completed (src/main.rs:54). The model has no read or write errors, and every player cycle writes its whole frame, so `Playback.PlayInOrder` speaks of the frames the player hands to `writei`, not of what reaches the device.
- Command-line parsing with `argh` (src/main.rs:9-37, 75) is outside the core. `threshold` and `hysteresis` are constructor parameters. `block_size` only sizes the read buffer, so the model ignores it: frames have any length.
- The player thread and the two unbounded crossbeam channels (src/main.rs:77-78, 100-104) are modelled as two sequences updated by sequential steps. Interleaving of the two loops, liveness, and unbounded growth are not modelled.
- `s.send(buf)?` fails once the player thread has exited and dropped its receiver, and that failure ends the capture loop (src/main.rs:133). The model never disconnects a channel, because that depends on the player thread dying concurrently. `s2.send` cannot fail, since `main` holds `r2`.
- Repeater.Repeater.Player: describes `n` player cycles with no frame arriving from the capture side in between, not an interleaving with `Step`.
- Repeater.Repeater.Listen: covers a finite prefix of the infinite capture loop.
- `println!` and `eprintln!` output is reduced to the log of `On`/`Off` events; the `recovered` note and error text are not modelled.
