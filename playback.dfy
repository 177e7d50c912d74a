/** The player loop: take the next queued frame without blocking, or fall back to silence. */
module Playback {
  import opened Meter

  /** Length of the silence buffer, fixed whatever the configured block size. */
  const SilenceLength: nat := 4800

  /** The all-zero buffer written when nothing is queued. */
  function Silence(): (z: Frame)
    ensures |z| == SilenceLength && forall i :: 0 <= i < |z| ==> z[i] == 0
  {
    seq(SilenceLength, _ => 0)
  }

  /** What one player cycle does: the frame it writes and the queue it leaves behind. */
  datatype Cycle = Cycle(written: Frame, rest: seq<Frame>)

  /** One player cycle on the playback queue. */
  function Play(queue: seq<Frame>): (r: Cycle)
    ensures queue != [] ==> [r.written] + r.rest == queue
    ensures queue == [] ==> r.rest == [] && |r.written| == SilenceLength
                            && forall i :: 0 <= i < |r.written| ==> r.written[i] == 0
  {
    if queue != [] then Cycle(queue[0], queue[1..]) else Cycle(Silence(), [])
  }

  /** `n` player cycles with no frame arriving: everything written, and the queue left behind. */
  function PlayN(queue: seq<Frame>, n: nat): (r: (seq<Frame>, seq<Frame>))
    ensures |r.0| == n
  {
    if n == 0 then ([], queue)
    else
      var (written, rest) := PlayN(queue, n - 1);
      var cycle := Play(rest);
      (written + [cycle.written], cycle.rest)
  }

  /** `k` copies of the silence buffer. */
  function Silences(k: nat): (r: seq<Frame>)
    ensures |r| == k && forall i :: 0 <= i < k ==> r[i] == Silence()
  {
    seq(k, _ => Silence())
  }

  /**
   * The player hands the queued frames to the output in enqueue order, none dropped or
   * repeated, and then one silence buffer per further cycle.
   */
  lemma {:induction false} PlayInOrder(queue: seq<Frame>, n: nat)
    ensures PlayN(queue, n).0 == if n <= |queue| then queue[..n] else queue + Silences(n - |queue|)
    ensures PlayN(queue, n).1 == if n <= |queue| then queue[n..] else []
  {
    if n > 0 {
      PlayInOrder(queue, n - 1);
      if n <= |queue| {
        PlayFromQueue(queue, n);
      } else {
        if n - 1 == |queue| {
          assert queue[..n - 1] == queue + Silences(0);
        }
        PlayFromSilence(queue, n);
      }
    }
  }

  /** While frames remain, cycle `n` writes frame `n - 1` of the queue. */
  lemma PlayFromQueue(queue: seq<Frame>, n: nat)
    requires 0 < n <= |queue|
    requires PlayN(queue, n - 1) == (queue[..n - 1], queue[n - 1..])
    ensures PlayN(queue, n) == (queue[..n], queue[n..])
  {
    assert queue[n - 1..][0] == queue[n - 1];
    assert queue[..n - 1] + [queue[n - 1]] == queue[..n];
    assert queue[n - 1..][1..] == queue[n..];
  }

  /** Once the queue is used up, every further cycle writes one silence buffer. */
  lemma PlayFromSilence(queue: seq<Frame>, n: nat)
    requires n > |queue|
    requires PlayN(queue, n - 1) == (queue + Silences(n - 1 - |queue|), [])
    ensures PlayN(queue, n) == (queue + Silences(n - |queue|), [])
  {
    assert queue + Silences(n - 1 - |queue|) + [Silence()] == queue + Silences(n - |queue|);
  }
}
