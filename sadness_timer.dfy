/**
 * The sadness timer of the monitoring loop (Main.py lines 96-97, 107-145).
 *
 * The source keeps `emotion_timer['sad']` as a float that grows by 0.5 per
 * frame; here it is a count of half-second ticks, so the timer in seconds is
 * `sadTicks / 2` and is a non-negative multiple of 0.5 by construction.
 */
module SadnessTimer {

  /** What one camera frame tells the tracker: no emotion detected, or the dominant label. */
  datatype Observation = NoFace | Label(name: string)

  /** The label that makes the timer grow (compared exactly, as in the source). */
  const SadLabel: string := "sad"

  /** `emotion_threshold` of the running program, in seconds. */
  const EmotionThreshold: int := 1

  /** Seconds represented by a number of half-second ticks. */
  function Seconds(ticks: nat): real {
    ticks as real / 2.0
  }

  /**
   * The comparison `emotion_timer['sad'] >= emotion_threshold`: a timer of
   * `ticks` half-seconds reaches a whole-second threshold exactly when it has
   * at least twice as many ticks.
   */
  predicate Reached(ticks: nat, threshold: int): (b: bool)
    ensures b <==> ticks >= 2 * threshold
  {
    Seconds(ticks) >= threshold as real
  }

  /** The number of consecutive sad frames that fire the trigger from a zero timer. */
  function FramesToFire(threshold: int): (n: nat)
    ensures n >= 1 && Reached(n, threshold)
    ensures forall t: nat :: 1 <= t < n ==> !Reached(t, threshold)
  {
    if threshold <= 0 then 1 else 2 * threshold
  }

  /** Once at least one tick has been added, reaching the threshold is counting frames. */
  lemma ReachedIff(t: nat, threshold: int)
    requires t >= 1
    ensures Reached(t, threshold) <==> t >= FramesToFire(threshold)
  {
  }

  /** The sad run after one more frame: a frame without a face does not interrupt it. */
  function ExtendRun(run: nat, obs: Observation): nat {
    match obs
    case NoFace => run
    case Label(name) => if name == SadLabel then run + 1 else 0
  }

  /** The outcome of one frame: the timer afterwards and whether a conversation was started. */
  datatype FrameResult = FrameResult(ticks: nat, fired: bool)

  /**
   * The whole effect of one frame on the timer. A trigger starts a conversation
   * episode, which leaves the timer alone, and is followed by the reset to 0.
   */
  function Step(ticks: nat, threshold: int, obs: Observation): (r: FrameResult)
    ensures r.fired <==> obs == Label(SadLabel) && Reached(ticks + 1, threshold)
    ensures r.ticks == if r.fired then 0 else ExtendRun(ticks, obs)
    ensures ticks < FramesToFire(threshold) ==> r.ticks < FramesToFire(threshold)
  {
    match obs
    case NoFace => FrameResult(ticks, false)
    case Label(name) =>
      if name != SadLabel then FrameResult(0, false)
      else if Reached(ticks + 1, threshold) then FrameResult(0, true)
      else FrameResult(ticks + 1, false)
  }

  /** The timer after a sequence of frames, starting from `start` ticks. */
  function Final(threshold: int, start: nat, frames: seq<Observation>): nat
    decreases |frames|
  {
    if frames == [] then start
    else Step(Final(threshold, start, frames[..|frames| - 1]), threshold, frames[|frames| - 1]).ticks
  }

  /** Whether the last of a non-empty sequence of frames started a conversation. */
  predicate FiresLast(threshold: int, start: nat, frames: seq<Observation>) {
    frames != [] &&
    Step(Final(threshold, start, frames[..|frames| - 1]), threshold, frames[|frames| - 1]).fired
  }

  /** For each frame, whether it started a conversation. */
  function Fires(threshold: int, start: nat, frames: seq<Observation>): seq<bool> {
    seq(|frames|, i requires 0 <= i < |frames| => FiresLast(threshold, start, frames[..i + 1]))
  }

  /** How many conversations a sequence of frames starts. */
  function FireCount(threshold: int, start: nat, frames: seq<Observation>): nat
    decreases |frames|
  {
    if frames == [] then 0
    else FireCount(threshold, start, frames[..|frames| - 1])
         + (if FiresLast(threshold, start, frames) then 1 else 0)
  }

  /**
   * Reference definition: the number of `'sad'` labels since the last other
   * label; frames without a detected face do not interrupt the run.
   */
  function SadRun(frames: seq<Observation>): nat
    decreases |frames|
  {
    if frames == [] then 0
    else ExtendRun(SadRun(frames[..|frames| - 1]), frames[|frames| - 1])
  }

  lemma MulAtLeast(d: int, n: nat)
    requires d >= 1
    ensures d * n >= n
  {
    var e := d - 1;
    assert d * n == e * n + n;
    assert e * n >= 0;
  }

  /** Division with remainder is unique. */
  lemma DivModUnique(x: int, n: int, q: int, r: int)
    requires n > 0 && 0 <= r < n && x == q * n + r
    ensures x / n == q && x % n == r
  {
    var q2, r2 := x / n, x % n;
    assert x == q2 * n + r2;
    assert (q - q2) * n == q * n - q2 * n;
    if q > q2 {
      MulAtLeast(q - q2, n);
    } else if q < q2 {
      MulAtLeast(q2 - q, n);
    }
  }

  lemma ModSucc(a: nat, n: nat)
    requires n >= 1
    ensures (a + 1) % n == if a % n + 1 == n then 0 else a % n + 1
    ensures (a + 1) / n == if a % n + 1 == n then a / n + 1 else a / n
  {
    var q, r := a / n, a % n;
    if r + 1 == n {
      DivModUnique(a + 1, n, q + 1, 0);
    } else {
      DivModUnique(a + 1, n, q, r + 1);
    }
  }

  /** One frame keeps the timer equal to the sad run modulo the frames needed to fire. */
  lemma StepTracksSadRun(threshold: int, run: nat, obs: Observation)
    ensures var r := Step(run % FramesToFire(threshold), threshold, obs);
      && r.ticks == ExtendRun(run, obs) % FramesToFire(threshold)
      && (r.fired <==> obs == Label(SadLabel) && ExtendRun(run, obs) % FramesToFire(threshold) == 0)
  {
    var n := FramesToFire(threshold);
    match obs
    case NoFace =>
    case Label(name) =>
      if name == SadLabel {
        ReachedIff(run % n + 1, threshold);
        ModSucc(run, n);
      }
  }

  /**
   * From a zero timer, the timer holds the length of the current sad run
   * modulo the frames needed to fire, and a frame fires exactly when it is a
   * `'sad'` frame that completes a multiple of that many.
   */
  lemma {:induction false} TimerCountsSadRun(threshold: int, frames: seq<Observation>)
    ensures Final(threshold, 0, frames) == SadRun(frames) % FramesToFire(threshold)
    ensures frames != [] ==>
      (FiresLast(threshold, 0, frames) <==>
         frames[|frames| - 1] == Label(SadLabel) && SadRun(frames) % FramesToFire(threshold) == 0)
  {
    if frames != [] {
      var before, last := frames[..|frames| - 1], frames[|frames| - 1];
      TimerCountsSadRun(threshold, before);
      StepTracksSadRun(threshold, SadRun(before), last);
      assert Final(threshold, 0, frames) == Step(Final(threshold, 0, before), threshold, last).ticks;
      assert SadRun(frames) == ExtendRun(SadRun(before), last);
    } else {
      DivModUnique(0, FramesToFire(threshold), 0, 0);
    }
  }

  /** Between frames the timer stays below `FramesToFire` (below the threshold in seconds when it is positive): reaching it fires and resets. */
  lemma TimerStaysBelowThreshold(threshold: int, frames: seq<Observation>)
    ensures Final(threshold, 0, frames) < FramesToFire(threshold)
    ensures threshold > 0 ==> !Reached(Final(threshold, 0, frames), threshold)
  {
    TimerCountsSadRun(threshold, frames);
    var t := Final(threshold, 0, frames);
    if t >= 1 {
      ReachedIff(t, threshold);
    }
  }

  /**
   * After a trigger the timer is 0, so the next trigger needs a full run of
   * `FramesToFire(threshold)` sad frames with no other label in between.
   */
  lemma RetriggerNeedsFullRun(threshold: int, frames: seq<Observation>)
    requires FiresLast(threshold, 0, frames)
    ensures SadRun(frames) >= FramesToFire(threshold)
  {
    TimerCountsSadRun(threshold, frames);
    var run, n := SadRun(frames), FramesToFire(threshold);
    assert run == ExtendRun(SadRun(frames[..|frames| - 1]), frames[|frames| - 1]) >= 1;
    if run < n {
      DivModUnique(run, n, 0, run);
    }
  }

  /** A run of `k` sad frames. */
  function SadFrames(k: nat): (frames: seq<Observation>)
    ensures |frames| == k && forall i :: 0 <= i < k ==> frames[i] == Label(SadLabel)
  {
    seq(k, i => Label(SadLabel))
  }

  /**
   * A run of `k` sad frames from a zero timer starts `k / FramesToFire`
   * conversations: one every time the run grows by another full threshold.
   */
  lemma {:induction false} SadRunFiresRepeatedly(threshold: int, k: nat)
    ensures Final(threshold, 0, SadFrames(k)) == k % FramesToFire(threshold)
    ensures FireCount(threshold, 0, SadFrames(k)) == k / FramesToFire(threshold)
  {
    var n := FramesToFire(threshold);
    if k > 0 {
      var frames := SadFrames(k);
      assert frames[..k - 1] == SadFrames(k - 1);
      SadRunFiresRepeatedly(threshold, k - 1);
      ModSucc(k - 1, n);
      ReachedIff((k - 1) % n + 1, threshold);
    }
  }

  /** With a one-second threshold, two sad frames fire on the second. */
  lemma TwoSadFramesFire()
    ensures Fires(EmotionThreshold, 0, [Label("sad"), Label("sad")]) == [false, true]
  {
    var frames := [Label("sad"), Label("sad")];
    assert frames[..1][..0] == [] && frames[..2][..1] == frames[..1];
    assert Final(EmotionThreshold, 0, frames[..1]) == 1;
  }

  /** With a one-second threshold, another label between two sad frames prevents a trigger. */
  lemma InterruptedSadnessNeverFires()
    ensures Fires(EmotionThreshold, 0, [Label("sad"), Label("neutral"), Label("sad")]) == [false, false, false]
  {
    var frames := [Label("sad"), Label("neutral"), Label("sad")];
    assert frames[..1][..0] == [] && frames[..2][..1] == frames[..1] && frames[..3][..2] == frames[..2];
    assert Final(EmotionThreshold, 0, frames[..1]) == 1;
    assert "neutral" != SadLabel;
    assert Final(EmotionThreshold, 0, frames[..2]) == 0;
  }

  /**
   * `emotion_timer['sad']`, updated once per camera frame, as half-second
   * ticks. `threshold` is `emotion_threshold` in seconds.
   */
  class Tracker {
    const threshold: int
    var sadTicks: nat

    /**
     * Between frames the timer is below `FramesToFire`, which for a positive
     * threshold means below the threshold in seconds: a frame that reaches it fires.
     */
    ghost predicate Armed()
      reads this
    {
      sadTicks < FramesToFire(threshold)
    }

    /** `emotion_timer = {'sad': 0}` with `emotion_threshold` given. */
    constructor (threshold: int)
      ensures this.threshold == threshold && sadTicks == 0 && Armed()
    {
      this.threshold := threshold;
      sadTicks := 0;
    }

    /**
     * One frame of the monitoring loop, up to the conversation: no face leaves
     * the timer alone, `'sad'` adds half a second and fires once the threshold
     * is reached, any other label resets the timer.
     */
    method Observe(obs: Observation) returns (fired: bool)
      modifies this
      ensures obs == NoFace ==> sadTicks == old(sadTicks) && !fired
      ensures obs.Label? && obs.name == SadLabel ==>
        Seconds(sadTicks) == Seconds(old(sadTicks)) + 0.5 && fired == Reached(sadTicks, threshold)
      ensures obs.Label? && obs.name != SadLabel ==> sadTicks == 0 && !fired
      ensures var r := Step(old(sadTicks), threshold, obs);
        fired == r.fired && (!fired ==> sadTicks == r.ticks)
      ensures old(Armed()) && !fired ==> Armed()
    {
      fired := false;
      if obs.Label? {
        if obs.name == SadLabel {
          sadTicks := sadTicks + 1;
          fired := Reached(sadTicks, threshold);
        } else {
          sadTicks := 0;
        }
      }
      if !fired && sadTicks >= 1 {
        ReachedIff(sadTicks, threshold);
      }
    }

    /** The reset that follows a conversation episode. */
    method Reset()
      modifies this
      ensures sadTicks == 0 && Armed()
    {
      sadTicks := 0;
    }
  }
}
