/**
 * The top-level monitoring loop (Main.py lines 99-156): one observation per
 * camera frame feeds the sadness timer; a trigger runs a conversation episode
 * and then resets the timer.
 *
 * The camera is the sequence `frames` (a failed `read()` is its end) and the
 * microphone is the sequence `speech`, consumed across episodes.
 */
module MainLoop {
  import opened Options
  import opened SadnessTimer
  import opened ChatRetry
  import opened Conversation

  /** Why the loop stopped: no more frames, an escaped chat exception, or an episode still listening. */
  datatype LoopEnd = FramesEnded | EpisodeCrashed | EpisodeUnfinished

  /**
   * One conversation episode as it happened: how it ended, how many utterances
   * it consumed, what the session had sent after it, and what it forwarded,
   * spoke and did with each forwarded text.
   */
  datatype Episode = Episode(end: EpisodeEnd, heard: nat, sent: seq<string>,
                             forwarded: seq<string>, spoken: seq<string>, runs: seq<RetryRun>)

  /** The utterances consumed by a sequence of episodes, which take turns on the microphone. */
  function HeardBy(log: seq<Episode>): nat
    decreases |log|
  {
    if log == [] then 0 else HeardBy(log[..|log| - 1]) + log[|log| - 1].heard
  }

  /** What the session has sent after a sequence of episodes, starting from `sent0`. */
  function SentAfter(sent0: seq<string>, log: seq<Episode>): seq<string> {
    if log == [] then sent0 else log[|log| - 1].sent
  }

  /**
   * The episodes ran one after another on the same session and microphone:
   * each one is an `EpisodeOutcome` on the utterances left by the episodes
   * before it, starting from what the session had sent by then, and every
   * episode but the last ended on a stop request.
   */
  ghost predicate EpisodesFollow(respond: nat -> Outcome, sent0: seq<string>, speech: seq<Option<string>>,
                                 log: seq<Episode>)
    decreases |log|
  {
    log != [] ==>
      var before, e := log[..|log| - 1], log[|log| - 1];
      && EpisodesFollow(respond, sent0, speech, before)
      && (before != [] ==> before[|before| - 1].end == Stopped)
      && HeardBy(before) <= |speech|
      && EpisodeOutcome(respond, SentAfter(sent0, before), e.sent, speech[HeardBy(before)..],
                        e.end, e.heard, e.forwarded, e.spoken, e.runs)
  }

  /**
   * The episodes in `log` ran one after another from the start of `speech`
   * and from a session that had sent `sent0`: together they consumed `heard`
   * utterances and left the session having sent `sent`.
   */
  ghost predicate Ran(respond: nat -> Outcome, sent0: seq<string>, sent: seq<string>,
                      speech: seq<Option<string>>, heard: nat, log: seq<Episode>)
  {
    && heard == HeardBy(log) <= |speech|
    && sent == SentAfter(sent0, log)
    && EpisodesFollow(respond, sent0, speech, log)
  }

  /** One more episode, on what the earlier ones left, extends the log. */
  lemma EpisodesAppend(respond: nat -> Outcome, sent0: seq<string>, speech: seq<Option<string>>,
                       log: seq<Episode>, e: Episode)
    requires EpisodesFollow(respond, sent0, speech, log)
    requires log != [] ==> log[|log| - 1].end == Stopped
    requires HeardBy(log) <= |speech|
    requires EpisodeOutcome(respond, SentAfter(sent0, log), e.sent, speech[HeardBy(log)..],
                            e.end, e.heard, e.forwarded, e.spoken, e.runs)
    ensures EpisodesFollow(respond, sent0, speech, log + [e])
    ensures HeardBy(log + [e]) == HeardBy(log) + e.heard && SentAfter(sent0, log + [e]) == e.sent
  {
    assert (log + [e])[..|log|] == log;
  }

  /**
   * Lines 127-137 run from the monitoring loop: one episode on the utterances
   * not yet heard, recorded at the end of the log.
   */
  method Talk(session: ChatSession, speech: seq<Option<string>>, heard: nat, ghost sent0: seq<string>,
              ghost log: seq<Episode>)
    returns (episode: EpisodeEnd, heard': nat, ghost log': seq<Episode>)
    requires Ran(session.respond, sent0, session.sent, speech, heard, log)
    requires log != [] ==> log[|log| - 1].end == Stopped
    modifies session
    ensures |log'| == |log| + 1 && log'[|log|].end == episode
    ensures Ran(session.respond, sent0, session.sent, speech, heard', log')
  {
    var used, forwarded, spoken;
    ghost var runs;
    episode, used, forwarded, spoken, runs := Converse(session, speech[heard..]);
    ghost var e := Episode(episode, used, session.sent, forwarded, spoken, runs);
    EpisodesAppend(session.respond, sent0, speech, log, e);
    log' := log + [e];
    heard' := heard + used;
  }

  /**
   * One pass of the loop of lines 99-156 on the frame `frames[processed]`: the
   * tracker sees it, and when it fires an episode runs on the utterances not
   * yet heard. `stop` says why the loop must end after this frame, if it must:
   * the episode crashed, or it was still listening when the utterances ran
   * out; otherwise the timer is reset after the episode.
   */
  method Frame(tracker: Tracker, session: ChatSession, frames: seq<Observation>, speech: seq<Option<string>>,
               processed: nat, episodes: nat, heard: nat, ghost start: nat, ghost sent0: seq<string>,
               ghost log: seq<Episode>)
    returns (stop: Option<LoopEnd>, episodes': nat, heard': nat, ghost log': seq<Episode>)
    requires processed < |frames|
    requires tracker.sadTicks == Final(tracker.threshold, start, frames[..processed])
    requires episodes == |log| == FireCount(tracker.threshold, start, frames[..processed])
    requires Ran(session.respond, sent0, session.sent, speech, heard, log)
    requires log != [] ==> log[|log| - 1].end == Stopped
    modifies tracker, session
    ensures episodes' == |log'| == FireCount(tracker.threshold, start, frames[..processed + 1])
    ensures Ran(session.respond, sent0, session.sent, speech, heard', log')
    ensures stop == None ==>
      && tracker.sadTicks == Final(tracker.threshold, start, frames[..processed + 1])
      && (log' != [] ==> log'[|log'| - 1].end == Stopped)
    ensures stop != Some(FramesEnded)
    ensures stop == Some(EpisodeCrashed) <==> log' != [] && log'[|log'| - 1].end == Crashed
    ensures stop == Some(EpisodeUnfinished) <==> log' != [] && log'[|log'| - 1].end == StillListening
    ensures stop != None ==> FiresLast(tracker.threshold, start, frames[..processed + 1])
  {
    var threshold := tracker.threshold;
    var now := frames[..processed + 1];
    assert now[..processed] == frames[..processed];
    var fired := tracker.Observe(frames[processed]);
    assert fired == FiresLast(threshold, start, now);
    stop, episodes', heard', log' := None, episodes, heard, log;
    if fired {
      episodes' := episodes + 1;
      assert episodes' == FireCount(threshold, start, now);
      var episode;
      episode, heard', log' := Talk(session, speech, heard, sent0, log);
      if episode == Crashed {
        stop := Some(EpisodeCrashed);
      } else if episode == StillListening {
        stop := Some(EpisodeUnfinished);
      } else {
        tracker.Reset();
      }
    }
  }

  /**
   * The `while True` loop of lines 99-156 over the frames `frames`. Each frame
   * goes to the tracker; a trigger runs `Converse` on the utterances not yet
   * heard and then resets the timer. The loop ends when the frames run out,
   * or early when an episode crashed or was still listening when the
   * utterances ran out. `log` records the episodes in order.
   */
  method MonitorLoop(tracker: Tracker, session: ChatSession, frames: seq<Observation>, speech: seq<Option<string>>)
    returns (end: LoopEnd, processed: nat, episodes: nat, heard: nat, ghost log: seq<Episode>)
    modifies tracker, session
    ensures processed <= |frames|
    ensures episodes == |log| == FireCount(tracker.threshold, old(tracker.sadTicks), frames[..processed])
    ensures Ran(session.respond, old(session.sent), session.sent, speech, heard, log)
    ensures end == FramesEnded ==>
      && processed == |frames| && tracker.sadTicks == Final(tracker.threshold, old(tracker.sadTicks), frames)
      && (log != [] ==> log[|log| - 1].end == Stopped)
    ensures end == EpisodeCrashed <==> log != [] && log[|log| - 1].end == Crashed
    ensures end == EpisodeUnfinished <==> log != [] && log[|log| - 1].end == StillListening
    ensures end != FramesEnded ==>
      processed >= 1 && FiresLast(tracker.threshold, old(tracker.sadTicks), frames[..processed])
  {
    ghost var start := tracker.sadTicks;
    ghost var sent0 := session.sent;
    processed, episodes, heard, log := 0, 0, 0, [];
    while processed < |frames|
      invariant processed <= |frames|
      invariant tracker.sadTicks == Final(tracker.threshold, start, frames[..processed])
      invariant episodes == |log| == FireCount(tracker.threshold, start, frames[..processed])
      invariant Ran(session.respond, sent0, session.sent, speech, heard, log)
      invariant log != [] ==> log[|log| - 1].end == Stopped
    {
      var stop;
      stop, episodes, heard, log := Frame(tracker, session, frames, speech, processed, episodes, heard, start, sent0, log);
      processed := processed + 1;
      if stop.Some? {
        end := stop.value;
        return;
      }
    }
    assert frames[..processed] == frames;
    end := FramesEnded;
  }
}
