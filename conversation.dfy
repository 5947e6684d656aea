/**
 * The conversation episode (Main.py lines 127-137): each recognised utterance
 * is either ignored, ends the episode when it asks to stop, or is sent to the
 * chat model through `send_message_with_retry` and the reply is spoken.
 */
module Conversation {
  import opened Options
  import opened ChatRetry

  /** ASCII lower-casing of one character, which agrees with Python's `str.lower()` on the letters of "stop". */
  function LowerChar(c: char): char {
    if 'A' <= c <= 'Z' then (c as int - 'A' as int + 'a' as int) as char else c
  }

  function Lower(s: string): (r: string)
    ensures |r| == |s| && forall i :: 0 <= i < |s| ==> r[i] == LowerChar(s[i])
  {
    seq(|s|, i requires 0 <= i < |s| => LowerChar(s[i]))
  }

  /** `sub` occurs in `s` starting at index `i`. */
  predicate OccursAt(s: string, sub: string, i: int) {
    0 <= i <= |s| - |sub| && s[i..i + |sub|] == sub
  }

  /** Python's `sub in s`: `sub` occurs in `s` as a contiguous substring. */
  predicate Contains(s: string, sub: string) {
    exists i | 0 <= i <= |s| - |sub| :: OccursAt(s, sub, i)
  }

  const StopWord: string := "stop"

  /** The four characters from `i` on spell "stop" in any mix of upper and lower case. */
  predicate StopAt(text: string, i: int) {
    && 0 <= i <= |text| - 4
    && text[i] in "sS" && text[i + 1] in "tT" && text[i + 2] in "oO" && text[i + 3] in "pP"
  }

  /** Lower-casing yields "stop" at `i` exactly where the text spells it in any case. */
  lemma LowerStopAt(text: string, i: int)
    requires 0 <= i <= |text| - |StopWord|
    ensures OccursAt(Lower(text), StopWord, i) <==> StopAt(text, i)
  {
    var l := Lower(text);
    if StopAt(text, i) {
      assert l[i..i + 4] == StopWord;
    }
    if OccursAt(l, StopWord, i) {
      assert l[i] == l[i..i + 4][0] == 's';
      assert l[i + 1] == l[i..i + 4][1] == 't';
      assert l[i + 2] == l[i..i + 4][2] == 'o';
      assert l[i + 3] == l[i..i + 4][3] == 'p';
    }
  }

  /** The lower-cased text contains "stop" exactly where the text spells it in any case. */
  lemma LowerContainsStop(text: string)
    ensures Contains(Lower(text), StopWord) <==> exists i | 0 <= i <= |text| - 4 :: StopAt(text, i)
  {
    forall i | 0 <= i <= |text| - |StopWord|
      ensures OccursAt(Lower(text), StopWord, i) <==> StopAt(text, i)
    {
      LowerStopAt(text, i);
    }
  }

  /**
   * `"stop" in text.lower()`: some four consecutive characters of the text
   * spell "stop", each letter in either case.
   */
  predicate IsStopRequest(text: string): (b: bool)
    ensures b <==> exists i | 0 <= i <= |text| - 4 :: StopAt(text, i)
  {
    LowerContainsStop(text);
    Contains(Lower(text), StopWord)
  }

  lemma LowerAppend(a: string, b: string)
    ensures Lower(a + b) == Lower(a) + Lower(b)
  {
    assert forall i :: 0 <= i < |a + b| ==> Lower(a + b)[i] == (Lower(a) + Lower(b))[i];
  }

  /** The stop word is found in any letter case, anywhere in the utterance, even inside a longer word. */
  lemma StopAnywhere(before: string, word: string, after: string)
    requires Lower(word) == StopWord
    ensures IsStopRequest(before + word + after)
  {
    LowerAppend(before + word, after);
    LowerAppend(before, word);
    var l := Lower(before + word + after);
    assert OccursAt(l, StopWord, |before|);
  }

  /** Lower-casing twice changes nothing more. */
  lemma LowerIdempotent(s: string)
    ensures Lower(Lower(s)) == Lower(s)
  {
    assert forall i :: 0 <= i < |s| ==> Lower(Lower(s))[i] == Lower(s)[i];
  }

  /** The test ignores case: an utterance and its lower-cased form agree. */
  lemma StopIgnoresCase(text: string)
    ensures IsStopRequest(Lower(text)) <==> IsStopRequest(text)
  {
    LowerIdempotent(text);
  }

  /** An utterance without the stop word is forwarded. */
  lemma SadUtteranceIsForwarded()
    ensures !IsStopRequest("I feel sad")
  {
    var l := Lower("I feel sad");
    assert l == "i feel sad";
    forall i | 0 <= i <= |l| - |StopWord|
      ensures !OccursAt(l, StopWord, i)
    {
      assert l[i] != 's';
    }
  }

  /** "Please STOP now" ends the episode; "unstoppable" does too, since the test is a substring test. */
  lemma StopExamples()
    ensures IsStopRequest("Please STOP now")
    ensures IsStopRequest("unstoppable")
  {
    assert StopAt("Please STOP now", 7);
    assert StopAt("unstoppable", 2);
  }

  /** What one recognised utterance leads to. */
  datatype TurnAction = KeepListening | EndEpisode | Forward(text: string)

  /**
   * The rule of one turn: `None` (and the empty string, which Python treats
   * as false) sends nothing, a stop request ends the episode, and any other
   * text is forwarded unchanged.
   */
  function DecideTurn(heard: Option<string>): (a: TurnAction)
    ensures a == KeepListening <==> heard == None || heard == Some("")
    ensures a == EndEpisode <==> heard.Some? && IsStopRequest(heard.value)
    ensures a.Forward? <==> heard.Some? && heard.value != "" && !IsStopRequest(heard.value)
    ensures a.Forward? ==> heard == Some(a.text)
  {
    match heard
    case None => KeepListening
    case Some(text) =>
      if text != "" && IsStopRequest(text) then EndEpisode
      else if text != "" then Forward(text)
      else KeepListening
  }

  /** The text one utterance forwards, if any. */
  function ForwardedBy(utterance: Option<string>): seq<string> {
    match DecideTurn(utterance)
    case Forward(text) => [text]
    case _ => []
  }

  /** The texts a sequence of utterances forwards to the chat model, one per forwarding turn. */
  function Forwarded(heard: seq<Option<string>>): seq<string>
    decreases |heard|
  {
    if heard == [] then []
    else Forwarded(heard[..|heard| - 1]) + ForwardedBy(heard[|heard| - 1])
  }

  /** Forwarding follows the order of the utterances: it distributes over concatenation. */
  lemma {:induction false} ForwardedAppend(a: seq<Option<string>>, b: seq<Option<string>>)
    ensures Forwarded(a + b) == Forwarded(a) + Forwarded(b)
    decreases |b|
  {
    if b == [] {
      assert a + b == a;
    } else {
      var b' := b[..|b| - 1];
      assert (a + b)[..|a + b| - 1] == a + b';
      assert (a + b)[|a + b| - 1] == b[|b| - 1];
      ForwardedAppend(a, b');
    }
  }

  /** Every forwarded text was heard, is non-empty and is not a stop request. */
  lemma {:induction false} ForwardedAreMessages(heard: seq<Option<string>>)
    ensures |Forwarded(heard)| <= |heard|
    ensures forall t :: t in Forwarded(heard) ==> Some(t) in heard && t != "" && !IsStopRequest(t)
    decreases |heard|
  {
    if heard != [] {
      var before := heard[..|heard| - 1];
      ForwardedAreMessages(before);
      assert forall x :: x in before ==> x in heard;
    }
  }

  /** How an episode ends: the user said stop, an exception escaped, or the microphone script ran out. */
  datatype EpisodeEnd = Stopped | Crashed | StillListening

  /** Spoken when the user asks to stop. */
  const Farewell: string := "Okay, I'm here if you need to talk again."

  /**
   * The session's side of an episode so far: it has sent `sent0` followed by
   * what the retry wrapper sent for each forwarded text, each run followed the
   * session's outcomes in order, and each answered text's reply was spoken.
   */
  ghost predicate Answered(respond: nat -> Outcome, sent0: seq<string>, sent: seq<string>,
                           forwarded: seq<string>, spoken: seq<string>, runs: seq<RetryRun>)
  {
    && |spoken| == |forwarded| == |runs|
    && sent == sent0 + SentTexts(forwarded, runs)
    && CallsFollowScript(respond, |sent0|, forwarded, runs)
    && forall i :: 0 <= i < |runs| ==> runs[i].result == Returned(Some(spoken[i]))
  }

  /**
   * Line 136, `send_message_with_retry(chat_session, text)` with the default
   * retry settings, followed by speaking the reply: the next of the episode's
   * wrapped calls. A reply is appended to `spoken`; an escaped exception is not.
   */
  method ForwardTurn(session: ChatSession, text: string, ghost sent0: seq<string>,
                     ghost forwarded: seq<string>, spoken: seq<string>, ghost runs: seq<RetryRun>)
    returns (reply: CallResult, spoken': seq<string>, ghost run: RetryRun)
    requires Answered(session.respond, sent0, session.sent, forwarded, spoken, runs)
    modifies session
    ensures reply == run.result && reply != Returned(None)
    ensures reply.Returned? ==>
      Answered(session.respond, sent0, session.sent, forwarded + [text], spoken', runs + [run])
    ensures reply == Raised ==>
      && spoken' == spoken
      && session.sent == sent0 + SentTexts(forwarded + [text], runs + [run])
      && CallsFollowScript(session.respond, |sent0|, forwarded + [text], runs + [run])
  {
    var attempts, waits, slept;
    reply, attempts, waits, slept := SendMessageWithRetry(session, text, DefaultMaxRetries, DefaultRetryDelay);
    run := RetryRun(reply, attempts, waits);
    CallsFollowAppend(session.respond, |sent0|, forwarded, runs, text, run);
    spoken' := spoken;
    match reply
    case Returned(Some(answer)) =>
      spoken' := spoken + [answer];
    case Returned(None) =>
      assert false;
    case Raised =>
  }

  /**
   * The first `heard` utterances were consumed without a stop request and
   * forwarded `forwarded`.
   */
  ghost predicate Consumed(speech: seq<Option<string>>, heard: nat, forwarded: seq<string>) {
    && heard <= |speech|
    && (forall i :: 0 <= i < heard ==> DecideTurn(speech[i]) != EndEpisode)
    && forwarded == Forwarded(speech[..heard])
  }

  /**
   * What an episode that consumed `heard` of the utterances `speech` did,
   * with the session having sent `sent0` before it and `sent` after it:
   * - the utterances before the last consumed one were not stop requests;
   * - it ended on a stop request with the farewell spoken last, on an
   *   exception escaping the call for the last forwarded text, or with every
   *   utterance consumed and no stop request among them;
   * - `forwarded` are the texts `DecideTurn` forwards from the consumed
   *   utterances, in order, and `runs[i]` is what the retry wrapper did with
   *   `forwarded[i]`, following the session's outcomes in order;
   * - the session sent exactly each forwarded text once per attempt;
   * - only the last run can have raised, and it did exactly when the episode
   *   crashed; every other run returned the reply spoken for its text.
   */
  ghost predicate EpisodeOutcome(respond: nat -> Outcome, sent0: seq<string>, sent: seq<string>,
                                 speech: seq<Option<string>>, end: EpisodeEnd, heard: nat,
                                 forwarded: seq<string>, spoken: seq<string>, runs: seq<RetryRun>)
  {
    && heard <= |speech|
    && (forall i :: 0 <= i < heard - 1 ==> DecideTurn(speech[i]) != EndEpisode)
    && (end == Stopped ==>
         heard >= 1 && DecideTurn(speech[heard - 1]) == EndEpisode && |spoken| == |forwarded| + 1
         && spoken[|forwarded|] == Farewell)
    && (end == Crashed ==> heard >= 1 && DecideTurn(speech[heard - 1]).Forward? && |spoken| == |forwarded| - 1)
    && (end == StillListening ==>
         heard == |speech| && (heard >= 1 ==> DecideTurn(speech[heard - 1]) != EndEpisode)
         && |spoken| == |forwarded|)
    && forwarded == Forwarded(speech[..heard])
    && |runs| == |forwarded|
    && sent == sent0 + SentTexts(forwarded, runs)
    && CallsFollowScript(respond, |sent0|, forwarded, runs)
    && (forall i :: 0 <= i < |runs| ==> (runs[i].result == Raised <==> end == Crashed && i == |runs| - 1))
    && (forall i :: 0 <= i < |runs| && runs[i].result != Raised ==> runs[i].result == Returned(Some(spoken[i])))
  }

  /** A stop request after the consumed utterances ends the episode with the farewell. */
  lemma StopEnds(respond: nat -> Outcome, sent0: seq<string>, sent: seq<string>, speech: seq<Option<string>>,
                 heard: nat, forwarded: seq<string>, spoken: seq<string>, runs: seq<RetryRun>)
    requires heard < |speech| && Consumed(speech, heard, forwarded)
    requires Answered(respond, sent0, sent, forwarded, spoken, runs)
    requires DecideTurn(speech[heard]) == EndEpisode
    ensures EpisodeOutcome(respond, sent0, sent, speech, Stopped, heard + 1, forwarded, spoken + [Farewell], runs)
  {
    assert speech[..heard + 1][..heard] == speech[..heard];
  }

  /**
   * One pass of the inner loop (lines 128-137): takes the next utterance and
   * ignores it, ends the episode with the farewell, or forwards it and speaks
   * the reply. `done` is set when the episode ends, with `end` saying how.
   */
  method Listen(session: ChatSession, speech: seq<Option<string>>, heard: nat, ghost sent0: seq<string>,
                forwarded: seq<string>, spoken: seq<string>, ghost runs: seq<RetryRun>)
    returns (done: bool, end: EpisodeEnd, heard': nat, forwarded': seq<string>, spoken': seq<string>,
             ghost runs': seq<RetryRun>)
    requires heard < |speech| && Consumed(speech, heard, forwarded)
    requires Answered(session.respond, sent0, session.sent, forwarded, spoken, runs)
    modifies session
    ensures heard' == heard + 1
    ensures !done ==>
      Consumed(speech, heard', forwarded') && Answered(session.respond, sent0, session.sent, forwarded', spoken', runs')
    ensures done ==>
      end != StillListening
      && EpisodeOutcome(session.respond, sent0, session.sent, speech, end, heard', forwarded', spoken', runs')
  {
    var utterance := speech[heard];
    heard' := heard + 1;
    assert speech[..heard'][..heard] == speech[..heard];
    done, end, forwarded', spoken', runs' := false, StillListening, forwarded, spoken, runs;
    match DecideTurn(utterance)
    case KeepListening =>
    case EndEpisode =>
      done, end, spoken' := true, Stopped, spoken + [Farewell];
      StopEnds(session.respond, sent0, session.sent, speech, heard, forwarded, spoken, runs);
    case Forward(text) =>
      var reply;
      ghost var run;
      reply, spoken', run := ForwardTurn(session, text, sent0, forwarded, spoken, runs);
      forwarded', runs' := forwarded + [text], runs + [run];
      if reply == Raised {
        done, end := true, Crashed;
        assert forall i :: 0 <= i < |runs| ==> runs[i].result == Returned(Some(spoken[i]));
      }
  }

  /** An episode that consumed every utterance without a stop request. */
  lemma ListenedToAll(respond: nat -> Outcome, sent0: seq<string>, sent: seq<string>, speech: seq<Option<string>>,
                      forwarded: seq<string>, spoken: seq<string>, runs: seq<RetryRun>)
    requires Consumed(speech, |speech|, forwarded)
    requires Answered(respond, sent0, sent, forwarded, spoken, runs)
    ensures EpisodeOutcome(respond, sent0, sent, speech, StillListening, |speech|, forwarded, spoken, runs)
  {
  }

  /**
   * The inner `while True` loop: listens to `speech` in order, forwarding
   * texts with the default retry settings and speaking the replies, until a
   * stop request, an escaped exception, or the end of the utterances.
   * `heard` is how many utterances were consumed; `runs[i]` is what the retry
   * wrapper did with `forwarded[i]`.
   */
  method Converse(session: ChatSession, speech: seq<Option<string>>)
    returns (end: EpisodeEnd, heard: nat, forwarded: seq<string>, spoken: seq<string>, ghost runs: seq<RetryRun>)
    modifies session
    ensures EpisodeOutcome(session.respond, old(session.sent), session.sent, speech, end, heard, forwarded, spoken, runs)
  {
    ghost var sent0 := session.sent;
    heard, forwarded, spoken, runs := 0, [], [], [];
    while heard < |speech|
      invariant Consumed(speech, heard, forwarded)
      invariant Answered(session.respond, sent0, session.sent, forwarded, spoken, runs)
      decreases |speech| - heard
    {
      var done;
      done, end, heard, forwarded, spoken, runs := Listen(session, speech, heard, sent0, forwarded, spoken, runs);
      if done {
        return;
      }
    }
    ListenedToAll(session.respond, sent0, session.sent, speech, forwarded, spoken, runs);
    end := StillListening;
  }
}
