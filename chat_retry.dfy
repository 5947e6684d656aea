/**
 * `send_message_with_retry` (Main.py lines 79-90): a bounded retry loop around
 * the chat session's `send_message`, retrying only on `ResourceExhausted`.
 *
 * The remote chat model is a script: the n-th `send_message` call of the
 * session gets the n-th scripted outcome. `time.sleep(retry_delay)` is counted
 * as a wait instead of being performed.
 */
module ChatRetry {
  import opened Options

  /** What one `send_message` call does: answer, raise `ResourceExhausted`, or raise anything else. */
  datatype Outcome = Ok(text: string) | Exhausted | OtherError

  /** How `send_message_with_retry` ends: it returns a string or `None`, or an exception escapes. */
  datatype CallResult = Returned(value: Option<string>) | Raised

  /** The result of the wrapper together with the attempts it made and the delays it waited. */
  datatype RetryRun = RetryRun(result: CallResult, attempts: nat, waits: nat)

  /** The reply returned once every attempt was refused with `ResourceExhausted`. */
  const Fallback: string := "Sorry, I'm unable to respond right now due to system limitations."

  /** The default `max_retries` and `retry_delay` (seconds), the values the conversation loop uses. */
  const DefaultMaxRetries: int := 5
  const DefaultRetryDelay: nat := 10

  /**
   * Reference definition of the loop from attempt number `attempt` on, where
   * attempt `k` gets the outcome `respond(k)`.
   */
  function Retry(respond: nat -> Outcome, attempt: nat, maxRetries: int): (r: RetryRun)
    decreases maxRetries - attempt
    ensures attempt >= maxRetries ==> r == RetryRun(Returned(None), 0, 0)
    ensures attempt < maxRetries ==>
      1 <= r.attempts <= maxRetries - attempt && r.waits == r.attempts - 1 && r.result != Returned(None)
  {
    if attempt >= maxRetries then RetryRun(Returned(None), 0, 0)
    else match respond(attempt)
      case Ok(text) => RetryRun(Returned(Some(text)), 1, 0)
      case OtherError => RetryRun(Raised, 1, 0)
      case Exhausted =>
        if attempt < maxRetries - 1 then
          var rest := Retry(respond, attempt + 1, maxRetries);
          RetryRun(rest.result, rest.attempts + 1, rest.waits + 1)
        else RetryRun(Returned(Some(Fallback)), 1, 0)
  }

  /**
   * Every attempt but the last was refused with `ResourceExhausted`, and the
   * last decides the result: its reply, its exception, or the fallback when
   * no attempt is left.
   */
  lemma {:induction false} RetryTrace(respond: nat -> Outcome, attempt: nat, maxRetries: int)
    ensures var r := Retry(respond, attempt, maxRetries);
      && (forall i :: attempt <= i < attempt + r.attempts - 1 ==> respond(i) == Exhausted)
      && (r.attempts > 0 ==>
            match respond(attempt + r.attempts - 1)
            case Ok(text) => r.result == Returned(Some(text))
            case OtherError => r.result == Raised
            case Exhausted => attempt + r.attempts == maxRetries && r.result == Returned(Some(Fallback)))
    decreases maxRetries - attempt
  {
    if attempt < maxRetries - 1 && respond(attempt) == Exhausted {
      RetryTrace(respond, attempt + 1, maxRetries);
    }
  }

  /** The first reply is returned, after the attempts refused before it. */
  lemma ReturnsFirstReply(respond: nat -> Outcome, maxRetries: int, k: nat, text: string)
    requires k < maxRetries
    requires forall i :: 0 <= i < k ==> respond(i) == Exhausted
    requires respond(k) == Ok(text)
    ensures Retry(respond, 0, maxRetries) == RetryRun(Returned(Some(text)), k + 1, k)
  {
    var r := Retry(respond, 0, maxRetries);
    RetryTrace(respond, 0, maxRetries);
  }

  /** An exception other than `ResourceExhausted` escapes on the attempt that raised it. */
  lemma PropagatesOtherError(respond: nat -> Outcome, maxRetries: int, k: nat)
    requires k < maxRetries
    requires forall i :: 0 <= i < k ==> respond(i) == Exhausted
    requires respond(k) == OtherError
    ensures Retry(respond, 0, maxRetries) == RetryRun(Raised, k + 1, k)
  {
    var r := Retry(respond, 0, maxRetries);
    RetryTrace(respond, 0, maxRetries);
  }

  /** When every attempt is refused, all `maxRetries` are made, with a delay between each two. */
  lemma ExhaustedGivesFallback(respond: nat -> Outcome, maxRetries: int)
    requires maxRetries > 0
    requires forall i :: 0 <= i < maxRetries ==> respond(i) == Exhausted
    ensures Retry(respond, 0, maxRetries) == RetryRun(Returned(Some(Fallback)), maxRetries, maxRetries - 1)
  {
    var r := Retry(respond, 0, maxRetries);
    RetryTrace(respond, 0, maxRetries);
    assert respond(r.attempts - 1) == Exhausted;
  }

  /** Three refused attempts with a ten-second delay: two waits, twenty seconds, then the fallback. */
  lemma ThreeRefusedAttempts()
    ensures var r := Retry(_ => Exhausted, 0, 3);
      r == RetryRun(Returned(Some(Fallback)), 3, 2) && r.waits * DefaultRetryDelay == 20
  {
    ExhaustedGivesFallback(_ => Exhausted, 3);
  }

  /** One refusal followed by a reply: the reply after two attempts. */
  lemma OneRefusalThenReply(text: string)
    ensures Retry(i => if i == 0 then Exhausted else Ok(text), 0, DefaultMaxRetries)
            == RetryRun(Returned(Some(text)), 2, 1)
  {
    ReturnsFirstReply(i => if i == 0 then Exhausted else Ok(text), DefaultMaxRetries, 1, text);
  }

  /** `n` copies of `x`. */
  function Repeat(x: string, n: nat): (s: seq<string>)
    ensures |s| == n && forall i :: 0 <= i < n ==> s[i] == x
  {
    seq(n, _ => x)
  }

  /** What a sequence of wrapped calls sends to the session: each text once per attempt of its call. */
  function SentTexts(texts: seq<string>, runs: seq<RetryRun>): seq<string>
    requires |texts| == |runs|
    decreases |texts|
  {
    if texts == [] then []
    else SentTexts(texts[..|texts| - 1], runs[..|runs| - 1]) + Repeat(texts[|texts| - 1], runs[|runs| - 1].attempts)
  }

  /**
   * Only the wrapped texts are sent, and every one of them is sent when each
   * call made at least one attempt.
   */
  lemma {:induction false} SentTextsAreWrapped(texts: seq<string>, runs: seq<RetryRun>)
    requires |texts| == |runs|
    ensures forall t :: t in SentTexts(texts, runs) ==> t in texts
    ensures (forall i :: 0 <= i < |runs| ==> runs[i].attempts >= 1) ==>
      forall t :: t in texts ==> t in SentTexts(texts, runs)
    decreases |texts|
  {
    if texts != [] {
      var n := |texts| - 1;
      SentTextsAreWrapped(texts[..n], runs[..n]);
      assert texts == texts[..n] + [texts[n]];
      if forall i :: 0 <= i < |runs| ==> runs[i].attempts >= 1 {
        assert runs[n].attempts >= 1;
        assert Repeat(texts[n], runs[n].attempts)[0] == texts[n];
      }
    }
  }

  /** The outcomes of the calls still to come, once `from` calls have been made. */
  function Shifted(respond: nat -> Outcome, from: nat): nat -> Outcome {
    (k: nat) => respond(from + k)
  }

  /**
   * Each wrapped call `i` did what `Retry` describes for the outcomes left
   * after the calls before it, starting from call number `first`.
   */
  ghost predicate CallsFollowScript(respond: nat -> Outcome, first: nat, texts: seq<string>, runs: seq<RetryRun>)
    requires |texts| == |runs|
    decreases |texts|
  {
    texts != [] ==>
      var n := |texts| - 1;
      && CallsFollowScript(respond, first, texts[..n], runs[..n])
      && runs[n] == Retry(Shifted(respond, first + |SentTexts(texts[..n], runs[..n])|), 0, DefaultMaxRetries)
  }

  /** One more wrapped call, made on the outcomes after those already used, extends both descriptions. */
  lemma CallsFollowAppend(respond: nat -> Outcome, first: nat, texts: seq<string>, runs: seq<RetryRun>,
                          text: string, run: RetryRun)
    requires |texts| == |runs| && CallsFollowScript(respond, first, texts, runs)
    requires run == Retry(Shifted(respond, first + |SentTexts(texts, runs)|), 0, DefaultMaxRetries)
    ensures CallsFollowScript(respond, first, texts + [text], runs + [run])
    ensures SentTexts(texts + [text], runs + [run]) == SentTexts(texts, runs) + Repeat(text, run.attempts)
  {
    assert (texts + [text])[..|texts|] == texts && (runs + [run])[..|runs|] == runs;
  }

  /**
   * The chat session: `respond(n)` is the outcome of its n-th `send_message`
   * call, and `sent` records the text of every call made so far.
   */
  class ChatSession {
    const respond: nat -> Outcome
    var sent: seq<string>

    /** `model.start_chat(history=[])`. */
    constructor (respond: nat -> Outcome)
      ensures this.respond == respond && sent == []
    {
      this.respond := respond;
      sent := [];
    }

    /** `chat_session.send_message(text)`. */
    method SendMessage(text: string) returns (o: Outcome)
      modifies this
      ensures o == respond(|old(sent)|) && sent == old(sent) + [text]
    {
      o := respond(|sent|);
      sent := sent + [text];
    }
  }

  /**
   * `send_message_with_retry(chat_session, userInput, maxRetries, retryDelay)`:
   * returns what `Retry` describes, after sending `userInput` once per attempt;
   * `slept` is the total of the `retryDelay`-second sleeps between attempts.
   */
  method SendMessageWithRetry(session: ChatSession, userInput: string, maxRetries: int, retryDelay: nat)
    returns (result: CallResult, attempts: nat, waits: nat, slept: nat)
    modifies session
    ensures RetryRun(result, attempts, waits) == Retry(Shifted(session.respond, |old(session.sent)|), 0, maxRetries)
    ensures slept == waits * retryDelay
    ensures session.sent == old(session.sent) + Repeat(userInput, attempts)
  {
    ghost var first := |session.sent|;
    ghost var script := Shifted(session.respond, first);
    attempts, waits, slept := 0, 0, 0;
    var attempt := 0;
    while attempt < maxRetries
      invariant attempt == attempts == waits
      invariant slept == waits * retryDelay
      invariant |session.sent| == first + attempt
      invariant session.sent == old(session.sent) + Repeat(userInput, attempt)
      invariant var rest := Retry(script, attempt, maxRetries);
        Retry(script, 0, maxRetries)
          == RetryRun(rest.result, rest.attempts + attempt, rest.waits + attempt)
    {
      var o := session.SendMessage(userInput);
      assert o == script(attempt);
      attempts := attempts + 1;
      match o
      case Ok(text) =>
        result := Returned(Some(text));
        return;
      case OtherError =>
        result := Raised;
        return;
      case Exhausted =>
        if attempt < maxRetries - 1 {
          waits, slept := waits + 1, slept + retryDelay;
        } else {
          result := Returned(Some(Fallback));
          return;
        }
      attempt := attempt + 1;
    }
    result := Returned(None);
  }
}
