# MindShift-AI core in Dafny

MindShift-AI is a desktop demo. It watches the webcam and detects a dominant emotion per frame. When the user has looked sad long enough, it starts a spoken conversation with a Gemini-based support assistant. Almost everything is delegated to libraries: OpenCV, FER, pyttsx3, Google speech recognition and the Gemini chat API. This project models the program's own logic in `Main.py`, with those libraries abstracted away:

- **Sadness timer** (`sadness_timer.dfy`, module `SadnessTimer`). This is `emotion_timer['sad']`, updated once per frame. A frame with no detected emotion leaves it alone. A `'sad'` label adds 0.5 s. Any other label resets it to 0. When it reaches `emotion_threshold`, a conversation runs and the timer is reset afterwards. Time is kept in half-second ticks: the timer in seconds is `sadTicks / 2`, so it is a non-negative multiple of 0.5 by construction. The class `Tracker` holds the state. The pure functions `Step`, `Final`, `FiresLast` and `FireCount` describe a sequence of frames. `SadRun` is an independent reference: the length of the current run of `'sad'` labels.
- **Bounded retry** (`chat_retry.dfy`, module `ChatRetry`). This is `send_message_with_retry`. The chat session is a class whose n-th `send_message` call gets a scripted `Outcome`: a reply, `ResourceExhausted`, or another exception. `Retry` is the reference definition of the loop. The method `SendMessageWithRetry` is proved to compute it, and it also reports the attempts, the waits and the seconds slept.
- **Conversation turn** (`conversation.dfy`, module `Conversation`). `DecideTurn` is the rule for one recognised utterance. `Converse` is the inner `while True` loop of an episode.
- **Monitoring loop** (`main_loop.dfy`, module `MainLoop`). This is the outer loop that feeds frames to the timer. On a trigger it runs an episode and then resets the timer.

Three facts about the program shape the model:

- The tracker fires again after every further `FramesToFire(threshold)` consecutive sad frames, because line 141 resets the timer to 0 after each conversation. A single uninterrupted sad run can therefore start several conversations. `SadRunFiresRepeatedly` states that a run of `k` sad frames fires `k / FramesToFire(threshold)` times.
- The program keeps no separate "triggered" state. The conversation and the reset both happen within the frame that reached the threshold.
- A recognised empty string is false in Python's `if user_input` (lines 130 and 134). So it is neither a stop request nor forwarded.

## Model

| member | source | states |
|---|---|---|
| SadnessTimer.Reached | Main.py:116 | the timer of `ticks` half-seconds reaches a whole-second threshold exactly when `ticks >= 2 * threshold` |
| SadnessTimer.FramesToFire | Main.py:97-116 | the number of consecutive sad frames that first meets `timer >= emotion_threshold`: at least one, it reaches the threshold, and no smaller positive count does |
| SadnessTimer.ReachedIff | Main.py:114-116 | after at least one half-second step, the comparison with the threshold in seconds is the same as comparing the tick count with `FramesToFire` |
| SadnessTimer.Step | Main.py:107-145 | a frame fires exactly when it is labelled `'sad'` and the timer plus 0.5 s reaches the threshold; otherwise the timer follows the sad run (unchanged with no face, +0.5 s on `'sad'`, 0 on any other label), and a firing frame leaves it at 0; a timer below `FramesToFire` stays below it |
| SadnessTimer.StepTracksSadRun | Main.py:107-145 | one frame keeps the timer equal to the sad run modulo `FramesToFire`, and fires exactly on a sad frame that completes a multiple of it |
| SadnessTimer.TimerCountsSadRun | Main.py:96-145 | from a zero timer, after any sequence of frames the timer equals the current sad run modulo `FramesToFire`; the last frame fires iff it is `'sad'` and the run is a positive multiple of `FramesToFire` |
| SadnessTimer.TimerStaysBelowThreshold | Main.py:114-145 | between frames the timer is always below `FramesToFire`: the frame that reaches the threshold fires and is followed by the reset; for a positive threshold this means the timer is below the threshold in seconds (with `threshold <= 0` a zero timer already reaches it) |
| SadnessTimer.RetriggerNeedsFullRun | Main.py:114-141 | a trigger from a zero timer (the state at start and after every conversation) needs a run of at least `FramesToFire` sad frames with no other label in between |
| SadnessTimer.SadRunFiresRepeatedly | Main.py:114-141 | `k` consecutive sad frames from a zero timer leave `k mod FramesToFire` ticks and start `k / FramesToFire` conversations |
| SadnessTimer.TwoSadFramesFire | Main.py:96-116 | with threshold 1 s, the frames `sad, sad` fire `[false, true]` |
| SadnessTimer.InterruptedSadnessNeverFires | Main.py:96-145 | with threshold 1 s, the frames `sad, neutral, sad` fire `[false, false, false]` |
| SadnessTimer.Tracker.constructor | Main.py:96-97 | the timer starts at 0 with the given threshold, below `FramesToFire`, which for a positive threshold means below the threshold in seconds |
| SadnessTimer.Tracker.Observe | Main.py:107-145 | no face: timer and trigger unchanged; `'sad'`: exactly +0.5 s, and fires iff the new value reaches the threshold; any other label: timer 0, no trigger; agrees with `Step`, and keeps the timer below `FramesToFire` when it does not fire, which for a positive threshold means below the threshold in seconds |
| SadnessTimer.Tracker.Reset | Main.py:141 | after a conversation the timer is 0 and below `FramesToFire`, which for a positive threshold means below the threshold in seconds |
| ChatRetry.Retry | Main.py:79-90 | with `max_retries <= 0` no attempt is made and `None` is returned; otherwise 1 to `max_retries` attempts, one wait fewer than attempts, and never `None` |
| ChatRetry.RetryTrace | Main.py:80-90 | every attempt but the last got `ResourceExhausted`; the last one's reply is returned, or its other exception escapes, or, when it too was exhausted, all `max_retries` attempts were used and the fallback string is returned |
| ChatRetry.ReturnsFirstReply | Main.py:80-83 | the first successful reply is returned after exactly `k + 1` attempts and `k` waits, where `k` is the number of refusals before it |
| ChatRetry.PropagatesOtherError | Main.py:80-84 | an exception other than `ResourceExhausted` escapes on the attempt that raised it, with no further attempts |
| ChatRetry.ExhaustedGivesFallback | Main.py:84-90 | when every attempt is refused, exactly `max_retries` attempts and `max_retries - 1` waits occur, and the fixed fallback string is returned |
| ChatRetry.ThreeRefusedAttempts | Main.py:84-90 | with `max_retries = 3`, a 10 s delay and every attempt refused: 3 attempts, 2 waits (20 s), then the fallback |
| ChatRetry.OneRefusalThenReply | Main.py:79-90 | with the defaults, one refusal then a reply returns that reply after 2 attempts and 1 wait |
| ChatRetry.SentTextsAreWrapped | Main.py:80-82 | the session only ever receives texts that were handed to the retry wrapper, and receives every one of them when each call made at least one attempt |
| ChatRetry.CallsFollowAppend | Main.py:79-90 | a further wrapped call that follows `Retry` on the outcomes left after the earlier calls extends the record of the calls, and appends its text once per attempt to what the session received |
| ChatRetry.ChatSession.constructor | Main.py:76 | a new chat session has sent nothing |
| ChatRetry.ChatSession.SendMessage | Main.py:82 | a call gets the next scripted outcome and records the text sent |
| ChatRetry.SendMessageWithRetry | Main.py:79-90 | returns what `Retry` gives for the session's next outcomes; `user_input` is sent once per attempt; the seconds slept are `waits * retry_delay` |
| Conversation.IsStopRequest | Main.py:130 | `"stop" in text.lower()` holds exactly when four consecutive characters of the text are `s`/`S`, `t`/`T`, `o`/`O`, `p`/`P` |
| Conversation.StopAnywhere | Main.py:130 | a word that lower-cases to "stop" ends the episode wherever it occurs in the utterance, even inside a longer word |
| Conversation.StopIgnoresCase | Main.py:130 | an utterance and its lower-cased form agree on being a stop request |
| Conversation.StopExamples | Main.py:130 | "Please STOP now" and "unstoppable" are stop requests |
| Conversation.SadUtteranceIsForwarded | Main.py:130-136 | "I feel sad" is not a stop request |
| Conversation.DecideTurn | Main.py:128-136 | `None` or an empty string sends nothing; a text whose lower-case form contains "stop" ends the episode; any other text is forwarded unchanged; each iff |
| Conversation.ForwardedAppend | Main.py:127-137 | the texts forwarded by consecutive utterances are those of each part, in order |
| Conversation.ForwardedAreMessages | Main.py:130-136 | every forwarded text was heard, is non-empty and is not a stop request, and there are at most as many as utterances |
| Conversation.ForwardTurn | Main.py:136-137 | one forwarded text goes through the retry wrapper with the default settings on the session's next outcomes; the session receives it once per attempt; a returned reply is spoken, an escaped exception speaks nothing |
| Conversation.StopEnds | Main.py:130-132 | a stop request after utterances that were not stop requests ends the episode there, with the farewell spoken after the replies and nothing more sent |
| Conversation.Listen | Main.py:128-137 | one pass of the inner loop: an empty or missing utterance does nothing, a stop request ends the episode with the farewell, any other text is forwarded and its reply spoken, and an exception from the wrapper ends the episode |
| Conversation.Converse | Main.py:127-137 | (`EpisodeOutcome`) the utterances up to the stop are consumed in order; the texts passed to the retry wrapper are exactly those `DecideTurn` forwards, each once, in order; what the session receives is exactly each of them once per attempt, and each wrapped call does what `Retry` describes on the outcomes left by the calls before it; the episode ends on the first stop request (with the farewell spoken last), on an exception escaping the last wrapped call, or when the utterances run out; every other wrapped call's returned text is the reply spoken for it, in order |
| MainLoop.EpisodesAppend | Main.py:127-141 | an episode run on the utterances and session state left by the earlier ones, after they all ended on a stop request, extends the record of episodes, the utterances consumed and the session's texts |
| MainLoop.Talk | Main.py:127-137 | a triggered episode is `Converse` on the utterances not yet heard and the session as the earlier episodes left it, and is appended to the record of episodes with how it ended |
| MainLoop.Frame | Main.py:99-145 | one frame: the conversation count becomes `FireCount` of the frames so far, with one episode recorded per firing frame; the loop must stop exactly when that episode crashed or was still listening, and only on a frame that fired; otherwise the timer is `Final` of the frames so far (the reset of line 141 included) |
| MainLoop.MonitorLoop | Main.py:99-156 | one conversation per firing frame: the episodes recorded are `FireCount` of the frames processed, each one is what `Converse` does on the utterances not yet heard and the session's texts so far, and every one but the last ended on a stop request; the utterances consumed and the session's texts are exactly those of the episodes; the loop stops early exactly when the last episode crashed or was still listening, and then on a frame that fired; when the frames run out, every frame was processed and the timer is `Final` of them |

## Left out

- Camera capture, `imshow`, `putText`, `waitKey` and the `q` quit key are device and UI input/output. The camera is the sequence of frames given to `MonitorLoop`, and a failed read is the end of that sequence.
- FER emotion detection and `top_emotion` are a foreign classifier. A frame is an `Observation`: no emotion detected, or the dominant label. The model has no case for a missing label: `top_emotion` runs detection again on the same frame, which already produced emotions at line 107. Were it to return `(None, None)`, formatting the score at line 111 would raise. The score is only displayed.
- `text_to_speech` and the pyttsx3 voice setup are audio output. The replies and the farewell spoken in an episode are returned as `spoken`. The greeting at line 120 is not recorded.
- `recognize_speech` and the Google recogniser are microphone and network input. An utterance is an `Option<string>`. The apology it speaks on failure is not modelled. The microphone is a finite sequence, so an episode can also end with the utterances exhausted, where the program would keep listening.
- Gemini configuration, safety settings and the model's reply generation are remote. `send_message` is a scripted outcome per call. The conversation history kept inside the library's session is not modelled.
- `time.sleep` is counted, not performed: the waits between attempts and their total seconds. The 0.5 s sleep per frame is the fixed tick of the timer.
- `print` output is not modelled.
- ChatRetry.SendMessageWithRetry: `retry_delay` is a natural number. In Python a negative delay would make `time.sleep` raise, which is not modelled. The only caller uses the default of 10 s.
- Conversation.Lower: lower-cases only `A`-`Z`, not the whole of Unicode as Python's `str.lower()` does. No other character lower-cases to a string containing `s`, `t`, `o` or `p`, so `IsStopRequest` still agrees with `"stop" in text.lower()` on every string.
- The float arithmetic of `emotion_timer['sad'] += 0.5` is exact half-seconds here. Sums of 0.5 are exact in binary floating point for any realistic run length.
