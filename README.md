# Manus client: completion detection

This project models the core of `manus_client.py`, a client that drives a
remote browser session on the Manus.AI web app. The client submits a prompt
that asks the agent to finish with the sentinel `END`. It then polls the
page's message blocks until a new block text contains `END`, and gives up
after 60 polls.

The model has three modules:

- `Strings` (`strings.dfy`) holds the Python `str` operations the client uses:
  - `isspace` and `strip`;
  - the substring test `pat in s`;
  - `s.replace(pat, "")`;
  - the slice `s[:n]`.

  It also holds lemmas about these operations.
- `Detector` (`detector.dfy`) models the completion detector.
  - The browser is an input. One poll is the sequence of block reads made in enumeration order. Each read is `Text(s)`, or `Failed` when the read raised. A page history is a sequence of polls.
  - A reference specification works on the flat sequence of reads:
    - `NewTexts` gives the raw texts not seen before, in discovery order;
    - `Detect` stops at the first of those texts that contains `END`;
    - `BatchLines`, `StreamEvents`, `BatchAnswer` and `StreamAnswer` give the outputs.
  - The two loops of the source are imperative methods proved against that specification:
    - the batch `_send_prompt` is `SendPrompt`, with one poll in `ScanPoll`;
    - the streaming `_send_prompt_stream` is `SendPromptStream`, with one poll in `StreamPoll`;
    - the streaming path's `new_texts` generator is `NextNewText`, resumed at a block index.
    - Both loops use a mutable `seen` set and exit early.
  - The `log` callback is the `Logger` class, whose `lines` field the methods append to.
- `Client` (`client.dfy`) holds the public surface:
  - the prompt suffix;
  - `_interact_with_manus` and `ask_manus`;
  - `_stream_interact_with_manus` and `stream_manus`;
  - lemmas that tie the two paths together, and worked examples of the code's edge cases.

The model follows the code as written. These are the behaviours of the code that the lemmas expose:

- **The prompt ends detection on its own.** The suffix appended to every prompt, " (say END when you're done writing your final answer)", itself contains `END` (`Client.SubmittedPromptContainsEnd`). The block selector `div[data-message-id], div.prose` is not restricted to the agent's messages. So if the user's own message is the first matching block read, detection ends on it, and the batch answer is the stripped suffixed prompt (`Client.EchoedPromptEndsDetection`).
- **Substring test.** The sentinel test is `"END" in text`. A whole-token test would reject `APPEND`; the code's test accepts it, and such a block ends detection (`Client.SubstringEndsDetection`).
- **Batch answer keeps `END`.** The batch path returns `text.strip()`, so a successful batch answer still contains `END` (`Client.BatchAnswerKeepsEnd`).
- **Stream answer may keep `END`.** The streaming answer is `txt.replace("END", "").strip()`. That is a single left-to-right pass, which can create a new `END`: `EENDND` gives `END` (`Client.StreamAnswerCanContainEnd`). The class docstring's "final answer, END removed" (`manus_client.py:50`) therefore does not hold for every text. What does hold, when a text with `END` was found, is that the streamed answer is at least three characters shorter than the batch answer; on a timeout both are the same message (`Detector.StreamAnswerDropsEnd`).
- **Repeated log lines.** `seen` holds raw texts, and the logged line shows the stripped text. Two texts that differ only in surrounding whitespace can both be reported, under the same line, when both are read before detection ends. `Client.WhitespaceVariantsRepeatLine` proves this when detection times out. A text that contains `END` ends detection, so a variant read after it is never reported.

## Model

| member | source | states |
|---|---|---|
| Strings.AsciiSpaces | manus_client.py:240 | below U+0080, the whitespace set used by `strip` is exactly Python's ten ASCII whitespace characters (tab, line feed, vertical tab, form feed, carriage return, U+001C to U+001F, space) |
| Strings.Strip | manus_client.py:240 | `text.strip()` is never longer than `text`; `StripShape` gives what it keeps |
| Strings.LStripShape | manus_client.py:240 | `lstrip` keeps a suffix of the text; the dropped part is all whitespace; what remains does not start with whitespace |
| Strings.RStripShape | manus_client.py:240 | `rstrip` keeps a prefix of the text; the dropped part is all whitespace; what remains does not end with whitespace |
| Strings.StripShape | manus_client.py:240 | `strip` keeps an infix of the text, with whitespace only on either side, that neither starts nor ends with whitespace |
| Strings.StripIdempotent | manus_client.py:262 | stripping an already stripped text changes nothing, so the streamed `txt` strips to itself |
| Strings.StripKeepsContains | manus_client.py:262 | for a pattern without whitespace, the stripped text contains it exactly when the raw text does |
| Strings.ContainsAt | manus_client.py:241 | an occurrence of the pattern at any position makes `pat in s` true |
| Strings.ContainsSomewhere | manus_client.py:241 | when `pat in s` is true, the pattern occurs at some position, which the lemma returns |
| Strings.ContainsIff | manus_client.py:271 | `pat in s` holds exactly when the pattern occurs at some position of `s` |
| Strings.RemoveAll | manus_client.py:272 | `replace(pat, "")` leaves a text without `pat` unchanged, and shortens a text with `pat` by at least one copy of `pat` |
| Strings.RemoveAllCanCreateOccurrence | manus_client.py:272 | deleting `END` in one pass from `EENDND` yields `END`, so the result can still contain the pattern |
| Strings.Take | manus_client.py:226 | `prompt[:60]` is the prompt itself when it is short, and otherwise its first 60 characters |
| Detector.FirstEnd | manus_client.py:241 | locates the first text containing `END`; every text before it lacks `END`; none is found exactly when no text has `END` |
| Detector.Detect | manus_client.py:238-242 | the report is a prefix of the new texts; on success it ends with the found text, which contains `END`; no earlier reported text contains `END`; on a timeout all new texts are reported |
| Detector.NewTextsMembers | manus_client.py:237-240 | a text is reported exactly when some read yielded it |
| Detector.NewTextsDistinct | manus_client.py:238-239 | no raw text is reported twice |
| Detector.NewTextsInDiscoveryOrder | manus_client.py:233-240 | reported texts appear in the order of their first read |
| Detector.HistoryLayout | manus_client.py:233-235 | the reads of poll `i` follow the reads of all earlier polls, so discovery order is poll order, then block order |
| Detector.RepeatsAreSilent | manus_client.py:238 | reads that repeat already-read texts, or fail, change neither the report nor the outcome |
| Detector.FailedReadIsSkipped | manus_client.py:236-244 | a read that raises, anywhere in the history, changes neither the report nor the outcome, as if the block were absent |
| Detector.NewTextsGrow | manus_client.py:232-240 | reading more never takes back a report: the earlier report is a prefix of the later one |
| Detector.StopsAtFirstEnd | manus_client.py:241-242 | once a text with `END` has been found, later reads change nothing |
| Detector.FoundIffSomeTextHasEnd | manus_client.py:233-245 | detection succeeds exactly when some read yielded a text containing `END`, and otherwise times out |
| Detector.ObservesAtMostMaxPolls | manus_client.py:233 | histories that agree on their first 60 polls give the same observed reads, the same batch and stream answers, the same log and the same events: nothing past poll 60 is looked at |
| Detector.BatchLinesLayout | manus_client.py:226-240 | the batch log is the prompt line (the first 60 characters of the prompt), the waiting line, then one `💬` line per reported text, in order |
| Detector.StreamEventsShape | manus_client.py:267-275 | the stream yields at least three events; all are log events except the last, which is the only answer event, on success and on timeout |
| Detector.StripKeepsEnd | manus_client.py:271 | testing `END` on the stripped text, as the stream does, is the same as testing it on the raw text, as the batch path does |
| Detector.StreamAnswerDropsEnd | manus_client.py:272 | after a successful detection, the stream answer is at least three characters shorter than the batch answer; on a timeout both are the timeout message |
| Detector.Logger.Add | manus_client.py:60-62 | the log callback appends the line it is given |
| Detector.SendPrompt | manus_client.py:225-245 | the lines logged are exactly `BatchLines`, and the answer is the stripped first new text with `END` (sentinel kept) or the timeout message |
| Detector.ScanPoll | manus_client.py:235-244 | one poll: failed reads and seen texts are skipped; new texts are added to `seen` and logged; the first with `END` returns the batch answer |
| Detector.NextNewText | manus_client.py:256-264 | the generator skips failed and seen blocks; it yields the next new text stripped and adds the raw text to `seen`; otherwise it says the poll is done and leaves `seen` unchanged |
| Detector.SendPromptStream | manus_client.py:248-275 | the events are exactly `StreamEvents`: the log events, then one answer event last, `END` removed once and stripped, or the timeout message |
| Detector.StreamPoll | manus_client.py:269-274 | one poll: a log event per new text; on the first with `END`, that log event, then the answer event, then the stream stops |
| Client.Submitted | manus_client.py:77 | the submitted prompt is the caller's prompt followed by the fixed suffix |
| Client.SubmittedPromptContainsEnd | manus_client.py:115 | the submitted prompt itself contains `END`, because the suffix names the sentinel |
| Client.EchoedPromptEndsDetection | manus_client.py:235-242 | if the first block read shows the submitted prompt, detection ends on it and the batch answer is the stripped prompt |
| Client.InteractWithManus | manus_client.py:76-110 | logs the session lines, the login lines, the detector lines for the suffixed prompt and the close line, in that order, and returns the detector's answer |
| Client.LogAll | manus_client.py:91-101 | the lines the login steps log are appended to the log in order, and nothing else is |
| Client.AskManus | manus_client.py:55-66 | the result's logs are every line logged in this interaction, in call order, and its answer is the batch answer |
| Client.AskLogsLayout | manus_client.py:55-66 | the collected logs are the session and login lines, then exactly the detector's lines, then the close line |
| Client.BatchAnswerKeepsEnd | manus_client.py:241-242 | a successful batch answer still contains `END`; a failed one is the timeout message |
| Client.StreamManus | manus_client.py:114-151 | the events of `stream_manus` are the session and login events, the detector's events and the close event; exactly one is an answer, second to last |
| Client.StreamAgreesWithBatch | manus_client.py:270-273 | the stream's log events carry the batch log lines in order; its answer is the batch answer with `END` removed once and stripped again, or the same timeout message |
| Client.WhitespaceVariantsRepeatLine | manus_client.py:238-240 | two different raw texts with the same stripped text, both read, are both reported when detection times out, and the batch log holds their identical `💬` line at two positions |
| Client.LogLinesCanRepeat | manus_client.py:238-240 | for the one page showing `hi` then `hi `, both texts are reported and the batch log lines at positions 2 and 3 (counting from 0) are both `💬 hi` |
| Client.SubstringEndsDetection | manus_client.py:241 | a block reading `APPEND` ends detection, because the test is a substring test |
| Client.StreamAnswerCanContainEnd | manus_client.py:272 | a block reading `EENDND` gives the stream answer `END` |

## Left out

- Browserbase session creation and the CDP/Playwright connection (`manus_client.py:81-88`, `119-126`) are network and library calls. The session id is a parameter.
- The Google and Manus login flows (`manus_client.py:155-222`) are browser driver calls. The lines they log or yield are a parameter. On the streaming path that parameter also includes the "cookies loaded" line.
- Reading and writing `state.json` (`manus_client.py:92-98`, `130-138`) is file I/O.
- The 2-second waits and the asyncio plumbing are not modelled. Each poll is one step, and one poll's reads are an input sequence.
- Exceptions raised outside the per-block `try` are not modelled: `query_selector_all`, `fill`, `press` and `wait_for_timeout` propagate to the caller.
- The console echo of the batch `log` callback (`print`) is left out. Only the list it appends to is modelled.
- `Detector.NextNewText`: the generator yields to a consumer and keeps the page open between yields. The model resumes it at a block index within the poll's reads.
- `Strings.RemoveAll`: its contract proves only two things. A text without the pattern is unchanged, and a text with it loses at least one copy. That the pass deletes exactly the non-overlapping occurrences from left to right is its definition, not a separate lemma.
- Texts holding lone surrogates (U+D800 to U+DFFF) are not modelled. A Python `str` can hold them, but a `string` here is a sequence of Unicode scalar values.
- `Strings.Strip`: its own contract gives only the length bound, so that its uses stay cheap. The lemma `Strings.StripShape` gives what it keeps.
- `app.py`, `validate.py` and `main.py` are not part of this model. They are an HTTP layer, a credential check and a command-line wrapper around the client.
