/**
 * The public surface of the client: `ask_manus` (batch: the answer and every
 * logged line), `stream_manus` (the event stream) and the two interaction
 * wrappers around the polling loops, which add the prompt suffix and the
 * session lines before and after the detector runs.
 *
 * The remote session, the browser and the login flows are outside the
 * model: the session id and the lines the login steps log are inputs, and
 * the page is the sequence of polls the detector reads.
 */
module Client {
  import opened Strings
  import opened Detector

  /** Appended to every prompt, asking Manus to finish with the sentinel. */
  const PromptSuffix: string := " (say " + EndToken + " when you're done writing your final answer)"

  const SpinningLine: string := "🚀 spinning up remote chromium session on Browserbase…"

  const ClosedLine: string := "✅ remote browser closed."

  function ConnectedLine(sessionId: string): string {
    "🔗 connected. live view: https://browserbase.com/sessions/" + sessionId
  }

  /** The prompt as typed into the page: the caller's prompt, then the suffix. */
  function Submitted(prompt: string): (p: string)
    ensures |p| == |prompt| + |PromptSuffix|
    ensures p[..|prompt|] == prompt && p[|prompt|..] == PromptSuffix
  {
    prompt + PromptSuffix
  }

  /** The suffix itself asks for "END", so every submitted prompt contains it. */
  lemma SubmittedPromptContainsEnd(prompt: string)
    ensures Contains(Submitted(prompt), EndToken)
  {
    var p := Submitted(prompt);
    var i := |prompt| + 6;
    assert PromptSuffix[6..9] == EndToken;
    assert p[i..i + 3] == PromptSuffix[6..9];
    ContainsAt(p, EndToken, i);
  }

  /**
   * Should the page show the submitted prompt as the first message block,
   * detection ends there: the batch answer is the prompt itself.
   */
  lemma EchoedPromptEndsDetection(prompt: string, polls: seq<Poll>)
    requires |polls| > 0 && |polls[0]| > 0 && polls[0][0] == Text(Submitted(prompt))
    ensures Detect(Observed(polls)).found == Some(Submitted(prompt))
    ensures BatchAnswer(Detect(Observed(polls))) == Strip(Submitted(prompt))
  {
    var s := Submitted(prompt);
    SubmittedPromptContainsEnd(prompt);
    assert ReadSoFar(polls, 0, 0) == [];
    assert Scanned({}, []);
    HitOutcome(polls, 0, 0, {}, s);
  }

  /** Everything the batch path logs, in order. */
  function InteractLines(prompt: string, sessionId: string, loginLines: seq<string>,
                         polls: seq<Poll>): seq<string> {
    [SpinningLine, ConnectedLine(sessionId)] + loginLines
      + BatchLines(Submitted(prompt), polls) + [ClosedLine]
  }

  /**
   * `_interact_with_manus`: logs the session lines and the login lines, runs
   * the batch detector on the suffixed prompt, logs the close line and
   * returns the detector's answer.
   */
  method InteractWithManus(prompt: string, sessionId: string, loginLines: seq<string>,
                           polls: seq<Poll>, log: Logger) returns (answer: string)
    modifies log
    ensures log.lines == old(log.lines) + InteractLines(prompt, sessionId, loginLines, polls)
    ensures answer == BatchAnswer(Detect(Observed(polls)))
  {
    ghost var before := log.lines;
    var p := Submitted(prompt);
    log.Add(SpinningLine);
    log.Add(ConnectedLine(sessionId));
    LogAll(loginLines, log);
    answer := SendPrompt(p, polls, log);
    log.Add(ClosedLine);
    Regroup5(before, SpinningLine, ConnectedLine(sessionId), loginLines, BatchLines(p, polls), ClosedLine);
  }

  /** The login steps: each line they log is passed on, in order. */
  method LogAll(lines: seq<string>, log: Logger)
    modifies log
    ensures log.lines == old(log.lines) + lines
  {
    for k := 0 to |lines|
      invariant log.lines == old(log.lines) + lines[..k]
    {
      assert lines[..k + 1] == lines[..k] + [lines[k]];
      log.Add(lines[k]);
    }
    assert lines[..|lines|] == lines;
  }

  /** Regrouping of a concatenation; a separate lemma keeps the caller's proof cheap. */
  lemma Regroup5<T>(o: seq<T>, a: T, b: T, l: seq<T>, m: seq<T>, z: T)
    ensures o + [a] + [b] + l + m + [z] == o + ([a, b] + l + m + [z])
  {
    assert o + [a] + [b] == o + [a, b];
  }

  /** What `ask_manus` returns: the collected log lines and the answer. */
  datatype AskResult = AskResult(logs: seq<string>, answer: string)

  /**
   * `ask_manus`: the log callback appends to a fresh list, so the result
   * holds exactly the lines of this interaction, in the order logged.
   */
  method AskManus(prompt: string, sessionId: string, loginLines: seq<string>, polls: seq<Poll>)
    returns (r: AskResult)
    ensures r.logs == InteractLines(prompt, sessionId, loginLines, polls)
    ensures r.answer == BatchAnswer(Detect(Observed(polls)))
  {
    var log := new Logger();
    var answer := InteractWithManus(prompt, sessionId, loginLines, polls, log);
    r := AskResult(log.lines, answer);
  }

  /**
   * The shape of the collected logs: the session lines and the login lines
   * first, then exactly the lines of the detector (`BatchLines`), and the
   * close line last.
   */
  lemma AskLogsLayout(prompt: string, sessionId: string, loginLines: seq<string>, polls: seq<Poll>)
    ensures var logs, n := InteractLines(prompt, sessionId, loginLines, polls), |loginLines|;
            && |logs| == n + 3 + |BatchLines(Submitted(prompt), polls)|
            && logs[..n + 2] == [SpinningLine, ConnectedLine(sessionId)] + loginLines
            && logs[n + 2..|logs| - 1] == BatchLines(Submitted(prompt), polls)
            && logs[|logs| - 1] == ClosedLine
  {
    SplitThree([SpinningLine, ConnectedLine(sessionId)] + loginLines,
               BatchLines(Submitted(prompt), polls), ClosedLine);
  }

  lemma SplitThree<T>(a: seq<T>, b: seq<T>, z: T)
    ensures var s := a + b + [z];
            && |s| == |a| + |b| + 1
            && s[..|a|] == a && s[|a|..|s| - 1] == b && s[|s| - 1] == z
  {
    var s := a + b + [z];
    assert s[..|a|] == a;
    assert s[|a|..|s| - 1] == b;
  }

  /**
   * The batch answer keeps the sentinel: when a text with "END" was found,
   * the answer (that text, stripped) still contains "END".
   */
  lemma BatchAnswerKeepsEnd(polls: seq<Poll>)
    ensures Detect(Observed(polls)).found.Some? ==> Contains(BatchAnswer(Detect(Observed(polls))), EndToken)
    ensures Detect(Observed(polls)).found.None? ==> BatchAnswer(Detect(Observed(polls))) == TimeoutMessage
  {
    var d := Detect(Observed(polls));
    if d.found.Some? {
      StripKeepsEnd(d.found.value);
    }
  }

  /** Everything `stream_manus` yields, in order. */
  function ManusEvents(prompt: string, sessionId: string, loginLines: seq<string>,
                       polls: seq<Poll>): seq<Event> {
    [Log(SpinningLine), Log(ConnectedLine(sessionId))] + Logs(loginLines)
      + StreamEvents(Submitted(prompt), polls) + [Log(ClosedLine)]
  }

  /**
   * `_stream_interact_with_manus`, as re-yielded by `stream_manus`: the
   * session and login events, the detector's events on the suffixed prompt,
   * and the close event. Exactly one event is an answer, the one before the
   * close event.
   */
  method StreamManus(prompt: string, sessionId: string, loginLines: seq<string>, polls: seq<Poll>)
    returns (events: seq<Event>)
    ensures events == ManusEvents(prompt, sessionId, loginLines, polls)
    ensures |events| >= 6 + |loginLines|
    ensures forall k :: 0 <= k < |events| ==> (events[k].Answer? <==> k == |events| - 2)
  {
    var p := Submitted(prompt);
    var head := [Log(SpinningLine), Log(ConnectedLine(sessionId))] + Logs(loginLines);
    var detected := SendPromptStream(p, polls);
    events := head + detected + [Log(ClosedLine)];
    LogsShape(loginLines);
    assert forall k :: 0 <= k < |head| ==> head[k].Log?;
    forall k | 0 <= k < |events| ensures events[k].Answer? <==> k == |events| - 2 {
      if k < |head| {
        assert events[k] == head[k];
      } else if k < |head| + |detected| {
        assert events[k] == detected[k - |head|];
      }
    }
  }

  /**
   * The two paths agree: the stream's log events carry the batch path's log
   * lines, in order, and its answer is the batch answer with "END" removed
   * once and stripped again; on a timeout both give the timeout message.
   */
  lemma StreamAgreesWithBatch(prompt: string, polls: seq<Poll>)
    ensures var e, d := StreamEvents(prompt, polls), Detect(Observed(polls));
            && e[..|e| - 1] == Logs(BatchLines(prompt, polls))
            && e[|e| - 1] == Answer(if d.found.Some? then Strip(RemoveAll(BatchAnswer(d), EndToken))
                                    else BatchAnswer(d))
  {
    var e := StreamEvents(prompt, polls);
    var l := Logs(BatchLines(prompt, polls));
    assert e == l + [e[|e| - 1]];
    assert e[..|e| - 1] == l;
  }

  /**
   * Two different raw texts that strip to the same text are distinct to
   * `seen`: when both are read and detection times out, both are reported,
   * and the batch log holds the same `💬` line twice.
   */
  lemma WhitespaceVariantsRepeatLine(prompt: string, polls: seq<Poll>, s1: string, s2: string)
    requires s1 != s2 && Strip(s1) == Strip(s2)
    requires Text(s1) in Observed(polls) && Text(s2) in Observed(polls)
    requires Detect(Observed(polls)).found.None?
    ensures s1 in Detect(Observed(polls)).reported && s2 in Detect(Observed(polls)).reported
    ensures ReportLine(s1) == ReportLine(s2)
    ensures exists i, j :: 2 <= i < j < |BatchLines(prompt, polls)|
              && BatchLines(prompt, polls)[i] == ReportLine(s1) && BatchLines(prompt, polls)[j] == ReportLine(s1)
  {
    var d := Detect(Observed(polls)).reported;
    assert s1 in d && s2 in d by { NewTextsMembers(Observed(polls)); }
    var a :| 0 <= a < |d| && d[a] == s1;
    var b :| 0 <= b < |d| && d[b] == s2;
    var l := BatchLines(prompt, polls);
    assert |l| == 2 + |d| && l[2 + a] == ReportLine(s1) && l[2 + b] == ReportLine(s2) by {
      BatchLinesLayout(prompt, polls);
    }
    if a < b {
      assert 2 <= 2 + a < 2 + b < |l|;
    } else {
      assert 2 <= 2 + b < 2 + a < |l|;
    }
  }

  /**
   * An instance of `WhitespaceVariantsRepeatLine`: a page showing "hi" and
   * then "hi " logs the line "💬 hi" twice.
   */
  lemma LogLinesCanRepeat()
    ensures var polls := [[Text("hi"), Text("hi ")]];
            && Detect(Observed(polls)).reported == ["hi", "hi "]
            && BatchLines("p", polls)[2] == BatchLines("p", polls)[3] == "💬 hi"
  {
    var polls := [[Text("hi"), Text("hi ")]];
    var d := HiDetection();
    BatchLinesLayout("p", polls);
    assert d.reported[0] == "hi" && d.reported[1] == "hi ";
    HiFacts();
  }

  /** The example's detection: both texts reported, no `END` found. */
  lemma HiDetection() returns (d: Detection)
    ensures d == Detect(Observed([[Text("hi"), Text("hi ")]]))
    ensures d.reported == ["hi", "hi "] && d.found.None?
  {
    d := Detect(Observed([[Text("hi"), Text("hi ")]]));
    HiObserved();
    HiReported();
    HiFacts();
    assert FirstEnd(["hi", "hi "]) == None by {
      assert ["hi", "hi "][1..] == ["hi "];
      assert ["hi "][1..] == [];
    }
  }

  /** The example page is one poll holding the two blocks. */
  lemma HiObserved()
    ensures Observed([[Text("hi"), Text("hi ")]]) == [Text("hi"), Text("hi ")]
  {
    var polls := [[Text("hi"), Text("hi ")]];
    HistoryPastEnd(polls, MaxPolls);
    assert History(polls, 1) == [] + polls[0];
  }

  /** Both texts of the example are new when read. */
  lemma HiReported()
    ensures NewTexts([Text("hi"), Text("hi ")]) == ["hi", "hi "]
  {
    NewTextsSnoc([], Text("hi"));
    assert [] + [Text("hi")] == [Text("hi")];
    NewTextsSnoc([Text("hi")], Text("hi "));
    assert [Text("hi")] + [Text("hi ")] == [Text("hi"), Text("hi ")];
    assert "hi " !in ["hi"];
  }

  /** The two texts of `LogLinesCanRepeat`: both strip to "hi", neither holds "END". */
  lemma HiFacts()
    ensures Strip("hi") == "hi" && Strip("hi ") == "hi"
    ensures !Contains("hi", EndToken) && !Contains("hi ", EndToken)
    ensures "hi " != "hi"
  {
    assert "hi "[..2] == "hi";
    assert !Contains("hi ", EndToken) by {
      assert "hi "[..3][0] != EndToken[0];
      assert "hi "[1..] == "i ";
    }
  }

  /**
   * The sentinel test is a plain substring test: a block reading "APPEND",
   * where "END" is only the tail of a longer word, ends detection, and the
   * batch answer is that text.
   */
  lemma SubstringEndsDetection()
    ensures var polls := [[Text("APPEND")]];
            && Detect(Observed(polls)).found == Some("APPEND")
            && BatchAnswer(Detect(Observed(polls))) == "APPEND"
  {
    var polls := [[Text("APPEND")]];
    assert Contains("APPEND", EndToken) by {
      assert "APPEND"[3..6] == EndToken;
      ContainsAt("APPEND", EndToken, 3);
    }
    assert Strip("APPEND") == "APPEND" by {
      assert LStrip("APPEND") == "APPEND";
      assert RStrip("APPEND") == "APPEND";
    }
    assert ReadSoFar(polls, 0, 0) == [];
    assert Scanned({}, []);
    HitOutcome(polls, 0, 0, {}, "APPEND");
  }

  /**
   * Removing "END" once can leave an "END": the stream answer for a block
   * reading "EENDND" is "END".
   */
  lemma StreamAnswerCanContainEnd()
    ensures var polls := [[Text("EENDND")]];
            && Detect(Observed(polls)).found == Some("EENDND")
            && StreamAnswer(Detect(Observed(polls))) == "END"
  {
    var polls := [[Text("EENDND")]];
    EendndFacts();
    assert ReadSoFar(polls, 0, 0) == [];
    assert Scanned({}, []);
    HitOutcome(polls, 0, 0, {}, "EENDND");
  }

  /** The text of `StreamAnswerCanContainEnd`: it holds "END" and has nothing to strip. */
  lemma EendndFacts()
    ensures Contains("EENDND", EndToken)
    ensures Strip("EENDND") == "EENDND" && Strip("END") == "END"
    ensures Strip(RemoveAll(Strip("EENDND"), EndToken)) == "END"
  {
    RemoveAllCanCreateOccurrence();
    assert Contains("EENDND"[1..], EndToken) by {
      assert "EENDND"[1..][..3] == EndToken;
    }
  }
}
