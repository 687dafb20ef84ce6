/**
 * The completion detector of the client: after the prompt is submitted it
 * polls the page at most 60 times, reads the text of every message block,
 * reports each text it has not seen before and stops at the first new text
 * that contains "END".
 *
 * The browser is an input. One poll is the sequence of block reads it made,
 * in the page's enumeration order; a read either yields a text or raises
 * (`Failed`). The page history is the sequence of polls; a history shorter
 * than 60 polls reads as empty pages afterwards.
 *
 * The module gives a reference specification on the flat sequence of reads
 * (`NewTexts`, `Detect`), the two loops of the source (`SendPrompt` for the
 * batch path, `SendPromptStream` for the streaming path, with the
 * `new_texts` generator as `NextNewText`) proved against it, and lemmas
 * about the specification.
 */
module Detector {
  import opened Strings

  datatype Option<T> = None | Some(value: T)

  /** One attempt to read a message block: its text, or a read that raised. */
  datatype Read = Text(text: string) | Failed

  /** The reads of one poll, in the page's enumeration order. */
  type Poll = seq<Read>

  /** An event of the streaming path. */
  datatype Event = Log(message: string) | Answer(message: string)

  /** The number of polls before the detector gives up. */
  const MaxPolls: nat := 60

  /** The completion sentinel, matched as a plain substring. */
  const EndToken: string := "END"

  const TimeoutMessage: string := "[❌] Manus response did not include END in time."

  const WaitingLine: string := "📡 waiting for END token…"

  /** The line logged before the prompt is typed in: its first 60 characters. */
  function SendingLine(prompt: string): string {
    "🧠 sending prompt → " + Take(prompt, 60) + "…"
  }

  /** The line logged (batch) or emitted (stream) for a newly seen text. */
  function ReportLine(text: string): string {
    "💬 " + Strip(text)
  }

  // ---------------------------------------------------------------------
  // The page history

  function PollAt(polls: seq<Poll>, i: nat): Poll {
    if i < |polls| then polls[i] else []
  }

  /** The reads of the first `n` polls: poll order first, then block order. */
  function History(polls: seq<Poll>, n: nat): seq<Read> {
    if n == 0 then [] else History(polls, n - 1) + PollAt(polls, n - 1)
  }

  /** Everything the detector can look at: the reads of its 60 polls. */
  function Observed(polls: seq<Poll>): seq<Read> {
    History(polls, MaxPolls)
  }

  // ---------------------------------------------------------------------
  // Reference specification on the flat sequence of reads

  /**
   * The texts reported, in discovery order: a read adds its text if it has
   * one and that text was not reported before.
   */
  function NewTexts(r: seq<Read>): seq<string> {
    if r == [] then []
    else
      var d := NewTexts(r[..|r| - 1]);
      match r[|r| - 1]
      case Failed => d
      case Text(s) => if s in d then d else d + [s]
  }

  /** The position of the first text that contains the sentinel. */
  function FirstEnd(d: seq<string>): (k: Option<nat>)
    ensures k.Some? ==> k.value < |d| && Contains(d[k.value], EndToken)
    ensures forall i :: 0 <= i < |d| && (k.None? || i < k.value) ==> !Contains(d[i], EndToken)
  {
    if d == [] then None
    else if Contains(d[0], EndToken) then Some(0)
    else match FirstEnd(d[1..])
      case None => None
      case Some(k) => Some(k + 1)
  }

  /**
   * The outcome of detection over a sequence of reads: the raw texts
   * reported, and the text that ended detection, if any.
   */
  datatype Detection = Detection(reported: seq<string>, found: Option<string>)

  /**
   * Detection stops at the first new text containing the sentinel; its
   * report is the prefix of `NewTexts` that ends with that text, or all of
   * `NewTexts` when no text contains it.
   */
  function Detect(r: seq<Read>): (d: Detection)
    ensures d.reported <= NewTexts(r)
    ensures d.found.None? ==> d.reported == NewTexts(r)
    ensures d.found.Some? ==>
              |d.reported| > 0 && d.found.value == d.reported[|d.reported| - 1]
              && Contains(d.found.value, EndToken)
    ensures forall i :: 0 <= i < |d.reported| && (d.found.None? || i < |d.reported| - 1) ==>
              !Contains(d.reported[i], EndToken)
  {
    var n := NewTexts(r);
    match FirstEnd(n)
    case None => Detection(n, None)
    case Some(k) => Detection(n[..k + 1], Some(n[k]))
  }

  /** The answer of the batch path: the stripped text, `END` and all. */
  function BatchAnswer(d: Detection): string {
    match d.found
    case Some(x) => Strip(x)
    case None => TimeoutMessage
  }

  /** The answer of the streaming path: `END` removed once, then stripped. */
  function StreamAnswer(d: Detection): string {
    match d.found
    case Some(x) => Strip(RemoveAll(Strip(x), EndToken))
    case None => TimeoutMessage
  }

  function ReportLines(d: seq<string>): seq<string> {
    if d == [] then [] else ReportLines(d[..|d| - 1]) + [ReportLine(d[|d| - 1])]
  }

  function Logs(lines: seq<string>): seq<Event> {
    if lines == [] then [] else Logs(lines[..|lines| - 1]) + [Log(lines[|lines| - 1])]
  }

  /** The two lines logged before polling starts. */
  function Preamble(prompt: string): seq<string> {
    [SendingLine(prompt), WaitingLine]
  }

  /** Everything `SendPrompt` logs, in order. */
  function BatchLines(prompt: string, polls: seq<Poll>): seq<string> {
    Preamble(prompt) + ReportLines(Detect(Observed(polls)).reported)
  }

  /** Everything `SendPromptStream` yields, in order. */
  function StreamEvents(prompt: string, polls: seq<Poll>): seq<Event> {
    var d := Detect(Observed(polls));
    Logs(Preamble(prompt) + ReportLines(d.reported)) + [Answer(StreamAnswer(d))]
  }

  // ---------------------------------------------------------------------
  // Lemmas about the specification

  /** One more read: the step of the loops. */
  lemma NewTextsSnoc(p: seq<Read>, x: Read)
    ensures NewTexts(p + [x]) ==
              if x.Text? && x.text !in NewTexts(p) then NewTexts(p) + [x.text] else NewTexts(p)
  {
    assert (p + [x])[..|p|] == p;
  }

  /** A text is reported exactly when some read yielded it. */
  lemma {:induction false} NewTextsMembers(r: seq<Read>)
    ensures forall s :: s in NewTexts(r) <==> Text(s) in r
  {
    if r != [] {
      var p := r[..|r| - 1];
      NewTextsMembers(p);
      assert r == p + [r[|r| - 1]];
      NewTextsSnoc(p, r[|r| - 1]);
    }
  }

  /** Each distinct text is reported at most once. */
  lemma {:induction false} NewTextsDistinct(r: seq<Read>)
    ensures forall i, j :: 0 <= i < j < |NewTexts(r)| ==> NewTexts(r)[i] != NewTexts(r)[j]
  {
    if r != [] {
      var p := r[..|r| - 1];
      NewTextsDistinct(p);
      assert r == p + [r[|r| - 1]];
      NewTextsSnoc(p, r[|r| - 1]);
    }
  }

  /** The position of the first read that yielded `s`. */
  function FirstIndex(r: seq<Read>, s: string): (k: nat)
    requires Text(s) in r
    ensures k < |r| && r[k] == Text(s) && Text(s) !in r[..k]
  {
    assert r[0..] == r;
    FirstIndexFrom(r, s, 0)
  }

  /** The first position at or after `i` where `r` reads `s`. */
  function FirstIndexFrom(r: seq<Read>, s: string, i: nat): (k: nat)
    requires i <= |r| && Text(s) in r[i..]
    ensures i <= k < |r| && r[k] == Text(s)
    ensures forall m :: i <= m < k ==> r[m] != Text(s)
    decreases |r| - i
  {
    if r[i] == Text(s) then i
    else
      assert r[i..] == [r[i]] + r[i + 1..];
      FirstIndexFrom(r, s, i + 1)
  }

  lemma FirstIndexSnoc(p: seq<Read>, x: Read, s: string)
    requires Text(s) in p + [x]
    ensures Text(s) in p ==> FirstIndex(p + [x], s) == FirstIndex(p, s)
    ensures Text(s) !in p ==> FirstIndex(p + [x], s) == |p|
  {
    var k := FirstIndex(p + [x], s);
    if Text(s) in p {
      var k0 := FirstIndex(p, s);
      assert (p + [x])[..k0 + 1] == p[..k0 + 1];
      assert Text(s) in p[..k0 + 1];
      assert k <= k0;
      assert p[..k] == (p + [x])[..k];
      assert k0 <= k;
    } else {
      assert (p + [x])[..|p|] == p;
    }
  }

  /** Texts are reported in the order in which they were first read. */
  lemma {:induction false} NewTextsInDiscoveryOrder(r: seq<Read>)
    ensures forall s :: s in NewTexts(r) ==> Text(s) in r
    ensures forall i, j :: 0 <= i < j < |NewTexts(r)| ==>
              FirstIndex(r, NewTexts(r)[i]) < FirstIndex(r, NewTexts(r)[j])
  {
    NewTextsMembers(r);
    if r != [] {
      var p, x := r[..|r| - 1], r[|r| - 1];
      assert r == p + [x];
      NewTextsInDiscoveryOrder(p);
      forall i, j | 0 <= i < j < |NewTexts(r)|
        ensures FirstIndex(r, NewTexts(r)[i]) < FirstIndex(r, NewTexts(r)[j])
      {
        DiscoveryOrderStep(p, x, i, j);
      }
    }
  }

  /** The step of `NewTextsInDiscoveryOrder`: one more read keeps the order. */
  lemma DiscoveryOrderStep(p: seq<Read>, x: Read, i: nat, j: nat)
    requires forall s :: s in NewTexts(p) ==> Text(s) in p
    requires forall i, j :: 0 <= i < j < |NewTexts(p)| ==>
               FirstIndex(p, NewTexts(p)[i]) < FirstIndex(p, NewTexts(p)[j])
    requires i < j < |NewTexts(p + [x])|
    ensures Text(NewTexts(p + [x])[i]) in p + [x] && Text(NewTexts(p + [x])[j]) in p + [x]
    ensures FirstIndex(p + [x], NewTexts(p + [x])[i]) < FirstIndex(p + [x], NewTexts(p + [x])[j])
  {
    NewTextsSnoc(p, x);
    var d, d' := NewTexts(p), NewTexts(p + [x]);
    assert d' == d || (x.Text? && x.text !in d && d' == d + [x.text]);
    assert d'[i] == d[i];
    assert Text(d[i]) in p;
    FirstIndexSnoc(p, x, d[i]);
    if j < |d| {
      assert d'[j] == d[j];
      assert Text(d[j]) in p;
      FirstIndexSnoc(p, x, d[j]);
    } else {
      assert d'[j] == x.text;
      assert Text(x.text) !in p by { NewTextsMembers(p); }
      FirstIndexSnoc(p, x, x.text);
      assert FirstIndex(p, d[i]) < |p|;
    }
  }

  /** Reads that fail or repeat a reported text report nothing. */
  lemma {:induction false} SkippedReadsAreSilent(p: seq<Read>, t: seq<Read>)
    requires forall k :: 0 <= k < |t| ==> t[k].Failed? || t[k].text in NewTexts(p)
    ensures NewTexts(p + t) == NewTexts(p)
  {
    if t != [] {
      var t', x := t[..|t| - 1], t[|t| - 1];
      assert p + t == (p + t') + [x];
      assert forall k :: 0 <= k < |t'| ==> t'[k] == t[k];
      SkippedReadsAreSilent(p, t');
      assert x.Failed? || x.text in NewTexts(p + t');
      NewTextsSnoc(p + t', x);
    } else {
      assert p + t == p;
    }
  }

  /**
   * A later poll that only repeats texts already read changes nothing: the
   * same texts are reported and detection ends the same way.
   */
  lemma RepeatsAreSilent(r: seq<Read>, t: seq<Read>)
    requires forall k :: 0 <= k < |t| ==> t[k].Failed? || t[k] in r
    ensures NewTexts(r + t) == NewTexts(r)
    ensures Detect(r + t) == Detect(r)
  {
    NewTextsMembers(r);
    SkippedReadsAreSilent(r, t);
  }

  /** A read that raises is skipped: it is as if the block had not been there. */
  lemma FailedReadIsSkipped(r1: seq<Read>, r2: seq<Read>)
    ensures NewTexts(r1 + [Failed] + r2) == NewTexts(r1 + r2)
    ensures Detect(r1 + [Failed] + r2) == Detect(r1 + r2)
  {
    FailedReadAddsNothing(r1, r2);
  }

  lemma {:induction false} FailedReadAddsNothing(r1: seq<Read>, r2: seq<Read>)
    ensures NewTexts(r1 + [Failed] + r2) == NewTexts(r1 + r2)
  {
    if r2 == [] {
      assert r1 + [Failed] + r2 == r1 + [Failed];
      assert r1 + r2 == r1;
      NewTextsSnoc(r1, Failed);
    } else {
      var r2', x := r2[..|r2| - 1], r2[|r2| - 1];
      assert r1 + [Failed] + r2 == (r1 + [Failed] + r2') + [x];
      assert r1 + r2 == (r1 + r2') + [x];
      FailedReadAddsNothing(r1, r2');
      NewTextsSnoc(r1 + [Failed] + r2', x);
      NewTextsSnoc(r1 + r2', x);
    }
  }

  /** Reading more never takes back a report: the old report is a prefix. */
  lemma {:induction false} NewTextsGrow(q: seq<Read>, t: seq<Read>)
    ensures NewTexts(q) <= NewTexts(q + t)
  {
    if t != [] {
      var t', x := t[..|t| - 1], t[|t| - 1];
      assert q + t == (q + t') + [x];
      NewTextsGrow(q, t');
      NewTextsSnoc(q + t', x);
      var a, b, c := NewTexts(q), NewTexts(q + t'), NewTexts(q + t);
      assert b <= c;
      assert c[..|a|] == b[..|a|] == a;
    } else {
      assert q + t == q;
    }
  }

  /** Once the sentinel has been found, later reads are never looked at. */
  lemma StopsAtFirstEnd(q: seq<Read>, t: seq<Read>)
    requires Detect(q).found.Some?
    ensures Detect(q + t) == Detect(q)
  {
    var n, n' := NewTexts(q), NewTexts(q + t);
    NewTextsGrow(q, t);
    var k := FirstEnd(n).value;
    assert n'[k] == n[k];
    assert forall i :: 0 <= i < k ==> n'[i] == n[i];
    var k' := FirstEnd(n').value;
    assert k' == k;
    assert n'[..k + 1] == n[..k + 1];
  }

  /**
   * Detection succeeds exactly when some read of the history yielded a text
   * containing the sentinel; otherwise the detector times out.
   */
  lemma FoundIffSomeTextHasEnd(r: seq<Read>)
    ensures Detect(r).found.Some? <==>
              exists k :: 0 <= k < |r| && r[k].Text? && Contains(r[k].text, EndToken)
  {
    NewTextsMembers(r);
    var n := NewTexts(r);
    if k :| 0 <= k < |r| && r[k].Text? && Contains(r[k].text, EndToken) {
      assert r[k].text in n;
      var i :| 0 <= i < |n| && n[i] == r[k].text;
      assert FirstEnd(n).Some?;
    }
    if Detect(r).found.Some? {
      var s := Detect(r).found.value;
      assert s in n;
      assert Text(s) in r;
      var k :| 0 <= k < |r| && r[k] == Text(s);
      assert r[k].Text? && Contains(r[k].text, EndToken);
    }
  }

  /** The history of `n` polls starts with the history of fewer polls. */
  lemma {:induction false} HistoryGrows(polls: seq<Poll>, i: nat, n: nat)
    requires i <= n
    ensures History(polls, i) <= History(polls, n)
    decreases n
  {
    if i < n {
      HistoryGrows(polls, i, n - 1);
    }
  }

  /**
   * The reads of poll `i` come right after those of the polls before it,
   * in any longer history: discovery order is poll order first, then block
   * order within a poll.
   */
  lemma HistoryLayout(polls: seq<Poll>, i: nat, n: nat)
    requires i < n
    ensures History(polls, i) + PollAt(polls, i) <= History(polls, n)
  {
    HistoryGrows(polls, i + 1, n);
  }

  /** The detector never looks beyond poll 60. */
  lemma {:induction false} HistoryIgnoresLaterPolls(p1: seq<Poll>, p2: seq<Poll>, n: nat)
    requires forall i :: 0 <= i < n ==> PollAt(p1, i) == PollAt(p2, i)
    ensures History(p1, n) == History(p2, n)
  {
    if n > 0 {
      HistoryIgnoresLaterPolls(p1, p2, n - 1);
    }
  }

  /** Polls the history does not hold read as empty pages. */
  lemma {:induction false} HistoryPastEnd(polls: seq<Poll>, n: nat)
    requires n >= |polls|
    ensures History(polls, n) == History(polls, |polls|)
  {
    if n > |polls| {
      HistoryPastEnd(polls, n - 1);
      assert PollAt(polls, n - 1) == [];
    }
  }

  lemma ObservesAtMostMaxPolls(p1: seq<Poll>, p2: seq<Poll>)
    requires forall i :: 0 <= i < MaxPolls ==> PollAt(p1, i) == PollAt(p2, i)
    ensures Observed(p1) == Observed(p2)
    ensures BatchAnswer(Detect(Observed(p1))) == BatchAnswer(Detect(Observed(p2)))
    ensures StreamAnswer(Detect(Observed(p1))) == StreamAnswer(Detect(Observed(p2)))
    ensures forall prompt :: BatchLines(prompt, p1) == BatchLines(prompt, p2)
    ensures forall prompt :: StreamEvents(prompt, p1) == StreamEvents(prompt, p2)
  {
    HistoryIgnoresLaterPolls(p1, p2, MaxPolls);
  }

  lemma {:induction false} LogsShape(lines: seq<string>)
    ensures |Logs(lines)| == |lines|
    ensures forall k :: 0 <= k < |lines| ==> Logs(lines)[k] == Log(lines[k])
  {
    if lines != [] {
      var p := lines[..|lines| - 1];
      LogsShape(p);
      assert Logs(lines) == Logs(p) + [Log(lines[|lines| - 1])];
      forall k | 0 <= k < |lines| ensures Logs(lines)[k] == Log(lines[k]) {
        if k < |p| {
          assert p[k] == lines[k];
        }
      }
    }
  }

  lemma {:induction false} ReportLinesShape(d: seq<string>)
    ensures |ReportLines(d)| == |d|
    ensures forall k :: 0 <= k < |d| ==> ReportLines(d)[k] == ReportLine(d[k])
  {
    if d != [] {
      var p := d[..|d| - 1];
      ReportLinesShape(p);
      assert ReportLines(d) == ReportLines(p) + [ReportLine(d[|d| - 1])];
      forall k | 0 <= k < |d| ensures ReportLines(d)[k] == ReportLine(d[k]) {
        if k < |p| {
          assert p[k] == d[k];
        }
      }
    }
  }

  /**
   * The batch log: the prompt line, the waiting line, then one line per
   * reported text, in discovery order.
   */
  lemma BatchLinesLayout(prompt: string, polls: seq<Poll>)
    ensures var l, d := BatchLines(prompt, polls), Detect(Observed(polls)).reported;
            && |l| == 2 + |d| && l[0] == SendingLine(prompt) && l[1] == WaitingLine
            && forall k :: 0 <= k < |d| ==> l[2 + k] == ReportLine(d[k])
  {
    var d := Detect(Observed(polls)).reported;
    ReportLinesShape(d);
    var r := ReportLines(d);
    var l := BatchLines(prompt, polls);
    forall k | 0 <= k < |d| ensures l[2 + k] == ReportLine(d[k]) {
      assert l[2 + k] == r[k];
    }
  }

  /**
   * The streaming path yields log events only, then exactly one answer
   * event, last; on both the success and the timeout path.
   */
  lemma StreamEventsShape(prompt: string, polls: seq<Poll>)
    ensures var e := StreamEvents(prompt, polls);
            |e| >= 3 && e[|e| - 1].Answer? && forall k :: 0 <= k < |e| - 1 ==> e[k].Log?
  {
    var d := Detect(Observed(polls));
    ReportLinesShape(d.reported);
    LogsShape(Preamble(prompt) + ReportLines(d.reported));
  }

  /** Regrouping of a concatenation; a separate lemma keeps the caller's proof cheap. */
  lemma AppendTwo<T>(s: seq<T>, x: T, y: T)
    ensures s + [x, y] == (s + [x]) + [y]
  {
  }

  lemma ReportLinesSnoc(d: seq<string>, s: string)
    ensures ReportLines(d + [s]) == ReportLines(d) + [ReportLine(s)]
  {
    assert (d + [s])[..|d|] == d;
  }

  lemma LogsSnoc(lines: seq<string>, line: string)
    ensures Logs(lines + [line]) == Logs(lines) + [Log(line)]
  {
    assert (lines + [line])[..|lines|] == lines;
  }

  /** The reads up to block `j` of poll `i` are a prefix of what is observed. */
  lemma PartialPollObserved(polls: seq<Poll>, i: nat, j: nat)
    requires i < MaxPolls && j <= |PollAt(polls, i)|
    ensures History(polls, i) + PollAt(polls, i)[..j] <= Observed(polls)
  {
    var h, q := History(polls, i), PollAt(polls, i);
    HistoryLayout(polls, i, MaxPolls);
    assert h + q == (h + q[..j]) + q[j..];
  }

  /** The state of either loop after reading `p`: `seen` holds the reported texts, none with the sentinel. */
  ghost predicate Scanned(seen: set<string>, p: seq<Read>) {
    && (forall s :: s in seen <==> s in NewTexts(p))
    && FirstEnd(NewTexts(p)).None?
  }

  /** Blocks whose read raises, or whose text was seen, are passed over. */
  lemma SkipStep(seen: set<string>, p: seq<Read>, t: seq<Read>)
    requires Scanned(seen, p)
    requires forall k :: 0 <= k < |t| ==> t[k].Failed? || t[k].text in seen
    ensures Scanned(seen, p + t) && NewTexts(p + t) == NewTexts(p)
  {
    SkippedReadsAreSilent(p, t);
  }

  /** A new text without the sentinel is reported and added to `seen`. */
  lemma NewStep(seen: set<string>, p: seq<Read>, s: string)
    requires Scanned(seen, p) && s !in seen && !Contains(s, EndToken)
    ensures Scanned(seen + {s}, p + [Text(s)])
    ensures NewTexts(p + [Text(s)]) == NewTexts(p) + [s]
  {
    NewTextsSnoc(p, Text(s));
    var d := NewTexts(p);
    assert forall i :: 0 <= i < |d| ==> (d + [s])[i] == d[i];
  }

  /**
   * The first new text that contains the sentinel ends detection, whatever
   * is read after it.
   */
  lemma HitEndsDetection(seen: set<string>, p: seq<Read>, s: string, whole: seq<Read>)
    requires Scanned(seen, p) && s !in seen && Contains(s, EndToken)
    requires p + [Text(s)] <= whole
    ensures Detect(whole) == Detection(NewTexts(p) + [s], Some(s))
  {
    var q := p + [Text(s)];
    NewTextsSnoc(p, Text(s));
    var d := NewTexts(p);
    var n := NewTexts(q);
    assert n == d + [s];
    assert n[|d|] == s;
    assert forall i :: 0 <= i < |d| ==> n[i] == d[i];
    assert FirstEnd(n) == Some(|d|);
    assert n[..|d| + 1] == n;
    assert whole == q + whole[|q|..];
    StopsAtFirstEnd(q, whole[|q|..]);
  }

  /** After all 60 polls without the sentinel, detection has timed out. */
  lemma TimedOut(seen: set<string>, r: seq<Read>)
    requires Scanned(seen, r)
    ensures Detect(r) == Detection(NewTexts(r), None)
  {
  }

  /** Reading block `j` of poll `i` extends the reads made so far by that block. */
  lemma PollStep(polls: seq<Poll>, i: nat, j: nat)
    requires j < |PollAt(polls, i)|
    ensures History(polls, i) + PollAt(polls, i)[..j + 1]
              == (History(polls, i) + PollAt(polls, i)[..j]) + [PollAt(polls, i)[j]]
  {
    assert PollAt(polls, i)[..j + 1] == PollAt(polls, i)[..j] + [PollAt(polls, i)[j]];
  }

  lemma SplitAt<T>(h: seq<T>, b: seq<T>, c: nat, k: nat)
    requires c <= k <= |b|
    ensures (h + b[..c]) + b[c..k] == h + b[..k]
  {
    assert b[..k] == b[..c] + b[c..k];
  }

  lemma SnocAt<T>(h: seq<T>, b: seq<T>, k: nat)
    requires k < |b|
    ensures (h + b[..k]) + [b[k]] == h + b[..k + 1]
  {
    assert b[..k + 1] == b[..k] + [b[k]];
  }

  /** Having read every block of poll `i` is having read the first `i + 1` polls. */
  lemma PollDone(polls: seq<Poll>, i: nat)
    ensures History(polls, i) + PollAt(polls, i)[..|PollAt(polls, i)|] == History(polls, i + 1)
  {
    assert PollAt(polls, i)[..|PollAt(polls, i)|] == PollAt(polls, i);
  }

  lemma StreamLogStep(head: seq<string>, d: seq<string>, s: string)
    ensures Logs(head + ReportLines(d + [s])) == Logs(head + ReportLines(d)) + [Log(ReportLine(s))]
  {
    ReportLinesSnoc(d, s);
    assert head + ReportLines(d + [s]) == (head + ReportLines(d)) + [ReportLine(s)];
    LogsSnoc(head + ReportLines(d), ReportLine(s));
  }

  // ---------------------------------------------------------------------
  // The state of either loop inside one poll, its steps and its ways out

  /** The reads made once the first `c` blocks of poll `i` are read. */
  function ReadSoFar(polls: seq<Poll>, i: nat, c: nat): seq<Read>
    requires c <= |PollAt(polls, i)|
  {
    History(polls, i) + PollAt(polls, i)[..c]
  }

  /** `"END" in text.strip()` exactly when `"END" in text`. */
  lemma StripKeepsEnd(s: string)
    ensures Contains(Strip(s), EndToken) <==> Contains(s, EndToken)
  {
    StripKeepsContains(s, EndToken);
  }

  /**
   * The stream answer is the batch answer with at least one `END` taken
   * out: it is at least three characters shorter. On a timeout both are
   * the timeout message.
   */
  lemma StreamAnswerDropsEnd(r: seq<Read>)
    ensures var d := Detect(r);
            && (d.found.Some? ==> |StreamAnswer(d)| + |EndToken| <= |BatchAnswer(d)|)
            && (d.found.None? ==> StreamAnswer(d) == BatchAnswer(d) == TimeoutMessage)
  {
    var d := Detect(r);
    if d.found.Some? {
      StripKeepsEnd(d.found.value);
    }
  }

  /** The first new text with the sentinel, found at block `k` of poll `i`, decides detection. */
  lemma HitOutcome(polls: seq<Poll>, i: nat, k: nat, seen: set<string>, s: string)
    requires i < MaxPolls && k < |PollAt(polls, i)| && PollAt(polls, i)[k] == Text(s)
    requires Scanned(seen, ReadSoFar(polls, i, k)) && s !in seen && Contains(s, EndToken)
    ensures Detect(Observed(polls)) == Detection(NewTexts(ReadSoFar(polls, i, k)) + [s], Some(s))
  {
    PartialPollObserved(polls, i, k + 1);
    PollStep(polls, i, k);
    HitEndsDetection(seen, ReadSoFar(polls, i, k), s, Observed(polls));
  }

  /** The state of the batch loop before block `c` of poll `i`, with `start` logged before polling. */
  ghost predicate Logged(polls: seq<Poll>, i: nat, c: nat, seen: set<string>,
                         lines: seq<string>, start: seq<string>) {
    && c <= |PollAt(polls, i)|
    && Scanned(seen, ReadSoFar(polls, i, c))
    && lines == start + ReportLines(NewTexts(ReadSoFar(polls, i, c)))
  }

  /** Before polling, nothing has been read or logged after the preamble. */
  lemma BatchStart(polls: seq<Poll>, start: seq<string>)
    ensures Logged(polls, 0, 0, {}, start, start)
  {
    assert ReadSoFar(polls, 0, 0) == [];
  }

  /** Reading the last block of poll `i` is reaching the start of poll `i + 1`. */
  lemma BatchEnd(polls: seq<Poll>, i: nat, c: nat, seen: set<string>, lines: seq<string>, start: seq<string>)
    requires Logged(polls, i, c, seen, lines, start) && c >= |PollAt(polls, i)|
    ensures Logged(polls, i + 1, 0, seen, lines, start)
  {
    PollDone(polls, i);
    assert ReadSoFar(polls, i + 1, 0) == History(polls, i + 1);
  }

  /** After 60 polls without the sentinel the batch path logs no more and times out. */
  lemma BatchTimeout(polls: seq<Poll>, seen: set<string>, lines: seq<string>, start: seq<string>)
    requires Logged(polls, MaxPolls, 0, seen, lines, start)
    ensures lines == start + ReportLines(Detect(Observed(polls)).reported)
    ensures TimeoutMessage == BatchAnswer(Detect(Observed(polls)))
  {
    assert ReadSoFar(polls, MaxPolls, 0) == Observed(polls);
    TimedOut(seen, Observed(polls));
  }

  /** Block `k` raises or repeats a seen text: nothing is logged for it. */
  lemma BatchSkip(polls: seq<Poll>, i: nat, k: nat, seen: set<string>, lines: seq<string>, start: seq<string>)
    requires Logged(polls, i, k, seen, lines, start) && k < |PollAt(polls, i)|
    requires PollAt(polls, i)[k].Failed? || PollAt(polls, i)[k].text in seen
    ensures Logged(polls, i, k + 1, seen, lines, start)
  {
    SnocAt(History(polls, i), PollAt(polls, i), k);
    SkipStep(seen, ReadSoFar(polls, i, k), [PollAt(polls, i)[k]]);
  }

  /** Block `k` holds a new text without the sentinel: one line is logged. */
  lemma BatchNew(polls: seq<Poll>, i: nat, k: nat, seen: set<string>, lines: seq<string>,
                 start: seq<string>, s: string)
    requires Logged(polls, i, k, seen, lines, start)
    requires k < |PollAt(polls, i)| && PollAt(polls, i)[k] == Text(s)
    requires s !in seen && !Contains(s, EndToken)
    ensures Logged(polls, i, k + 1, seen + {s}, lines + [ReportLine(s)], start)
  {
    var done := ReadSoFar(polls, i, k);
    SnocAt(History(polls, i), PollAt(polls, i), k);
    NewStep(seen, done, s);
    ReportLinesSnoc(NewTexts(done), s);
  }

  /** Block `k` holds the first new text with the sentinel: the batch answer is found. */
  lemma BatchHit(polls: seq<Poll>, i: nat, k: nat, seen: set<string>, lines: seq<string>,
                 start: seq<string>, s: string)
    requires i < MaxPolls && Logged(polls, i, k, seen, lines, start)
    requires k < |PollAt(polls, i)| && PollAt(polls, i)[k] == Text(s)
    requires s !in seen && Contains(s, EndToken)
    ensures lines + [ReportLine(s)] == start + ReportLines(Detect(Observed(polls)).reported)
    ensures Strip(s) == BatchAnswer(Detect(Observed(polls)))
  {
    var done := ReadSoFar(polls, i, k);
    HitOutcome(polls, i, k, seen, s);
    ReportLinesSnoc(NewTexts(done), s);
  }

  /** The state of the streaming loop before block `c` of poll `i`. */
  ghost predicate Streamed(prompt: string, polls: seq<Poll>, i: nat, c: nat,
                           seen: set<string>, events: seq<Event>) {
    && c <= |PollAt(polls, i)|
    && Scanned(seen, ReadSoFar(polls, i, c))
    && events == Logs(Preamble(prompt) + ReportLines(NewTexts(ReadSoFar(polls, i, c))))
  }

  /** Before polling, the two preamble lines have been yielded. */
  lemma StreamStart(prompt: string, polls: seq<Poll>)
    ensures Streamed(prompt, polls, 0, 0, {}, [Log(SendingLine(prompt)), Log(WaitingLine)])
  {
    assert ReadSoFar(polls, 0, 0) == [];
    assert Preamble(prompt) + ReportLines([]) == [] + [SendingLine(prompt)] + [WaitingLine];
    LogsSnoc([], SendingLine(prompt));
    LogsSnoc([SendingLine(prompt)], WaitingLine);
  }

  /** Reading the last block of poll `i` is reaching the start of poll `i + 1`. */
  lemma StreamEnd(prompt: string, polls: seq<Poll>, i: nat, c: nat, seen: set<string>, events: seq<Event>)
    requires Streamed(prompt, polls, i, c, seen, events) && c >= |PollAt(polls, i)|
    ensures Streamed(prompt, polls, i + 1, 0, seen, events)
  {
    PollDone(polls, i);
    assert ReadSoFar(polls, i + 1, 0) == History(polls, i + 1);
  }

  /** Blocks `c` to `k` raise or repeat a seen text: nothing is yielded for them. */
  lemma StreamSkip(prompt: string, polls: seq<Poll>, i: nat, c: nat, k: nat,
                   seen: set<string>, events: seq<Event>)
    requires Streamed(prompt, polls, i, c, seen, events) && c <= k <= |PollAt(polls, i)|
    requires forall m :: c <= m < k ==> PollAt(polls, i)[m].Failed? || PollAt(polls, i)[m].text in seen
    ensures Streamed(prompt, polls, i, k, seen, events)
  {
    var b := PollAt(polls, i);
    SplitAt(History(polls, i), b, c, k);
    var t := b[c..k];
    forall m | 0 <= m < |t| ensures t[m].Failed? || t[m].text in seen {
      assert t[m] == b[c + m];
    }
    SkipStep(seen, ReadSoFar(polls, i, c), t);
  }

  /** Block `k` holds a new text without the sentinel: one log event is yielded. */
  lemma StreamNew(prompt: string, polls: seq<Poll>, i: nat, k: nat,
                  seen: set<string>, events: seq<Event>, s: string)
    requires Streamed(prompt, polls, i, k, seen, events)
    requires k < |PollAt(polls, i)| && PollAt(polls, i)[k] == Text(s)
    requires s !in seen && !Contains(s, EndToken)
    ensures Streamed(prompt, polls, i, k + 1, seen + {s}, events + [Log(ReportLine(s))])
  {
    var done := ReadSoFar(polls, i, k);
    SnocAt(History(polls, i), PollAt(polls, i), k);
    NewStep(seen, done, s);
    StreamLogStep(Preamble(prompt), NewTexts(done), s);
  }

  /** Block `k` holds the first new text with the sentinel: the stream is complete. */
  lemma StreamHit(prompt: string, polls: seq<Poll>, i: nat, k: nat,
                  seen: set<string>, events: seq<Event>, s: string)
    requires i < MaxPolls && Streamed(prompt, polls, i, k, seen, events)
    requires k < |PollAt(polls, i)| && PollAt(polls, i)[k] == Text(s)
    requires s !in seen && Contains(s, EndToken)
    ensures events + [Log(ReportLine(s)), Answer(Strip(RemoveAll(Strip(s), EndToken)))]
              == StreamEvents(prompt, polls)
  {
    var done := ReadSoFar(polls, i, k);
    HitOutcome(polls, i, k, seen, s);
    var head := Preamble(prompt);
    StreamLogStep(head, NewTexts(done), s);
    AppendTwo(Logs(head + ReportLines(NewTexts(done))), Log(ReportLine(s)),
              Answer(Strip(RemoveAll(Strip(s), EndToken))));
  }

  /** After 60 polls without the sentinel the stream ends with the timeout answer. */
  lemma StreamTimeout(prompt: string, polls: seq<Poll>, seen: set<string>, events: seq<Event>)
    requires Streamed(prompt, polls, MaxPolls, 0, seen, events)
    ensures events + [Answer(TimeoutMessage)] == StreamEvents(prompt, polls)
  {
    assert ReadSoFar(polls, MaxPolls, 0) == Observed(polls);
    TimedOut(seen, Observed(polls));
  }

  /** Regrouping the log after the preamble; a separate lemma keeps the caller's proof cheap. */
  lemma Regroup<T>(a: seq<T>, x: T, y: T, b: seq<T>)
    ensures (a + [x] + [y]) + b == a + ([x, y] + b)
  {
  }

  // ---------------------------------------------------------------------
  // The two polling loops

  /**
   * The `log` callback of the batch path: every line it is given is kept,
   * in call order.
   */
  class Logger {
    var lines: seq<string>

    constructor ()
      ensures lines == []
    {
      lines := [];
    }

    method Add(line: string)
      modifies this
      ensures lines == old(lines) + [line]
    {
      lines := lines + [line];
    }
  }

  /**
   * The batch path: logs the prompt line and the waiting line, then polls
   * up to 60 times; each new block text is added to `seen` and logged, and
   * the first new one containing "END" is returned stripped, with the
   * sentinel still in it. With no such text it returns the timeout message.
   */
  method SendPrompt(prompt: string, polls: seq<Poll>, log: Logger) returns (answer: string)
    modifies log
    ensures log.lines == old(log.lines) + BatchLines(prompt, polls)
    ensures answer == BatchAnswer(Detect(Observed(polls)))
  {
    ghost var before := log.lines;
    log.Add(SendingLine(prompt));
    log.Add(WaitingLine);
    ghost var start := log.lines;
    Regroup(before, SendingLine(prompt), WaitingLine, ReportLines(Detect(Observed(polls)).reported));
    var seen: set<string> := {};
    BatchStart(polls, start);
    for i := 0 to MaxPolls
      invariant Logged(polls, i, 0, seen, log.lines, start)
    {
      var hit;
      seen, hit := ScanPoll(polls, i, seen, log, start);
      if hit.Some? {
        return hit.value;
      }
    }
    BatchTimeout(polls, seen, log.lines, start);
    answer := TimeoutMessage;
  }

  /**
   * One poll of the batch path: the blocks of poll `i` are read in order;
   * a read that raises and a text already in `seen` are passed over, a new
   * text is added to `seen` and logged, and the first new text with "END"
   * ends the scan with the batch answer.
   */
  method ScanPoll(polls: seq<Poll>, i: nat, seen: set<string>, log: Logger, ghost start: seq<string>)
    returns (seen': set<string>, hit: Option<string>)
    requires i < MaxPolls && Logged(polls, i, 0, seen, log.lines, start)
    modifies log
    ensures hit.None? ==> Logged(polls, i + 1, 0, seen', log.lines, start)
    ensures hit.Some? ==>
              && log.lines == start + ReportLines(Detect(Observed(polls)).reported)
              && hit.value == BatchAnswer(Detect(Observed(polls)))
  {
    var blocks := PollAt(polls, i);
    seen' := seen;
    for j := 0 to |blocks|
      invariant Logged(polls, i, j, seen', log.lines, start)
    {
      match blocks[j] {
        case Failed =>
          // The read raised: the block is skipped and `seen` is unchanged.
          BatchSkip(polls, i, j, seen', log.lines, start);
        case Text(text) =>
          if text !in seen' {
            if Contains(text, EndToken) {
              BatchHit(polls, i, j, seen', log.lines, start, text);
              log.Add(ReportLine(text));
              return seen', Some(Strip(text));
            }
            BatchNew(polls, i, j, seen', log.lines, start, text);
            seen' := seen' + {text};
            log.Add(ReportLine(text));
          } else {
            BatchSkip(polls, i, j, seen', log.lines, start);
          }
      }
    }
    BatchEnd(polls, i, |blocks|, seen', log.lines, start);
    hit := None;
  }

  /**
   * The `new_texts` generator of the streaming path, resumed at block
   * `from`: it skips blocks whose read raises or whose text is in `seen`,
   * and stops after the next new text, which it adds to `seen` and yields
   * stripped. `next` is where it resumes; `None` means the poll is done.
   */
  method NextNewText(blocks: Poll, from: nat, seen: set<string>)
    returns (next: nat, txt: Option<string>, seen': set<string>)
    requires from <= |blocks|
    ensures from <= next <= |blocks|
    ensures txt.None? ==> next == |blocks| && seen' == seen
    ensures txt.Some? ==>
              from < next && blocks[next - 1].Text? && blocks[next - 1].text !in seen
              && txt.value == Strip(blocks[next - 1].text)
              && seen' == seen + {blocks[next - 1].text}
    ensures forall k :: from <= k < (if txt.Some? then next - 1 else next) ==>
              blocks[k].Failed? || blocks[k].text in seen
  {
    next := from;
    while next < |blocks|
      invariant from <= next <= |blocks|
      invariant forall k :: from <= k < next ==> blocks[k].Failed? || blocks[k].text in seen
    {
      var b := blocks[next];
      next := next + 1;
      match b
      case Failed =>
      case Text(text) =>
        if text !in seen {
          return next, Some(Strip(text)), seen + {text};
        }
    }
    return next, None, seen;
  }

  /**
   * The streaming path: yields the prompt line and the waiting line, then
   * polls up to 60 times, yielding a log event for each new text; on the
   * first new text containing "END" it yields one answer event, the text
   * with "END" replaced once and stripped, and stops. With no such text the
   * single answer event is the timeout message.
   */
  method SendPromptStream(prompt: string, polls: seq<Poll>) returns (events: seq<Event>)
    ensures events == StreamEvents(prompt, polls)
    ensures |events| >= 3 && events[|events| - 1].Answer?
    ensures forall k :: 0 <= k < |events| - 1 ==> events[k].Log?
  {
    events := [Log(SendingLine(prompt)), Log(WaitingLine)];
    var seen: set<string> := {};
    StreamStart(prompt, polls);
    StreamEventsShape(prompt, polls);
    for i := 0 to MaxPolls
      invariant Streamed(prompt, polls, i, 0, seen, events)
    {
      var stop;
      seen, events, stop := StreamPoll(prompt, polls, i, seen, events);
      if stop {
        return;
      }
    }
    StreamTimeout(prompt, polls, seen, events);
    events := events + [Answer(TimeoutMessage)];
  }

  /**
   * One poll of the streaming path: draws the new texts of poll `i` from
   * `NextNewText` and appends a log event for each; the first with "END"
   * appends the answer event as well and stops the stream.
   */
  method StreamPoll(prompt: string, polls: seq<Poll>, i: nat, seen: set<string>, events: seq<Event>)
    returns (seen': set<string>, events': seq<Event>, stop: bool)
    requires i < MaxPolls && Streamed(prompt, polls, i, 0, seen, events)
    ensures !stop ==> Streamed(prompt, polls, i + 1, 0, seen', events')
    ensures stop ==> events' == StreamEvents(prompt, polls)
  {
    var blocks := PollAt(polls, i);
    seen', events' := seen, events;
    var cursor := 0;
    while cursor < |blocks|
      invariant Streamed(prompt, polls, i, cursor, seen', events')
      decreases |blocks| - cursor
    {
      var next, txt, seen'' := NextNewText(blocks, cursor, seen');
      ghost var skipTo := if txt.Some? then next - 1 else next;
      StreamSkip(prompt, polls, i, cursor, skipTo, seen', events');
      match txt {
        case None =>
          cursor := next;
        case Some(t) =>
          ghost var raw := blocks[skipTo].text;
          StripKeepsEnd(raw);
          if Contains(t, EndToken) {
            StreamHit(prompt, polls, i, skipTo, seen', events', raw);
            events' := events' + [Log("💬 " + t), Answer(Strip(RemoveAll(t, EndToken)))];
            return seen', events', true;
          }
          StreamNew(prompt, polls, i, skipTo, seen', events', raw);
          seen', cursor := seen'', next;
          events' := events' + [Log("💬 " + t)];
      }
    }
    StreamEnd(prompt, polls, i, cursor, seen', events');
    stop := false;
  }
}
