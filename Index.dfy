/** The entry point's console output: the line printed for each `stepUpdate`
    event, and the success and failure counts of a batch. */
module Index {
  import opened Wrappers
  import opened Strings
  import opened StepLogger
  import Organizer

  // ---------------------------------------------------------------- the event line

  /** The emoji that stands for a status. */
  function StatusEmoji(s: Status): (e: string)
    ensures |e| == 1 && e[0] != '\n'
  {
    match s
    case Processing => "\U{1F504}"
    case Completed => "\U{2705}"
    case Failed => "\U{274C}"
  }

  /** Reading an emoji back: the status it stands for, if any. */
  function EmojiStatus(e: string): Option<Status> {
    if e == "\U{1F504}" then Some(Processing)
    else if e == "\U{2705}" then Some(Completed)
    else if e == "\U{274C}" then Some(Failed)
    else None
  }

  /** Every status has its own emoji. */
  lemma EmojiRoundTrip(s: Status)
    ensures EmojiStatus(StatusEmoji(s)) == Some(s)
  {
  }

  /** The ANSI colour code that opens the line of a record at this level. */
  function LevelColor(l: Level): (c: string)
    ensures |c| == 5 && c[..2] == "\U{1B}[" && c[4] == 'm'
  {
    match l
    case Info => "\U{1B}[32m"
    case Warn => "\U{1B}[33m"
    case Error => "\U{1B}[31m"
  }

  const ResetColor: string := "\U{1B}[0m"

  /** `[time] emoji [taskId] step: message`; `time` is the start time as the locale
      formats it. */
  function Head(time: string, ev: StepEvent): string {
    "[" + time + "] " + StatusEmoji(ev.info.status) + " [" + ev.taskId + "] " + ev.info.step + ": " + ev.info.message
  }

  /** The duration suffix, present only when the duration is truthy: absent or 0 adds nothing. */
  function DurationSuffix(duration: Option<int>): (s: string)
    ensures s == "" <==> duration.None? || duration.value == 0
    ensures s != "" ==> '\n' !in s && StartsWith(s, " (") && EndsWith(s, "ms)")
  {
    if duration.Some? && duration.value != 0 then
      var d := IntToString(duration.value);
      " (耗时: " + d + "ms)"
    else ""
  }

  /** The error suffix, on a line of its own, present only when the error is truthy:
      absent or the empty string adds nothing. */
  function ErrorSuffix(error: Option<string>): (s: string)
    ensures s == "" <==> error.None? || error.value == ""
    ensures s != "" ==> s == "\n  错误: " + error.value
  {
    if error.Some? && error.value != "" then "\n" + ErrorLine(error.value) else ""
  }

  function ErrorLine(error: string): string {
    "  错误: " + error
  }

  /** The message built for one event, before colouring. */
  function LogMessage(time: string, ev: StepEvent): string {
    Head(time, ev) + DurationSuffix(ev.info.duration) + ErrorSuffix(ev.info.error)
  }

  /** What the listener writes to the console. */
  function ConsoleLine(time: string, ev: StepEvent): string {
    LevelColor(ev.info.level) + LogMessage(time, ev) + ResetColor
  }

  /** The line opens with the level's colour, closes with the reset code, and holds the
      message in between. */
  lemma ConsoleLineFrame(time: string, ev: StepEvent)
    ensures var line := ConsoleLine(time, ev);
      && StartsWith(line, LevelColor(ev.info.level))
      && EndsWith(line, ResetColor)
      && line[5..|line| - 4] == LogMessage(time, ev)
  {
    var line := ConsoleLine(time, ev);
    var c, m := LevelColor(ev.info.level), LogMessage(time, ev);
    assert line == c + m + ResetColor;
    assert line[..5] == c;
    assert line[|line| - 4..] == ResetColor;
    assert line[5..|line| - 4] == m;
  }

  /** The status can be read back from the character after `[time] `. */
  lemma StatusReadable(time: string, ev: StepEvent)
    ensures var m := LogMessage(time, ev);
      |m| > |time| + 3 && EmojiStatus([m[|time| + 3]]) == Some(ev.info.status)
  {
    var m := LogMessage(time, ev);
    var a := "[" + time + "] ";
    assert m[|a|] == StatusEmoji(ev.info.status)[0];
    assert [m[|a|]] == StatusEmoji(ev.info.status);
  }

  /** No newline in the parts of the first line. */
  predicate OneLine(time: string, ev: StepEvent) {
    '\n' !in time && '\n' !in ev.taskId && '\n' !in ev.info.step && '\n' !in ev.info.message
  }

  /** When the fields hold no newline, the message is one line, or two when the error is
      truthy (and itself one line), the second being `  错误: error`. */
  lemma MessageLines(time: string, ev: StepEvent)
    requires OneLine(time, ev)
    requires ev.info.error.Some? ==> '\n' !in ev.info.error.value
    ensures var first := Head(time, ev) + DurationSuffix(ev.info.duration);
      var lines := Split(LogMessage(time, ev), '\n');
      && (ev.info.error.None? || ev.info.error.value == "" ==> lines == [first])
      && (ev.info.error.Some? && ev.info.error.value != "" ==>
           lines == [first, ErrorLine(ev.info.error.value)])
  {
    var first := Head(time, ev) + DurationSuffix(ev.info.duration);
    assert '\n' !in StatusEmoji(ev.info.status);
    assert '\n' !in first;
    if ev.info.error.Some? && ev.info.error.value != "" {
      var second := ErrorLine(ev.info.error.value);
      assert '\n' !in second;
      var parts := [first, second];
      assert Join(parts, "\n") == LogMessage(time, ev);
      SplitJoin(parts, '\n');
    } else {
      assert LogMessage(time, ev) == first;
      SplitJoin([first], '\n');
    }
  }

  // ---------------------------------------------------------------- the batch counts

  /** `results.filter((r) => r.success)` */
  function Successes(results: seq<Organizer.VideoResult>): (s: seq<Organizer.VideoResult>)
    ensures forall r :: r in s ==> r in results && r.Success?
  {
    if results == [] then []
    else Successes(results[..|results| - 1]) + (if results[|results| - 1].Success? then [results[|results| - 1]] else [])
  }

  /** `results.filter((r) => !r.success)` */
  function Failures(results: seq<Organizer.VideoResult>): (s: seq<Organizer.VideoResult>)
    ensures forall r :: r in s ==> r in results && r.Failure?
  {
    if results == [] then []
    else Failures(results[..|results| - 1]) + (if results[|results| - 1].Failure? then [results[|results| - 1]] else [])
  }

  /** The two filters split the results between them: every result is counted once. */
  lemma {:induction false} CountsPartition(results: seq<Organizer.VideoResult>)
    ensures multiset(Successes(results)) + multiset(Failures(results)) == multiset(results)
    ensures |Successes(results)| + |Failures(results)| == |results|
  {
    if results != [] {
      CountsPartition(results[..|results| - 1]);
      CountsStep(results);
    }
  }

  /** The last result goes to exactly one of the two filters. */
  lemma CountsStep(results: seq<Organizer.VideoResult>)
    requires results != []
    ensures var init, last := results[..|results| - 1], results[|results| - 1];
      && multiset(Successes(results)) + multiset(Failures(results))
         == multiset(Successes(init)) + multiset(Failures(init)) + multiset{last}
      && |Successes(results)| + |Failures(results)| == |Successes(init)| + |Failures(init)| + 1
      && multiset(results) == multiset(init) + multiset{last}
  {
    var init, last := results[..|results| - 1], results[|results| - 1];
    assert results == init + [last];
    if last.Success? {
      assert Successes(results) == Successes(init) + [last];
      assert Failures(results) == Failures(init);
    } else {
      assert Successes(results) == Successes(init);
      assert Failures(results) == Failures(init) + [last];
    }
  }

  /** The completion message `处理完成：成功 s 个，失败 f 个`. */
  function CompletionMessage(successCount: nat, failCount: nat): string {
    "处理完成：成功 " + NatToString(successCount) + " 个，失败 " + NatToString(failCount) + " 个"
  }

  /** The message of a batch, from its results. */
  function BatchSummary(results: seq<Organizer.VideoResult>): string {
    CompletionMessage(|Successes(results)|, |Failures(results)|)
  }

  /** The completion message gives both counts back: different counts, different messages. */
  lemma CompletionMessageInjective(s1: nat, f1: nat, s2: nat, f2: nat)
    requires CompletionMessage(s1, f1) == CompletionMessage(s2, f2)
    ensures s1 == s2 && f1 == f2
  {
    var p, mid, q := "处理完成：成功 ", " 个，失败 ", " 个";
    var a1, b1, a2, b2 := NatToString(s1), NatToString(f1), NatToString(s2), NatToString(f2);
    CompletionMessageParts(s1, f1);
    CompletionMessageParts(s2, f2);
    DropPrefix(p, a1 + (mid + (b1 + q)), a2 + (mid + (b2 + q)));
    DigitsThenSpace(a1, mid + (b1 + q), a2, mid + (b2 + q));
    NatToStringInjective(s1, s2);
    DropPrefix(mid, b1 + q, b2 + q);
    DigitsThenSpace(b1, q, b2, q);
    NatToStringInjective(f1, f2);
  }

  lemma CompletionMessageParts(s: nat, f: nat)
    ensures CompletionMessage(s, f) == "处理完成：成功 " + (NatToString(s) + (" 个，失败 " + (NatToString(f) + " 个")))
  {
  }

  lemma DropPrefix(p: string, x: string, y: string)
    requires p + x == p + y
    ensures x == y
  {
    assert x == (p + x)[|p|..];
  }

  /** Two digit runs each followed by text opening with a space: if the whole strings
      agree, so do the runs and what follows them. */
  lemma DigitsThenSpace(a1: string, t1: string, a2: string, t2: string)
    requires forall i :: 0 <= i < |a1| ==> IsDigit(a1[i])
    requires forall i :: 0 <= i < |a2| ==> IsDigit(a2[i])
    requires |t1| > 0 && t1[0] == ' ' && |t2| > 0 && t2[0] == ' '
    requires a1 + t1 == a2 + t2
    ensures a1 == a2 && t1 == t2
  {
    if |a1| < |a2| {
      CharOfPrefix(a2, t2, |a1|);
    } else if |a2| < |a1| {
      CharOfPrefix(a1, t1, |a2|);
    } else {
      assert a1 == (a1 + t1)[..|a1|];
      assert a2 == (a2 + t2)[..|a2|];
      assert t1 == (a1 + t1)[|a1|..];
      assert t2 == (a2 + t2)[|a2|..];
    }
  }

  lemma CharOfPrefix(a: string, t: string, k: nat)
    requires k < |a|
    ensures (a + t)[k] == a[k]
  {
  }
}
