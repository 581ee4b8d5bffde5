/** Compiler diagnostics: the line-by-line parser of the compiler's error
    stream, the error test, and the routing of messages to the build's
    error, warning and log channels. */
module Message {
  import opened Seqs
  import opened Results
  import opened Text

  /** A compile message as the parser builds it. `line` and `column` are
      `None` where the number is NaN; `level` and `summary` are `None` where
      the value is `undefined`. */
  datatype CompileMessage = CompileMessage(
    filePath: string,
    line: Option<int>,
    column: Option<int>,
    level: Option<string>,
    summary: Option<string>,
    detail: string
  )

  // ---------------------------------------------------------------------
  // The header pattern /^(.+):(\d+):(\d+): (\w): (\w)$/g

  /** `line` matches the header pattern with the path ending before index
      `i` and the line number between `i` and `j`. The level and the summary
      are one `\w` character each, so the last six characters are fixed in
      shape; the column number runs from `j` to them. */
  predicate HeaderSplit(line: string, i: int, j: int)
    requires 0 < i && i + 1 < j && j + 1 < |line| - 6
  {
    var n := |line|;
    && (forall k | 0 <= k < i :: !IsLineTerminator(line[k]))
    && line[i] == ':'
    && (forall k | i < k < j :: IsDigit(line[k]))
    && line[j] == ':'
    && (forall k | j < k < n - 6 :: IsDigit(line[k]))
    && line[n - 6] == ':' && line[n - 5] == ' ' && IsWordChar(line[n - 4])
    && line[n - 3] == ':' && line[n - 2] == ' ' && IsWordChar(line[n - 1])
  }

  /** The whole line matches the header pattern. */
  predicate IsHeader(line: string) {
    exists i, j | 0 < i < |line| && 0 < j < |line| && i + 1 < j && j + 1 < |line| - 6 :: HeaderSplit(line, i, j)
  }

  /** Every line built as `path:line:column: l: s`, with a path free of
      line terminators, two digit runs and one word character each for
      the level and the summary, is a header. */
  lemma HeaderOfParts(path: string, ln: string, col: string, level: char, summary: char)
    requires |path| > 0 && forall k | 0 <= k < |path| :: !IsLineTerminator(path[k])
    requires |ln| > 0 && forall k | 0 <= k < |ln| :: IsDigit(ln[k])
    requires |col| > 0 && forall k | 0 <= k < |col| :: IsDigit(col[k])
    requires IsWordChar(level) && IsWordChar(summary)
    ensures IsHeader(path + ":" + ln + ":" + col + ": " + [level] + ": " + [summary])
  {
    var tail := ": " + [level] + ": " + [summary];
    var line := path + ":" + ln + ":" + col + ": " + [level] + ": " + [summary];
    var i, j := |path|, |path| + 1 + |ln|;
    assert line == path + ":" + ln + ":" + (col + tail);
    assert |tail| == 6 && |line| == j + 1 + |col| + 6;
    forall k | 0 <= k < i ensures !IsLineTerminator(line[k]) {
      assert line[k] == path[k];
    }
    forall k | i < k < j ensures IsDigit(line[k]) {
      assert line[k] == ln[k - i - 1];
    }
    forall k | j < k < |line| - 6 ensures IsDigit(line[k]) {
      assert line[k] == col[k - j - 1];
    }
    assert line[|line| - 6..] == tail;
    assert 0 < i < |line| && 0 < j < |line| && i + 1 < j && j + 1 < |line| - 6;
    assert HeaderSplit(line, i, j);
  }

  /** A header is at least 11 characters long and ends with `: l: s`, two
      word characters after colon-space pairs. */
  lemma HeaderShape(line: string)
    requires IsHeader(line)
    ensures |line| >= 11
    ensures line[|line| - 6..|line| - 4] == ": " && IsWordChar(line[|line| - 4])
    ensures line[|line| - 3..|line| - 1] == ": " && IsWordChar(line[|line| - 1])
    ensures !IsLineTerminator(line[0])
  {
    var i, j :| 0 < i < |line| && 0 < j < |line| && i + 1 < j && j + 1 < |line| - 6 && HeaderSplit(line, i, j);
  }

  /** The message a header line opens. With the `g` flag, `match` returns
      the list of whole matches, so slot 0 is the line itself and slots 1 to
      4 are `undefined`: the path is the entire line, `parseInt` gives NaN,
      and the level and summary stay undefined. */
  function HeaderMessage(line: string): CompileMessage {
    CompileMessage(line, None, None, None, None, "")
  }

  /** `'\n${line}'`: in single quotes `\n` is a line break but `${line}`
      is seven literal characters, not the line's content. */
  const DetailSuffix: string := "\n${line}"

  /** A non-header line met while a message is open: it becomes the
      detail while the detail is empty, and adds `DetailSuffix` after. */
  function AppendDetail(m: CompileMessage, line: string): CompileMessage {
    if |m.detail| > 0 then m.(detail := m.detail + DetailSuffix) else m.(detail := line)
  }

  /** One iteration of the loop: the open message is the last one pushed. */
  function Step(acc: seq<CompileMessage>, line: string): seq<CompileMessage> {
    if IsHeader(line) then acc + [HeaderMessage(line)]
    else if |acc| > 0 then acc[..|acc| - 1] + [AppendDetail(acc[|acc| - 1], line)]
    else acc
  }

  function CountHeaders(lines: seq<string>): nat {
    if |lines| == 0 then 0 else (if IsHeader(lines[0]) then 1 else 0) + CountHeaders(lines[1..])
  }

  /** No message carries a level, a summary or a position. */
  predicate AllUndefined(msgs: seq<CompileMessage>) {
    forall k | 0 <= k < |msgs| :: msgs[k].level.None? && msgs[k].summary.None? && msgs[k].line.None? && msgs[k].column.None?
  }

  /** The loop over `lines`, continuing from the messages `acc`. */
  function ParseLines(acc: seq<CompileMessage>, lines: seq<string>): (r: seq<CompileMessage>)
    ensures |r| == |acc| + CountHeaders(lines)
    ensures forall k | 0 <= k < |acc| - 1 :: r[k] == acc[k]
    ensures AllUndefined(acc) ==> AllUndefined(r)
    decreases |lines|
  {
    if |lines| == 0 then acc
    else
      StepFacts(acc, lines[0]);
      ParseLines(Step(acc, lines[0]), lines[1..])
  }

  /** One step opens a message on a header and otherwise touches at most
      the open one. */
  lemma StepFacts(acc: seq<CompileMessage>, line: string)
    ensures |Step(acc, line)| == |acc| + (if IsHeader(line) then 1 else 0)
    ensures forall k | 0 <= k < |acc| - 1 :: Step(acc, line)[k] == acc[k]
    ensures AllUndefined(acc) ==> AllUndefined(Step(acc, line))
  {
  }

  /** The lines the parser reads: split on `\n`, the last piece popped. */
  function KeptLines(message: string): (lines: seq<string>)
    ensures '\n' !in message ==> lines == []
  {
    var pieces := SplitOn(message, '\n');
    pieces[..|pieces| - 1]
  }

  /** `parseClangMessage(message)` */
  function ParseClangMessage(message: string): (r: seq<CompileMessage>)
    ensures '\n' !in message ==> r == []
    ensures |r| == CountHeaders(KeptLines(message))
    ensures AllUndefined(r)
  {
    ParseLines([], KeptLines(message))
  }

  /** `containsError(messages)` */
  predicate ContainsError(msgs: seq<CompileMessage>) {
    exists k | 0 <= k < |msgs| :: msgs[k].level == Some("error")
  }

  /** A list holds an error exactly when one of its parts does. */
  lemma ContainsErrorAppend(a: seq<CompileMessage>, b: seq<CompileMessage>)
    ensures ContainsError(a + b) <==> ContainsError(a) || ContainsError(b)
  {
    var ab := a + b;
    if ContainsError(ab) {
      var k :| 0 <= k < |ab| && ab[k].level == Some("error");
      if k < |a| {
        assert a[k] == ab[k];
      } else {
        assert b[k - |a|] == ab[k];
      }
    }
    if ContainsError(a) {
      var k :| 0 <= k < |a| && a[k].level == Some("error");
      assert ab[k] == a[k];
    }
    if ContainsError(b) {
      var k :| 0 <= k < |b| && b[k].level == Some("error");
      assert ab[|a| + k] == b[k];
    }
  }

  // ---------------------------------------------------------------------
  // Emitting

  datatype Channel = ErrorSink | WarningSink | ConsoleLog

  datatype Emission = Emission(channel: Channel, text: string)

  /** A number in a template literal. */
  function ShowNumber(n: Option<int>): string {
    match n
    case None => "NaN"
    case Some(v) => IntToDecimal(v)
  }

  /** A string-or-undefined value in a template literal. */
  function ShowString(s: Option<string>): string {
    match s
    case None => "undefined"
    case Some(v) => v
  }

  /** `${filePath}(${line},${column}): ${level}: ${summary}` and a line
      break before the detail. */
  function MessageText(m: CompileMessage): (t: string)
    ensures |t| > |m.filePath| + |m.detail| + 1
    ensures t[..|m.filePath| + 1] == m.filePath + "("
    ensures t[|t| - |m.detail| - 1..] == "\n" + m.detail
  {
    m.filePath + "(" + ShowNumber(m.line) + "," + ShowNumber(m.column) + "): "
      + ShowString(m.level) + ": " + ShowString(m.summary) + "\n" + m.detail
  }

  /** The `switch` on the level; any other level matches no case. */
  function Route(level: Option<string>): Option<Channel> {
    if level == Some("error") then Some(ErrorSink)
    else if level == Some("warning") then Some(WarningSink)
    else if level == Some("note") then Some(ConsoleLog)
    else None
  }

  /** Each channel is reached from one level only. */
  lemma RouteInjective(l1: Option<string>, l2: Option<string>)
    requires Route(l1).Some? && Route(l1) == Route(l2)
    ensures l1 == l2
  {
  }

  /** Exactly the three levels of the `switch` are routed; any other level,
      and a missing one, falls through. */
  lemma RouteLevels(level: Option<string>)
    ensures Route(level).Some? <==> level == Some("error") || level == Some("warning") || level == Some("note")
  {
  }

  /** Some emission goes to the error sink. */
  predicate ReachesErrorSink(r: seq<Emission>) {
    exists k | 0 <= k < |r| :: r[k].channel == ErrorSink
  }

  /** What one message emits: its text on the channel of its level, or
      nothing for a level the `switch` does not name. */
  function EmissionOf(m: CompileMessage): seq<Emission> {
    match Route(m.level)
    case Some(c) => [Emission(c, MessageText(m))]
    case None => []
  }

  /** `emitCompileMessages(context, messages)` as the sequence of calls it
      makes on the error sink, the warning sink and the console. */
  function EmitCompileMessages(msgs: seq<CompileMessage>): (r: seq<Emission>)
    ensures |r| <= |msgs|
    ensures ReachesErrorSink(r) <==> ContainsError(msgs)
    ensures (forall k | 0 <= k < |msgs| :: Route(msgs[k].level).None?) ==> r == []
    decreases |msgs|
  {
    if |msgs| == 0 then []
    else
      var head := EmissionOf(msgs[0]);
      var rest := EmitCompileMessages(msgs[1..]);
      ContainsErrorCons(msgs);
      ReachesErrorSinkAppend(head, rest);
      assert ReachesErrorSink(head) <==> msgs[0].level == Some("error") by {
        if msgs[0].level == Some("error") {
          assert head[0].channel == ErrorSink;
        }
      }
      head + rest
  }

  /** Every message of a named level is emitted, with its text, on its
      level's channel, and every emission is of some message that way. */
  lemma {:induction false} EmitMembers(msgs: seq<CompileMessage>)
    ensures var r := EmitCompileMessages(msgs);
      && (forall k | 0 <= k < |msgs| && Route(msgs[k].level).Some? ::
            Emission(Route(msgs[k].level).value, MessageText(msgs[k])) in r)
      && (forall e | e in r :: exists k | 0 <= k < |msgs| ::
            Route(msgs[k].level) == Some(e.channel) && e.text == MessageText(msgs[k]))
    decreases |msgs|
  {
    if |msgs| > 0 {
      EmitMembers(msgs[1..]);
      EmitStep(msgs, EmitCompileMessages(msgs[1..]));
    }
  }

  /** The messages the `switch` names a channel for, in order. */
  function Routed(msgs: seq<CompileMessage>): seq<CompileMessage>
    decreases |msgs|
  {
    if |msgs| == 0 then []
    else (if Route(msgs[0].level).Some? then [msgs[0]] else []) + Routed(msgs[1..])
  }

  /** `r` is one emission per message of `q`, in order, each the
      message's text on its level's channel. */
  predicate EmitsInOrder(r: seq<Emission>, q: seq<CompileMessage>) {
    && |r| == |q|
    && forall k | 0 <= k < |q| ::
         Route(q[k].level).Some? && r[k] == Emission(Route(q[k].level).value, MessageText(q[k]))
  }

  /** Exactly one emission per routed message, in the messages' order. */
  lemma {:induction false} EmitRouted(msgs: seq<CompileMessage>)
    ensures EmitsInOrder(EmitCompileMessages(msgs), Routed(msgs))
    decreases |msgs|
  {
    if |msgs| > 0 {
      EmitRouted(msgs[1..]);
      EmitCons(msgs);
      if Route(msgs[0].level).Some? {
        EmitsInOrderCons(msgs[0], EmitCompileMessages(msgs[1..]), Routed(msgs[1..]));
      } else {
        assert EmissionOf(msgs[0]) == [];
        assert EmitCompileMessages(msgs) == EmitCompileMessages(msgs[1..]);
        assert Routed(msgs) == Routed(msgs[1..]);
      }
    }
  }

  lemma EmitsInOrderCons(m: CompileMessage, r: seq<Emission>, q: seq<CompileMessage>)
    requires Route(m.level).Some? && EmitsInOrder(r, q)
    ensures EmitsInOrder(EmissionOf(m) + r, [m] + q)
  {
    var r2, q2 := EmissionOf(m) + r, [m] + q;
    forall k | 1 <= k < |q2|
      ensures Route(q2[k].level).Some? && r2[k] == Emission(Route(q2[k].level).value, MessageText(q2[k]))
    {
      assert q2[k] == q[k - 1] && r2[k] == r[k - 1];
    }
  }

  /** The text of a parsed message, whose numbers are NaN and whose level
      and summary are undefined. */
  lemma ParsedMessageText(m: CompileMessage)
    requires m.line.None? && m.column.None? && m.level.None? && m.summary.None?
    ensures MessageText(m) == m.filePath + "(NaN,NaN): undefined: undefined\n" + m.detail
  {
  }

  /** Membership in both directions carries over from the tail to the
      whole list. */
  lemma EmitStep(msgs: seq<CompileMessage>, rest: seq<Emission>)
    requires |msgs| > 0
    requires forall k | 0 <= k < |msgs| - 1 && Route(msgs[1..][k].level).Some? ::
      Emission(Route(msgs[1..][k].level).value, MessageText(msgs[1..][k])) in rest
    requires forall e | e in rest :: exists k | 0 <= k < |msgs| - 1 ::
      Route(msgs[1..][k].level) == Some(e.channel) && e.text == MessageText(msgs[1..][k])
    ensures var r := EmissionOf(msgs[0]) + rest;
      && (forall k | 0 <= k < |msgs| && Route(msgs[k].level).Some? ::
            Emission(Route(msgs[k].level).value, MessageText(msgs[k])) in r)
      && (forall e | e in r :: exists k | 0 <= k < |msgs| ::
            Route(msgs[k].level) == Some(e.channel) && e.text == MessageText(msgs[k]))
  {
    var r := EmissionOf(msgs[0]) + rest;
    forall k | 0 <= k < |msgs| && Route(msgs[k].level).Some?
      ensures Emission(Route(msgs[k].level).value, MessageText(msgs[k])) in r
    {
      if k > 0 {
        assert msgs[1..][k - 1] == msgs[k];
      }
    }
    forall e | e in r
      ensures exists k | 0 <= k < |msgs| :: Route(msgs[k].level) == Some(e.channel) && e.text == MessageText(msgs[k])
    {
      if e in rest {
        var j :| 0 <= j < |msgs| - 1 && Route(msgs[1..][j].level) == Some(e.channel) && e.text == MessageText(msgs[1..][j]);
        assert msgs[j + 1] == msgs[1..][j];
      } else {
        assert e in EmissionOf(msgs[0]);
      }
    }
  }

  /** One message: an error goes to the error sink, a warning to the
      warning sink, a note to the console, and any other level nowhere. */
  lemma EmitSingle(m: CompileMessage)
    ensures m.level == Some("error") ==> EmitCompileMessages([m]) == [Emission(ErrorSink, MessageText(m))]
    ensures m.level == Some("warning") ==> EmitCompileMessages([m]) == [Emission(WarningSink, MessageText(m))]
    ensures m.level == Some("note") ==> EmitCompileMessages([m]) == [Emission(ConsoleLog, MessageText(m))]
    ensures m.level !in {Some("error"), Some("warning"), Some("note")} ==> EmitCompileMessages([m]) == []
  {
    assert [m][1..] == [];
  }

  lemma EmitCons(msgs: seq<CompileMessage>)
    requires |msgs| > 0
    ensures EmitCompileMessages(msgs) == EmissionOf(msgs[0]) + EmitCompileMessages(msgs[1..])
  {
  }

  /** The loop emits the messages in order: emitting two lists is emitting
      the first, then the second. With `EmitSingle` this fixes the result
      on every list. */
  lemma {:induction false} EmitAppend(a: seq<CompileMessage>, b: seq<CompileMessage>)
    ensures EmitCompileMessages(a + b) == EmitCompileMessages(a) + EmitCompileMessages(b)
    decreases |a|
  {
    if |a| == 0 {
      assert a + b == b;
    } else {
      var ab := a + b;
      assert ab[0] == a[0] && ab[1..] == a[1..] + b;
      var h, ea, eb := EmissionOf(a[0]), EmitCompileMessages(a[1..]), EmitCompileMessages(b);
      EmitCons(ab);
      EmitAppend(a[1..], b);
      assert EmitCompileMessages(ab) == h + (ea + eb);
      EmitCons(a);
      AppendAssoc(h, ea, eb);
    }
  }


  lemma ContainsErrorCons(msgs: seq<CompileMessage>)
    requires |msgs| > 0
    ensures ContainsError(msgs) <==> msgs[0].level == Some("error") || ContainsError(msgs[1..])
  {
    if ContainsError(msgs[1..]) {
      var k :| 0 <= k < |msgs[1..]| && msgs[1..][k].level == Some("error");
      assert msgs[k + 1].level == Some("error");
    }
  }

  lemma ReachesErrorSinkAppend(head: seq<Emission>, rest: seq<Emission>)
    ensures ReachesErrorSink(head + rest) <==> ReachesErrorSink(head) || ReachesErrorSink(rest)
  {
    var r := head + rest;
    if ReachesErrorSink(rest) {
      var k :| 0 <= k < |rest| && rest[k].channel == ErrorSink;
      assert r[|head| + k] == rest[k];
    }
    if ReachesErrorSink(head) {
      var k :| 0 <= k < |head| && head[k].channel == ErrorSink;
      assert r[k] == head[k];
    }
    if ReachesErrorSink(r) {
      var k :| 0 <= k < |r| && r[k].channel == ErrorSink;
      if k >= |head| {
        assert rest[k - |head|] == r[k];
      }
    }
  }
}
