/** An independent description of what the diagnostic parser returns,
    block by block, and the properties that follow from it. */
module MessageSpec {
  import opened Results
  import opened Text
  import opened Message
  import opened Seqs

  /** `n` copies of `s`. */
  function Repeat(s: string, n: nat): string {
    if n == 0 then "" else s + Repeat(s, n - 1)
  }

  /** The detail a message ends with after the non-header lines `body`:
      empty lines before the first non-empty one leave it empty, the first
      non-empty line is kept verbatim, and each later line adds
      `DetailSuffix` whatever it holds. */
  function DetailOf(body: seq<string>): string {
    if |body| == 0 then ""
    else if body[0] == "" then DetailOf(body[1..])
    else body[0] + Repeat(DetailSuffix, |body| - 1)
  }

  /** The index of the first header line at or after `from`, or `|lines|`. */
  function NextHeader(lines: seq<string>, from: nat): (j: nat)
    requires from <= |lines|
    ensures from <= j <= |lines|
    ensures forall k | from <= k < j :: !IsHeader(lines[k])
    ensures j < |lines| ==> IsHeader(lines[j])
    decreases |lines| - from
  {
    if from == |lines| || IsHeader(lines[from]) then from else NextHeader(lines, from + 1)
  }

  /** The messages of `lines` read as blocks: each header line with the
      non-header lines up to the next header; lines before the first header
      belong to no message. */
  function Blocks(lines: seq<string>): (r: seq<CompileMessage>)
    ensures |r| == CountHeaders(lines)
    decreases |lines|
  {
    if |lines| == 0 then []
    else if !IsHeader(lines[0]) then Blocks(lines[1..])
    else
      var j := NextHeader(lines, 1);
      NoHeadersCount(lines[1..j]);
      CountHeadersAppend(lines[1..j], lines[j..]);
      assert lines[1..] == lines[1..j] + lines[j..];
      [HeaderMessage(lines[0]).(detail := DetailOf(lines[1..j]))] + Blocks(lines[j..])
  }

  /** The header lines of `lines`, in order. */
  function HeaderLines(lines: seq<string>): seq<string> {
    if |lines| == 0 then []
    else (if IsHeader(lines[0]) then [lines[0]] else []) + HeaderLines(lines[1..])
  }

  function FilePaths(msgs: seq<CompileMessage>): seq<string> {
    if |msgs| == 0 then [] else [msgs[0].filePath] + FilePaths(msgs[1..])
  }

  // ---------------------------------------------------------------------
  // Counting helpers

  lemma {:induction false} NoHeadersCount(lines: seq<string>)
    requires forall k | 0 <= k < |lines| :: !IsHeader(lines[k])
    ensures CountHeaders(lines) == 0
    decreases |lines|
  {
    if |lines| > 0 {
      NoHeadersCount(lines[1..]);
    }
  }

  lemma {:induction false} CountHeadersAppend(a: seq<string>, b: seq<string>)
    ensures CountHeaders(a + b) == CountHeaders(a) + CountHeaders(b)
    decreases |a|
  {
    if |a| == 0 {
      assert a + b == b;
    } else {
      CountHeadersAppend(a[1..], b);
      assert (a + b)[1..] == a[1..] + b;
    }
  }

  // ---------------------------------------------------------------------
  // The loop agrees with the blocks

  /** The open message after the non-header lines `body`. */
  function AppendAll(m: CompileMessage, body: seq<string>): CompileMessage
    decreases |body|
  {
    if |body| == 0 then m else AppendAll(AppendDetail(m, body[0]), body[1..])
  }

  /** Folding `AppendDetail` gives the closed form `DetailOf`, or a run of
      `DetailSuffix` after a detail that was already non-empty. */
  lemma {:induction false} AppendAllDetail(m: CompileMessage, body: seq<string>)
    ensures AppendAll(m, body)
         == m.(detail := if m.detail == "" then DetailOf(body) else m.detail + Repeat(DetailSuffix, |body|))
    decreases |body|
  {
    if |body| == 0 {
      assert m.detail + "" == m.detail;
    } else {
      var next := AppendDetail(m, body[0]);
      AppendAllDetail(next, body[1..]);
      if m.detail != "" {
        assert m.detail + DetailSuffix + Repeat(DetailSuffix, |body| - 1)
            == m.detail + Repeat(DetailSuffix, |body|);
      }
    }
  }

  /** Non-header lines only ever change the open (last) message. */
  lemma {:induction false} ParseLinesAbsorb(acc: seq<CompileMessage>, body: seq<string>, rest: seq<string>)
    requires |acc| > 0
    requires forall k | 0 <= k < |body| :: !IsHeader(body[k])
    ensures ParseLines(acc, body + rest)
         == ParseLines(acc[..|acc| - 1] + [AppendAll(acc[|acc| - 1], body)], rest)
    decreases |body|
  {
    if |body| == 0 {
      assert body + rest == rest;
      assert acc[..|acc| - 1] + [acc[|acc| - 1]] == acc;
    } else {
      var next := Step(acc, body[0]);
      assert next == acc[..|acc| - 1] + [AppendDetail(acc[|acc| - 1], body[0])];
      assert (body + rest)[0] == body[0];
      assert (body + rest)[1..] == body[1..] + rest;
      ParseLinesAbsorb(next, body[1..], rest);
      assert next[..|next| - 1] == acc[..|acc| - 1];
    }
  }

  /** From a message boundary the loop appends the blocks of the rest. */
  lemma {:induction false} ParseLinesBlocks(acc: seq<CompileMessage>, lines: seq<string>)
    requires |acc| == 0 || |lines| == 0 || IsHeader(lines[0])
    ensures ParseLines(acc, lines) == acc + Blocks(lines)
    decreases |lines|, 1
  {
    if |lines| == 0 {
      assert acc + [] == acc;
    } else if !IsHeader(lines[0]) {
      ParsePreambleBlocks(lines);
    } else {
      ParseHeaderBlocks(acc, lines);
    }
  }

  lemma {:induction false} ParsePreambleBlocks(lines: seq<string>)
    requires |lines| > 0 && !IsHeader(lines[0])
    ensures ParseLines([], lines) == Blocks(lines)
    decreases |lines|, 0
  {
    SkipPreambleLine(lines);
    ParseLinesBlocks([], lines[1..]);
  }

  lemma {:induction false} ParseHeaderBlocks(acc: seq<CompileMessage>, lines: seq<string>)
    requires |lines| > 0 && IsHeader(lines[0])
    ensures ParseLines(acc, lines) == acc + Blocks(lines)
    decreases |lines|, 0
  {
    var block, rest := ParseLinesHeaderBlock(acc, lines);
    ParseLinesBlocks(acc + [block], rest);
    AppendAssoc(acc, [block], Blocks(rest));
  }

  /** Before the first header a line opens nothing and closes nothing. */
  lemma SkipPreambleLine(lines: seq<string>)
    requires |lines| > 0 && !IsHeader(lines[0])
    ensures ParseLines([], lines) == ParseLines([], lines[1..])
    ensures Blocks(lines) == Blocks(lines[1..])
  {
    assert Step([], lines[0]) == [];
  }

  /** A header line and the non-header lines after it close one block;
      the rest of the lines starts at the next header. */
  lemma ParseLinesHeaderBlock(acc: seq<CompileMessage>, lines: seq<string>) returns (block: CompileMessage, rest: seq<string>)
    requires |lines| > 0 && IsHeader(lines[0])
    ensures |rest| < |lines|
    ensures |rest| == 0 || IsHeader(rest[0])
    ensures ParseLines(acc, lines) == ParseLines(acc + [block], rest)
    ensures Blocks(lines) == [block] + Blocks(rest)
  {
    var j := NextHeader(lines, 1);
    block := HeaderMessage(lines[0]).(detail := DetailOf(lines[1..j]));
    rest := lines[j..];
    var started := acc + [HeaderMessage(lines[0])];
    assert ParseLines(acc, lines) == ParseLines(started, lines[1..]);
    assert lines[1..] == lines[1..j] + rest;
    ParseLinesAbsorb(started, lines[1..j], rest);
    AppendAllDetail(HeaderMessage(lines[0]), lines[1..j]);
    assert started[..|started| - 1] + [AppendAll(started[|started| - 1], lines[1..j])] == acc + [block];
  }


  /** The parser returns the blocks of the lines it keeps. */
  lemma ParseIsBlocks(message: string)
    ensures ParseClangMessage(message) == Blocks(KeptLines(message))
  {
    ParseLinesBlocks([], KeptLines(message));
  }

  // ---------------------------------------------------------------------
  // Properties of the blocks

  /** One message per header line, opened by that line, in input order. */
  lemma {:induction false} BlocksFilePaths(lines: seq<string>)
    ensures FilePaths(Blocks(lines)) == HeaderLines(lines)
    decreases |lines|
  {
    if |lines| > 0 {
      if !IsHeader(lines[0]) {
        BlocksFilePaths(lines[1..]);
      } else {
        var j := NextHeader(lines, 1);
        var rest := lines[j..];
        BlocksFilePaths(rest);
        NoHeaderLines(lines[1..j]);
        HeaderLinesAppend(lines[1..j], rest);
        assert lines[1..] == lines[1..j] + rest;
        assert HeaderLines(lines[1..]) == HeaderLines(rest);
        var blk := HeaderMessage(lines[0]).(detail := DetailOf(lines[1..j]));
        var bs := Blocks(rest);
        assert Blocks(lines) == [blk] + bs;
        assert ([blk] + bs)[1..] == bs;
      }
    }
  }

  lemma {:induction false} NoHeaderLines(lines: seq<string>)
    requires forall k | 0 <= k < |lines| :: !IsHeader(lines[k])
    ensures HeaderLines(lines) == []
    decreases |lines|
  {
    if |lines| > 0 {
      NoHeaderLines(lines[1..]);
    }
  }

  lemma {:induction false} HeaderLinesAppend(a: seq<string>, b: seq<string>)
    ensures HeaderLines(a + b) == HeaderLines(a) + HeaderLines(b)
    decreases |a|
  {
    if |a| == 0 {
      assert a + b == b;
    } else {
      HeaderLinesAppend(a[1..], b);
      assert (a + b)[1..] == a[1..] + b;
      AppendAssoc(if IsHeader(a[0]) then [a[0]] else [], HeaderLines(a[1..]), HeaderLines(b));
    }
  }

  /** Lines before the first header are dropped. */
  lemma {:induction false} PreambleDropped(preamble: seq<string>, rest: seq<string>)
    requires forall k | 0 <= k < |preamble| :: !IsHeader(preamble[k])
    ensures Blocks(preamble + rest) == Blocks(rest)
    decreases |preamble|
  {
    if |preamble| == 0 {
      assert preamble + rest == rest;
    } else {
      assert (preamble + rest)[1..] == preamble[1..] + rest;
      PreambleDropped(preamble[1..], rest);
    }
  }

  lemma {:induction false} NextHeaderAppend(a: seq<string>, b: seq<string>, from: nat)
    requires from <= |a|
    requires |b| == 0 || IsHeader(b[0])
    ensures NextHeader(a + b, from) == NextHeader(a, from)
    decreases |a| - from
  {
    if from < |a| {
      assert (a + b)[from] == a[from];
      if !IsHeader(a[from]) {
        NextHeaderAppend(a, b, from + 1);
      }
    }
  }

  /** Text that starts on a header line parses independently of what came
      before it. */
  lemma {:induction false} BlocksAppend(a: seq<string>, b: seq<string>)
    requires |b| == 0 || IsHeader(b[0])
    ensures Blocks(a + b) == Blocks(a) + Blocks(b)
    decreases |a|
  {
    if |a| == 0 {
      assert a + b == b;
    } else {
      var ab := a + b;
      assert ab[0] == a[0];
      if !IsHeader(a[0]) {
        assert ab[1..] == a[1..] + b;
        BlocksAppend(a[1..], b);
      } else {
        var j := NextHeader(a, 1);
        NextHeaderAppend(a, b, 1);
        assert ab[1..j] == a[1..j];
        assert ab[j..] == a[j..] + b;
        BlocksAppend(a[j..], b);
        var blk := HeaderMessage(a[0]).(detail := DetailOf(a[1..j]));
        assert Blocks(ab) == [blk] + Blocks(ab[j..]);
        assert Blocks(a) == [blk] + Blocks(a[j..]);
        AppendAssoc([blk], Blocks(a[j..]), Blocks(b));
      }
    }
  }

  /** The closed form of the detail: the first non-empty line after the
      header, then one `DetailSuffix` per further line. */
  lemma {:induction false} DetailOfShape(pad: nat, first: string, more: seq<string>)
    requires first != ""
    ensures DetailOf(seq(pad, _ => "") + [first] + more) == first + Repeat(DetailSuffix, |more|)
    decreases pad
  {
    var body := seq(pad, _ => "") + [first] + more;
    if pad == 0 {
      assert body == [first] + more;
    } else {
      assert body[0] == "";
      assert body[1..] == seq(pad - 1, _ => "") + [first] + more;
      DetailOfShape(pad - 1, first, more);
    }
  }

  /** A detail never shows the content of the lines after its first: all
      the parser keeps of them is how many there were. */
  lemma DetailIgnoresLaterContent(first: string, more1: seq<string>, more2: seq<string>)
    requires first != "" && |more1| == |more2|
    ensures DetailOf([first] + more1) == DetailOf([first] + more2)
  {
    DetailOfShape(0, first, more1);
    DetailOfShape(0, first, more2);
    assert seq(0, _ => "") + [first] + more1 == [first] + more1;
    assert seq(0, _ => "") + [first] + more2 == [first] + more2;
  }

  // ---------------------------------------------------------------------
  // Consequences for the parser

  /** A stream ending in a line break, followed by a stream whose first
      line is a header, parses as the two parts one after the other. */
  lemma ParseConcat(a: string, b: string)
    requires |a| > 0 && a[|a| - 1] == '\n'
    requires |KeptLines(b)| == 0 || IsHeader(KeptLines(b)[0])
    ensures ParseClangMessage(a + b) == ParseClangMessage(a) + ParseClangMessage(b)
  {
    KeptLinesAppend(a, b);
    ParseIsBlocks(a + b);
    ParseIsBlocks(a);
    ParseIsBlocks(b);
    BlocksAppend(KeptLines(a), KeptLines(b));
  }

  /** After a line break the kept lines of two texts simply concatenate. */
  lemma KeptLinesAppend(a: string, b: string)
    requires |a| > 0 && a[|a| - 1] == '\n'
    ensures KeptLines(a + b) == KeptLines(a) + KeptLines(b)
  {
    var l, r, m := SplitOn(a, '\n'), SplitOn(b, '\n'), SplitOn(a + b, '\n');
    LastPieceEmpty(a);
    SplitOnAppend(a, b, '\n');
    MergeAfterEmpty(l, r, m);
    assert KeptLines(a + b) == m[..|m| - 1];
  }

  /** Merging after an empty last piece drops that piece: the kept pieces
      of the merge are the kept pieces of both sides. */
  lemma MergeAfterEmpty(l: seq<string>, r: seq<string>, m: seq<string>)
    requires |l| >= 1 && |r| >= 1 && l[|l| - 1] == ""
    requires m == Merge(l, r)
    ensures |m| >= 1 && m[..|m| - 1] == l[..|l| - 1] + r[..|r| - 1]
  {
    assert l[|l| - 1] + r[0] == r[0];
    assert m == l[..|l| - 1] + r;
  }

  /** A text ending in the separator ends with an empty piece. */
  lemma LastPieceEmpty(a: string)
    requires |a| > 0 && a[|a| - 1] == '\n'
    ensures var l := SplitOn(a, '\n'); l[|l| - 1] == ""
  {
    var a' := a[..|a| - 1];
    assert a == a' + "\n";
    SplitOnAppend(a', "\n", '\n');
    assert SplitOn("\n", '\n') == ["", ""];
  }

  /** No parsed message is ever at the error level: the level slot of the
      header match is always undefined. */
  lemma ParsedNeverError(message: string)
    ensures !ContainsError(ParseClangMessage(message))
  {
  }

  /** Consequently emitting parsed messages reaches no channel at all. */
  lemma ParsedEmitsNothing(message: string)
    ensures EmitCompileMessages(ParseClangMessage(message)) == []
  {
  }

  /** A clang header names its level with a whole word, which the
      one-character `\w` slot does not accept. */
  lemma ClangHeaderRejected()
    ensures !IsHeader("main.c:3:5: error: x")
  {
    var line := "main.c:3:5: error: x";
    assert line[|line| - 6] == 'r';
  }

  /** A header the pattern does accept: one-character level and summary. */
  lemma ShortHeaderAccepted()
    ensures IsHeader("main.c:3:5: e: x")
  {
    var line := "main.c:3:5: e: x";
    assert HeaderSplit(line, 6, 8);
  }
}
