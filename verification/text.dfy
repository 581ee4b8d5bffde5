/** The JavaScript string operations the loader relies on: `trim`, `split`
    with a character or a regular expression, ASCII case folding for `/i`
    patterns, and decimal rendering of numbers. */
module Text {
  import opened Seqs

  /** Characters matched by `\s` in an ECMAScript regular expression and
      removed by `String.prototype.trim`: the WhiteSpace and LineTerminator
      productions. */
  predicate IsJsSpace(c: char) {
    || c == '\t' || c == '\n' || c == '\U{000B}' || c == '\U{000C}' || c == '\r'
    || c == ' ' || c == '\U{00A0}' || c == '\U{1680}' || ('\U{2000}' <= c <= '\U{200A}')
    || c == '\U{2028}' || c == '\U{2029}' || c == '\U{202F}' || c == '\U{205F}'
    || c == '\U{3000}' || c == '\U{FEFF}'
  }

  /** Characters that `.` in a regular expression does not match. */
  predicate IsLineTerminator(c: char) {
    c == '\n' || c == '\r' || c == '\U{2028}' || c == '\U{2029}'
  }

  /** `\d` */
  predicate IsDigit(c: char) {
    '0' <= c <= '9'
  }

  predicate IsAsciiLetter(c: char) {
    'a' <= c <= 'z' || 'A' <= c <= 'Z'
  }

  /** `\w` */
  predicate IsWordChar(c: char) {
    IsAsciiLetter(c) || IsDigit(c) || c == '_'
  }

  predicate NoSpace(s: string) {
    forall k | 0 <= k < |s| :: !IsJsSpace(s[k])
  }

  /** Neither end of `s` is whitespace. */
  predicate Trimmed(s: string) {
    |s| == 0 || (!IsJsSpace(s[0]) && !IsJsSpace(s[|s| - 1]))
  }

  function LowerAscii(c: char): char {
    if 'A' <= c <= 'Z' then (c as int + 32) as char else c
  }

  /** `/suffix$/i` for a lower-case ASCII `suffix`: outside ASCII the
      canonicalisation of a non-unicode `/i` pattern never maps a character
      onto an ASCII letter, so folding ASCII letters is exact. */
  predicate EndsWithIgnoringCase(s: string, suffix: string) {
    && |suffix| <= |s|
    && forall k | 0 <= k < |suffix| :: LowerAscii(s[|s| - |suffix| + k]) == suffix[k]
  }

  /** `s` equals the lower-case ASCII `lower` once folded to lower case. */
  predicate EqualsIgnoringCase(s: string, lower: string) {
    |s| == |lower| && forall k | 0 <= k < |s| :: LowerAscii(s[k]) == lower[k]
  }

  /** A dot-free extension written after a dot ends with `.x`, ignoring
      case, exactly when it is `x` ignoring case: the dot cannot fall
      inside the extension. */
  lemma DotSuffixIgnoringCase(ext: string, x: string)
    requires forall k | 0 <= k < |ext| :: ext[k] != '.'
    ensures EndsWithIgnoringCase("." + ext, "." + x) <==> EqualsIgnoringCase(ext, x)
  {
    if EndsWithIgnoringCase("." + ext, "." + x) {
      DotSuffixMatches(ext, x);
    }
    if EqualsIgnoringCase(ext, x) {
      DotSuffixOfEqual(ext, x);
    }
  }

  /** The same after any prefix, when `x` is dot-free too: a longer `.x`
      would have to put one of its letters on the extension's dot. */
  lemma DotSuffixAfter(pre: string, ext: string, x: string)
    requires forall i | 0 <= i < |ext| :: ext[i] != '.'
    requires forall i | 0 <= i < |x| :: x[i] != '.'
    ensures EndsWithIgnoringCase(pre + ("." + ext), "." + x) <==> EqualsIgnoringCase(ext, x)
  {
    var q, suf := "." + ext, "." + x;
    var s := pre + q;
    if |x| <= |ext| {
      assert s[|pre|..] == q;
      DotSuffixIgnoringCase(ext, x);
    } else if |suf| <= |s| {
      var k := |x| - |ext|;
      assert s[|s| - |suf| + k] == '.' && suf[k] == x[k - 1];
    }
  }

  lemma DotSuffixOfEqual(ext: string, x: string)
    requires EqualsIgnoringCase(ext, x)
    ensures EndsWithIgnoringCase("." + ext, "." + x)
  {
    var s, suf := "." + ext, "." + x;
    assert |s| == |suf|;
    forall k | 0 <= k < |suf|
      ensures LowerAscii(s[|s| - |suf| + k]) == suf[k]
    {
      if k > 0 {
        assert s[k] == ext[k - 1] && suf[k] == x[k - 1];
      }
    }
  }

  lemma DotSuffixMatches(ext: string, x: string)
    requires forall k | 0 <= k < |ext| :: ext[k] != '.'
    requires EndsWithIgnoringCase("." + ext, "." + x)
    ensures EqualsIgnoringCase(ext, x)
  {
    var s, suf := "." + ext, "." + x;
    forall k | 1 <= k < |s|
      ensures LowerAscii(s[k]) != '.'
    {
      assert s[k] == ext[k - 1];
    }
    assert LowerAscii(s[|s| - |suf|]) == suf[0];
    assert |s| == |suf|;
    forall k | 0 <= k < |ext|
      ensures LowerAscii(ext[k]) == x[k]
    {
      assert s[k + 1] == ext[k] && suf[k + 1] == x[k];
    }
  }

  /** `parts.join(sep)` */
  function Join(parts: seq<string>, sep: string): string {
    if |parts| == 0 then ""
    else if |parts| == 1 then parts[0]
    else parts[0] + sep + Join(parts[1..], sep)
  }

  /** Drops leading whitespace. */
  function TrimStart(s: string): (r: string)
    ensures |r| <= |s| && r == s[|s| - |r|..]
    ensures forall k | 0 <= k < |s| - |r| :: IsJsSpace(s[k])
    ensures |r| > 0 ==> !IsJsSpace(r[0])
  {
    if |s| > 0 && IsJsSpace(s[0]) then TrimStart(s[1..]) else s
  }

  /** Drops trailing whitespace. */
  function TrimEnd(s: string): (r: string)
    ensures |r| <= |s| && r == s[..|r|]
    ensures forall k | |r| <= k < |s| :: IsJsSpace(s[k])
    ensures |r| > 0 ==> !IsJsSpace(r[|r| - 1])
  {
    if |s| > 0 && IsJsSpace(s[|s| - 1]) then TrimEnd(s[..|s| - 1]) else s
  }

  /** `s.trim()` */
  function Trim(s: string): (r: string)
    ensures Trimmed(r)
    ensures |r| <= |s|
    ensures Trimmed(s) ==> r == s
  {
    TrimEnd(TrimStart(s))
  }

  /** Every string is its trimmed text between a leading and a trailing
      run of whitespace; with `TrimAround` this pins `Trim` down. */
  lemma TrimSplit(s: string) returns (lead: string, trail: string)
    ensures s == lead + Trim(s) + trail
    ensures AllSpace(lead) && AllSpace(trail)
  {
    var i := TrimUnfold(s);
    TrimEndOfSuffix(s, i);
    var r := TrimEnd(s[i..]);
    lead, trail := s[..i], s[i + |r|..];
    SplitThree(s, i, i + |r|);
  }

  lemma TrimUnfold(s: string) returns (i: nat)
    ensures i <= |s| && AllSpace(s[..i]) && Trim(s) == TrimEnd(s[i..])
  {
    i := |s| - |TrimStart(s)|;
  }

  /** Trimming the end of a suffix `s[i..]` keeps a slice of `s` that only
      whitespace follows. */
  lemma TrimEndOfSuffix(s: string, i: nat)
    requires i <= |s|
    ensures var r := TrimEnd(s[i..]);
            && i + |r| <= |s| && s[i..i + |r|] == r
            && forall k | i + |r| <= k < |s| :: IsJsSpace(s[k])
  {
    var t := s[i..];
    var r := TrimEnd(t);
    assert t[..|r|] == s[i..i + |r|];
    forall k | i + |r| <= k < |s|
      ensures IsJsSpace(s[k])
    {
      assert s[k] == t[k - i];
    }
  }

  /** `s.split(sep)` for a one-character separator. */
  function SplitOn(s: string, sep: char): (r: seq<string>)
    ensures |r| >= 1
    ensures forall i | 0 <= i < |r| :: sep !in r[i]
    ensures sep !in s ==> r == [s]
  {
    if |s| == 0 then [""]
    else
      var rest := SplitOn(s[1..], sep);
      if s[0] == sep then [""] + rest
      else
        assert sep !in s ==> [s[0]] + s[1..] == s;
        [[s[0]] + rest[0]] + rest[1..]
  }

  /** Gluing a character onto the first field glues it onto the joined text. */
  lemma JoinGlueFirst(c: char, parts: seq<string>, sep: string)
    requires |parts| >= 1
    ensures Join([[c] + parts[0]] + parts[1..], sep) == [c] + Join(parts, sep)
  {
    if |parts| > 1 {
      assert ([[c] + parts[0]] + parts[1..])[1..] == parts[1..];
    }
  }

  /** Joining the fields with the separator gives back the text. */
  lemma {:induction false} SplitOnJoin(s: string, sep: char)
    ensures Join(SplitOn(s, sep), [sep]) == s
    decreases |s|
  {
    if |s| > 0 {
      var rest := SplitOn(s[1..], sep);
      SplitOnJoin(s[1..], sep);
      if s[0] == sep {
        assert Join([""] + rest, [sep]) == [sep] + Join(rest, [sep]);
      } else {
        JoinGlueFirst(s[0], rest, [sep]);
      }
      assert s == [s[0]] + s[1..];
    }
  }

  /** Every line break written as a single `\n`. */
  function NormalizeNewlines(s: string): string {
    if |s| == 0 then ""
    else if |s| >= 2 && s[0] == '\r' && s[1] == '\n' then "\n" + NormalizeNewlines(s[2..])
    else if s[0] == '\r' then "\n" + NormalizeNewlines(s[1..])
    else [s[0]] + NormalizeNewlines(s[1..])
  }

  /** `s.split(/\r\n|\r|\n/gm)`: at each position the alternatives are
      tried in order, so a `\r\n` pair is one break. */
  function SplitLines(s: string): (r: seq<string>)
    ensures |r| >= 1
    ensures forall i | 0 <= i < |r| :: '\n' !in r[i] && '\r' !in r[i]
  {
    if |s| == 0 then [""]
    else if |s| >= 2 && s[0] == '\r' && s[1] == '\n' then [""] + SplitLines(s[2..])
    else if s[0] == '\r' || s[0] == '\n' then [""] + SplitLines(s[1..])
    else
      var rest := SplitLines(s[1..]);
      [[s[0]] + rest[0]] + rest[1..]
  }

  /** The lines joined with `\n` give back the text with every line break
      written as `\n`: no character other than a break is lost. */
  lemma {:induction false} SplitLinesJoin(s: string)
    ensures Join(SplitLines(s), "\n") == NormalizeNewlines(s)
    decreases |s|
  {
    if |s| == 0 {
    } else if |s| >= 2 && s[0] == '\r' && s[1] == '\n' {
      SplitLinesJoin(s[2..]);
      JoinEmptyFirst(SplitLines(s[2..]), "\n");
    } else if s[0] == '\r' || s[0] == '\n' {
      SplitLinesJoin(s[1..]);
      JoinEmptyFirst(SplitLines(s[1..]), "\n");
    } else {
      SplitLinesJoin(s[1..]);
      JoinGlueFirst(s[0], SplitLines(s[1..]), "\n");
    }
  }

  /** An empty first part contributes only its separator. */
  lemma JoinEmptyFirst(rest: seq<string>, sep: string)
    requires |rest| >= 1
    ensures Join([""] + rest, sep) == sep + Join(rest, sep)
  {
    assert ([""] + rest)[1..] == rest;
  }

  /** `s.split(/\s+/g)`: every maximal run of whitespace separates two
      fields, so leading or trailing whitespace yields an empty field. */
  function SplitWhitespace(s: string): (r: seq<string>)
    ensures |r| >= 1
    ensures forall i | 0 <= i < |r| :: NoSpace(r[i])
    decreases |s|
  {
    if |s| == 0 then [""]
    else if IsJsSpace(s[0]) then [""] + SplitWhitespace(TrimStart(s))
    else
      var rest := SplitWhitespace(s[1..]);
      [[s[0]] + rest[0]] + rest[1..]
  }

  /** `s.replace(/\\(\n|\n?\r)/gm, '')`: a backslash followed by `\n` or
      by `\r` is removed together with that character; the first
      alternative wins on `\n`, so exactly two characters go each time. */
  function RemoveContinuations(s: string): (r: string)
    ensures |r| <= |s|
    ensures ('\n' !in s && '\r' !in s) ==> r == s
    ensures (forall k | 0 <= k < |s| - 1 :: !(s[k] == '\\' && IsBreak(s[k + 1]))) ==> r == s
  {
    if |s| == 0 then ""
    else if |s| >= 2 && s[0] == '\\' && IsBreak(s[1]) then RemoveContinuations(s[2..])
    else [s[0]] + RemoveContinuations(s[1..])
  }

  /** A character the continuation pattern accepts after the backslash. */
  predicate IsBreak(c: char) {
    c == '\n' || c == '\r'
  }

  /** A continuation is removed whole, whatever follows it. */
  lemma ContinuationRemoved(c: char, rest: string)
    requires IsBreak(c)
    ensures RemoveContinuations(['\\', c] + rest) == RemoveContinuations(rest)
  {
    assert (['\\', c] + rest)[2..] == rest;
  }

  /** Removal works piecewise when no continuation straddles the cut,
      that is when the left part does not end with a backslash. Together
      with `ContinuationRemoved` and the unchanged text without
      continuations, this pins the result on every input. */
  lemma {:induction false} RemoveContinuationsAppend(a: string, b: string)
    requires |a| == 0 || a[|a| - 1] != '\\'
    ensures RemoveContinuations(a + b) == RemoveContinuations(a) + RemoveContinuations(b)
    decreases |a|
  {
    if |a| == 0 {
      assert a + b == b;
    } else if |a| >= 2 && a[0] == '\\' && IsBreak(a[1]) {
      var t := a[2..];
      assert a == ['\\', a[1]] + t && a + b == ['\\', a[1]] + (t + b);
      ContinuationRemoved(a[1], t);
      ContinuationRemoved(a[1], t + b);
      RemoveContinuationsAppend(t, b);
    } else {
      var t := a[1..];
      assert a == [a[0]] + t && a + b == [a[0]] + (t + b);
      assert |t| > 0 ==> (t + b)[0] == t[0];
      CharacterKept(a[0], t);
      CharacterKept(a[0], t + b);
      RemoveContinuationsAppend(t, b);
      AppendAssoc([a[0]], RemoveContinuations(t), RemoveContinuations(b));
    }
  }

  /** A character that does not open a continuation is kept. */
  lemma CharacterKept(c: char, rest: string)
    requires !(c == '\\' && |rest| > 0 && IsBreak(rest[0]))
    ensures RemoveContinuations([c] + rest) == [c] + RemoveContinuations(rest)
  {
    assert ([c] + rest)[1..] == rest;
  }

  function DigitChar(d: nat): char
    requires d < 10
  {
    ('0' as int + d) as char
  }

  /** Decimal rendering of an integer, as `String(n)` gives it. */
  function IntToDecimal(n: int): string {
    if n < 0 then "-" + NatToDecimal(-n) else NatToDecimal(n)
  }

  function NatToDecimal(n: nat): string
    decreases n
  {
    if n < 10 then [DigitChar(n)] else NatToDecimal(n / 10) + [DigitChar(n % 10)]
  }

  // ---------------------------------------------------------------------
  // Properties

  /** Trimming twice is trimming once. */
  lemma TrimIdempotent(s: string)
    ensures Trim(Trim(s)) == Trim(s)
  {
  }

  /** Splitting on whitespace undoes joining with a space, provided every
      field is non-empty and holds no whitespace. */
  lemma {:induction false} SplitJoinWhitespace(fields: seq<string>)
    requires |fields| >= 1
    requires forall i | 0 <= i < |fields| :: |fields[i]| > 0 && NoSpace(fields[i])
    ensures SplitWhitespace(Join(fields, " ")) == fields
    decreases |fields|
  {
    if |fields| == 1 {
      SplitWordThenRest(fields[0], "");
      assert fields[0] + "" == fields[0];
      assert Join(fields, " ") == fields[0];
    } else {
      var rest := Join(fields[1..], " ");
      SplitJoinWhitespace(fields[1..]);
      JoinStartsWith(fields[1..]);
      SplitAfterSpace(rest);
      assert Join(fields, " ") == fields[0] + (" " + rest);
      SplitWordThenRest(fields[0], " " + rest);
      assert fields[0] + "" == fields[0];
      assert fields == [fields[0]] + fields[1..];
    }
  }

  predicate AllSpace(s: string) {
    forall k | 0 <= k < |s| :: IsJsSpace(s[k])
  }

  /** The text made of `fields` with `gaps[i]` between `fields[i]` and
      `fields[i + 1]`. */
  function Weave(fields: seq<string>, gaps: seq<string>): string
    requires |fields| == |gaps| + 1
  {
    if |gaps| == 0 then fields[0] else fields[0] + gaps[0] + Weave(fields[1..], gaps[1..])
  }

  /** `split(/\s+/)` on every input: any text is whitespace-free fields
      separated by non-empty whitespace runs, where only the first and the
      last field may be empty (a leading or trailing run), and splitting
      gives back exactly those fields. */
  lemma {:induction false} SplitWhitespaceWeave(fields: seq<string>, gaps: seq<string>)
    requires |fields| == |gaps| + 1
    requires forall i | 0 <= i < |fields| :: NoSpace(fields[i])
    requires forall i | 0 < i < |fields| - 1 :: |fields[i]| > 0
    requires forall i | 0 <= i < |gaps| :: |gaps[i]| > 0 && AllSpace(gaps[i])
    ensures SplitWhitespace(Weave(fields, gaps)) == fields
    decreases |gaps|
  {
    if |gaps| == 0 {
      SplitWordThenRest(fields[0], "");
      assert fields[0] + "" == fields[0];
    } else {
      var rest := Weave(fields[1..], gaps[1..]);
      SplitWhitespaceWeave(fields[1..], gaps[1..]);
      WeaveStep(fields, gaps);
      GapThenRest(gaps[0], rest);
      SplitWordThenRest(fields[0], gaps[0] + rest);
      assert fields[0] + "" == fields[0];
      assert fields == [fields[0]] + fields[1..];
    }
  }

  /** The first seam of a weave; what follows it is empty only when the
      second field is the last one and empty. */
  lemma WeaveStep(fields: seq<string>, gaps: seq<string>)
    requires |fields| == |gaps| + 1 && |gaps| > 0
    requires forall i | 0 < i < |fields| - 1 :: |fields[i]| > 0
    ensures var rest := Weave(fields[1..], gaps[1..]);
            && Weave(fields, gaps) == fields[0] + (gaps[0] + rest)
            && (|fields[1]| > 0 ==> |rest| > 0 && rest[0] == fields[1][0])
            && (|fields[1]| == 0 ==> rest == "")
  {
    var rest := Weave(fields[1..], gaps[1..]);
    if |gaps| > 1 {
      assert rest == fields[1] + gaps[1] + Weave(fields[2..], gaps[2..]);
    }
  }

  /** A whitespace run before a word, or before nothing, opens an empty
      field. */
  lemma GapThenRest(gap: string, rest: string)
    requires |gap| > 0 && AllSpace(gap)
    requires |rest| == 0 || !IsJsSpace(rest[0])
    ensures SplitWhitespace(gap + rest) == [""] + SplitWhitespace(rest)
  {
    var s := gap + rest;
    assert s[|gap|..] == rest;
    assert |TrimStart(s)| == |rest|;
  }

  /** Trimming drops whitespace around a text that starts and ends with
      something else. */
  lemma TrimAround(lead: string, w: string, trail: string)
    requires AllSpace(lead) && AllSpace(trail)
    requires |w| > 0 && Trimmed(w)
    ensures Trim(lead + w + trail) == w
  {
    var s := lead + w + trail;
    var r := Trim(s);
    var i := |s| - |TrimStart(s)|;
    assert s[|lead|] == w[0];
    assert s[|lead| + |w| - 1] == w[|w| - 1];
    assert i == |lead|;
    assert |r| == |w|;
    assert s[|lead|..|lead| + |w|] == w;
  }

  /** A weave of non-empty fields starts with the first field's first
      character and ends with the last field's last character. */
  lemma {:induction false} WeaveEnds(fields: seq<string>, gaps: seq<string>)
    requires |fields| == |gaps| + 1
    requires forall i | 0 <= i < |fields| :: |fields[i]| > 0
    ensures var w := Weave(fields, gaps);
            var last := fields[|fields| - 1];
            && |w| > 0 && w[0] == fields[0][0]
            && w[|w| - 1] == last[|last| - 1]
    decreases |gaps|
  {
    if |gaps| > 0 {
      WeaveEnds(fields[1..], gaps[1..]);
    }
  }

  /** One space before a word opens an empty field. */
  lemma SplitAfterSpace(rest: string)
    requires |rest| > 0 && !IsJsSpace(rest[0])
    ensures SplitWhitespace(" " + rest) == [""] + SplitWhitespace(rest)
  {
    assert TrimStart(" " + rest) == rest;
  }

  /** A joined non-empty first field starts the joined text. */
  lemma JoinStartsWith(fields: seq<string>)
    requires |fields| >= 1 && |fields[0]| > 0
    ensures |Join(fields, " ")| > 0 && Join(fields, " ")[0] == fields[0][0]
  {
  }

  /** A whitespace-free prefix glues onto the first field of the rest. */
  lemma {:induction false} SplitWordThenRest(w: string, rest: string)
    requires NoSpace(w)
    ensures var r := SplitWhitespace(rest);
            SplitWhitespace(w + rest) == [w + r[0]] + r[1..]
    decreases |w|
  {
    if |w| == 0 {
      assert w + rest == rest;
      var r := SplitWhitespace(rest);
      assert w + r[0] == r[0];
      assert [r[0]] + r[1..] == r;
    } else {
      SplitWordThenRest(w[1..], rest);
      assert (w + rest)[1..] == w[1..] + rest;
      assert (w + rest)[0] == w[0];
      assert [w[0]] + (w[1..] + SplitWhitespace(rest)[0]) == w + SplitWhitespace(rest)[0];
    }
  }

  /** Two field lists glued at the seam: the last field of `l` and the
      first of `r` become one. */
  function Merge(l: seq<string>, r: seq<string>): seq<string>
    requires |l| >= 1 && |r| >= 1
  {
    l[..|l| - 1] + [l[|l| - 1] + r[0]] + r[1..]
  }

  /** Splitting on a character distributes over a concatenation: the last
      field of the left part and the first field of the right part merge. */
  lemma {:induction false} SplitOnAppend(a: string, b: string, sep: char)
    ensures SplitOn(a + b, sep) == Merge(SplitOn(a, sep), SplitOn(b, sep))
    decreases |a|
  {
    var r := SplitOn(b, sep);
    if |a| == 0 {
      assert a + b == b;
      SplitOnEmptyLeft(r, sep);
    } else {
      var c, a' := a[0], a[1..];
      assert a == [c] + a';
      assert a + b == [c] + a' + b;
      SplitOnAppend(a', b, sep);
      SplitOnConcatCons(c, a', b, sep);
      MergeCons(c, SplitOn(a', sep), r, sep);
    }
  }

  lemma SplitOnConcatCons(c: char, a': string, b: string, sep: char)
    ensures var m := SplitOn(a' + b, sep);
            var l' := SplitOn(a', sep);
            && SplitOn([c] + a' + b, sep) == (if c == sep then [""] + m else [[c] + m[0]] + m[1..])
            && SplitOn([c] + a', sep) == (if c == sep then [""] + l' else [[c] + l'[0]] + l'[1..])
  {
    assert ([c] + a' + b)[1..] == a' + b;
    assert ([c] + a')[1..] == a';
  }

  lemma SplitOnEmptyLeft(r: seq<string>, sep: char)
    requires |r| >= 1
    ensures r == Merge(SplitOn("", sep), r)
  {
    var l := SplitOn("", sep);
    assert l == [""];
    assert l[|l| - 1] + r[0] == r[0];
  }

  /** The list algebra behind `SplitOnAppend`. */
  lemma MergeCons(c: char, l': seq<string>, r: seq<string>, sep: char)
    requires |l'| >= 1 && |r| >= 1
    ensures var m := Merge(l', r);
            var l := if c == sep then [""] + l' else [[c] + l'[0]] + l'[1..];
            (if c == sep then [""] + m else [[c] + m[0]] + m[1..]) == Merge(l, r)
  {
    var m := Merge(l', r);
    if c != sep {
      var l := [[c] + l'[0]] + l'[1..];
      if |l'| == 1 {
        assert m[0] == l'[0] + r[0];
        assert m[1..] == r[1..];
        assert l[..|l| - 1] == [];
        assert [c] + m[0] == l[|l| - 1] + r[0];
      } else {
        assert m[0] == l'[0];
        assert m[1..] == l'[1..|l'| - 1] + [l'[|l'| - 1] + r[0]] + r[1..];
        assert l[..|l| - 1] == [[c] + l'[0]] + l'[1..|l'| - 1];
      }
    }
  }
}
