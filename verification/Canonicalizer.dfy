/** Text canonicalisation: line endings, trailing whitespace, blank-line runs, one
    final newline. Unicode composition is taken as already done. */
module Canonicalizer {
  import opened Whitespace

  const NL := "\n"

  // ---- The stages ----

  /** `s.replace("\r\n", "\n")`, left to right. */
  function ReplaceCrLf(s: string): string {
    if s == "" then ""
    else if |s| >= 2 && s[0] == '\r' && s[1] == '\n' then NL + ReplaceCrLf(s[2..])
    else [s[0]] + ReplaceCrLf(s[1..])
  }

  /** `s.replace("\r", "\n")`. */
  function ReplaceCr(s: string): string {
    if s == "" then "" else [if s[0] == '\r' then '\n' else s[0]] + ReplaceCr(s[1..])
  }

  /** Position of the first newline, or the length. */
  function FirstNewline(s: string): (i: nat)
    ensures i <= |s| && (i < |s| ==> s[i] == '\n') && forall j :: 0 <= j < i ==> s[j] != '\n'
  {
    if s == "" || s[0] == '\n' then 0 else 1 + FirstNewline(s[1..])
  }

  /** `s.split("\n")`. */
  function Split(s: string): (lines: seq<string>)
    ensures lines != []
    decreases |s|
  {
    var i := FirstNewline(s);
    if i == |s| then [s] else [s[..i]] + Split(s[i + 1..])
  }

  /** `"\n".join(lines)`. */
  function Join(lines: seq<string>): string {
    if lines == [] then ""
    else if |lines| == 1 then lines[0]
    else lines[0] + NL + Join(lines[1..])
  }

  function StripLines(lines: seq<string>): (r: seq<string>)
    ensures |r| == |lines| && forall i :: 0 <= i < |r| ==> r[i] == StripRight(lines[i])
  {
    seq(|lines|, i requires 0 <= i < |lines| => StripRight(lines[i]))
  }

  function NewlineRun(s: string): (n: nat)
    ensures n <= |s| && (n < |s| ==> s[n] != '\n') && forall j :: 0 <= j < n ==> s[j] == '\n'
  {
    if s != "" && s[0] == '\n' then 1 + NewlineRun(s[1..]) else 0
  }

  /** Runs of three or more newlines become two; the rest is copied. */
  function Collapse(s: string): string
    decreases |s|
  {
    if s == "" then ""
    else if s[0] == '\n' then
      var n := NewlineRun(s);
      (if n >= 3 then NL + NL else s[..n]) + Collapse(s[n..])
    else
      var i := FirstNewline(s);
      s[..i] + Collapse(s[i..])
  }

  function StripNewlinesLeft(s: string): string {
    if s != "" && s[0] == '\n' then StripNewlinesLeft(s[1..]) else s
  }

  function StripNewlinesRight(s: string): string {
    if s != "" && s[|s| - 1] == '\n' then StripNewlinesRight(s[..|s| - 1]) else s
  }

  function LineEndings(s: string): string {
    ReplaceCr(ReplaceCrLf(s))
  }

  function TrimLines(s: string): string {
    Join(StripLines(Split(s)))
  }

  function OneFinalNewline(s: string): string {
    StripNewlinesRight(StripNewlinesLeft(s)) + NL
  }

  function Canonicalize(s: string): string {
    OneFinalNewline(Collapse(TrimLines(LineEndings(s))))
  }

  // ---- What a canonical text is ----

  predicate NoTriple(s: string) {
    forall i :: 0 <= i < |s| - 2 ==> !(s[i] == '\n' && s[i + 1] == '\n' && s[i + 2] == '\n')
  }

  /** A line without carriage returns and without trailing whitespace. */
  predicate Trim(line: string) {
    StripRight(line) == line && forall i :: 0 <= i < |line| ==> line[i] != '\r'
  }

  /** Exactly one final newline, and no leading one unless the text is empty. */
  predicate Ends(s: string) {
    && s != "" && s[|s| - 1] == '\n'
    && (|s| > 1 ==> s[0] != '\n' && s[|s| - 2] != '\n')
  }

  predicate Canonical(s: string) {
    NoTriple(s) && Ends(s) && forall line :: line in Split(s) ==> Trim(line)
  }

  // ---- The lines that carry text ----

  /** The lines that are not empty. */
  function TextLines(s: string): (lines: seq<string>)
    ensures forall line :: line in lines ==> line != ""
    decreases |s|
  {
    if s == "" then []
    else if s[0] == '\n' then TextLines(s[1..])
    else
      var i := FirstNewline(s);
      [s[..i]] + TextLines(s[i..])
  }

  function NonEmpty(lines: seq<string>): seq<string> {
    if lines == [] then [] else (if lines[0] == "" then [] else [lines[0]]) + NonEmpty(lines[1..])
  }

  lemma {:induction false} TextLinesOfSplit(s: string)
    ensures TextLines(s) == NonEmpty(Split(s))
    decreases |s|
  {
    var i := FirstNewline(s);
    if i == |s| {
      assert s != "" ==> s[..i] == s && s[i..] == "";
    } else {
      TextLinesOfSplit(s[i + 1..]);
      assert s[i..][1..] == s[i + 1..];
      assert ([s[..i]] + Split(s[i + 1..]))[1..] == Split(s[i + 1..]);
    }
  }

  lemma {:induction false} InNonEmpty(lines: seq<string>, line: string)
    ensures line in NonEmpty(lines) <==> line in lines && line != ""
  {
    if lines != [] {
      InNonEmpty(lines[1..], line);
      assert lines == [lines[0]] + lines[1..];
    }
  }

  /** The per-line conditions depend only on the lines that carry text. */
  lemma TrimLinesIff(s: string)
    ensures (forall line :: line in Split(s) ==> Trim(line)) <==> forall line :: line in TextLines(s) ==> Trim(line)
  {
    hide Split, NonEmpty, TextLines, Trim;
    TextLinesOfSplit(s);
    forall line ensures line in TextLines(s) <==> line in Split(s) && line != "" {
      InNonEmpty(Split(s), line);
    }
    EmptyIsTrim();
  }

  lemma EmptyIsTrim()
    ensures Trim("")
  {
  }

  // ---- Splitting and joining ----

  lemma FirstNewlineAt(a: string, b: string)
    requires forall i :: 0 <= i < |a| ==> a[i] != '\n'
    ensures FirstNewline(a + b) == |a| + FirstNewline(b)
  {
    var i := FirstNewline(a + b);
    assert forall j :: 0 <= j < |a| ==> (a + b)[j] == a[j];
    assert forall j :: 0 <= j < |b| ==> (a + b)[|a| + j] == b[j];
  }

  predicate OneLine(line: string) {
    forall i :: 0 <= i < |line| ==> line[i] != '\n'
  }

  lemma SplitFirst(first: string, rest: string)
    requires OneLine(first)
    ensures Split(first + NL + rest) == [first] + Split(rest)
  {
    hide FirstNewline;
    var s := first + NL + rest;
    assert s == first + (NL + rest);
    FirstNewlineAt(first, NL + rest);
    assert (NL + rest)[0] == '\n';
    assert FirstNewline(NL + rest) == 0;
    assert s[..|first|] == first && s[|first| + 1..] == rest;
  }

  lemma SplitOne(line: string)
    requires OneLine(line)
    ensures Split(line) == [line]
  {
    FirstNewlineAt(line, "");
    assert line + "" == line;
  }

  lemma {:induction false} SplitOfJoin(lines: seq<string>)
    requires lines != [] && forall i :: 0 <= i < |lines| ==> OneLine(lines[i])
    ensures Split(Join(lines)) == lines
    decreases |lines|
  {
    hide Split, OneLine;
    if |lines| == 1 {
      SplitOne(lines[0]);
    } else {
      SplitOfJoin(lines[1..]);
      SplitFirst(lines[0], Join(lines[1..]));
      assert lines == [lines[0]] + lines[1..];
    }
  }

  lemma {:induction false} JoinOfSplit(s: string)
    ensures Join(Split(s)) == s
    ensures forall i :: 0 <= i < |Split(s)| ==> OneLine(Split(s)[i])
    decreases |s|
  {
    var i := FirstNewline(s);
    if i < |s| {
      JoinOfSplit(s[i + 1..]);
      assert Split(s) == [s[..i]] + Split(s[i + 1..]) && Split(s)[1..] == Split(s[i + 1..]);
      assert s == s[..i] + NL + s[i + 1..];
    }
  }

  lemma LinesOfTrimmed(s: string)
    ensures Split(TrimLines(s)) == StripLines(Split(s))
    ensures TextLines(TrimLines(s)) == NonEmpty(StripLines(Split(s)))
  {
    JoinOfSplit(s);
    var lines := StripLines(Split(s));
    forall i | 0 <= i < |lines| ensures OneLine(lines[i]) {
      assert lines[i] <= Split(s)[i] && OneLine(Split(s)[i]);
    }
    SplitOfJoin(lines);
    TextLinesOfSplit(TrimLines(s));
  }

  // ---- Collapsing and stripping keep the lines that carry text ----

  lemma {:induction false} NewlinesFirst(n: nat, s: string, t: string)
    requires n <= |s| && t == s[n..] && forall i :: 0 <= i < n ==> s[i] == '\n'
    ensures TextLines(s) == TextLines(t)
    decreases n
  {
    if n > 0 {
      assert s[1..][n - 1..] == t;
      NewlinesFirst(n - 1, s[1..], t);
    } else {
      assert s[0..] == s;
    }
  }

  /** A line of text followed by a newline, or by nothing. */
  lemma LineFirst(line: string, rest: string)
    requires line != "" && OneLine(line) && (rest == "" || rest[0] == '\n')
    ensures TextLines(line + rest) == [line] + TextLines(rest)
    ensures FirstNewline(line + rest) == |line|
  {
    FirstNewlineAt(line, rest);
    assert (line + rest)[..|line|] == line && (line + rest)[|line|..] == rest;
  }

  /** Two texts that start with newlines carry the lines of what follows them. */
  lemma RunsAgree(s: string, n: nat, run: string, rest: string)
    requires n <= |s| && (forall i :: 0 <= i < n ==> s[i] == '\n') && forall i :: 0 <= i < |run| ==> run[i] == '\n'
    requires TextLines(rest) == TextLines(s[n..])
    ensures TextLines(run + rest) == TextLines(s)
  {
    hide TextLines;
    NewlinesFirst(n, s, s[n..]);
    assert (run + rest)[|run|..] == rest;
    NewlinesFirst(|run|, run + rest, rest);
  }

  lemma {:induction false} CollapseKeepsLines(s: string)
    ensures TextLines(Collapse(s)) == TextLines(s)
    ensures Collapse(s) != "" <==> s != ""
    ensures s != "" ==> (Collapse(s)[0] == '\n' <==> s[0] == '\n')
    decreases |s|
  {
    hide TextLines, FirstNewline, NewlineRun, OneLine;
    if s != "" {
      if s[0] == '\n' {
        var n := NewlineRun(s);
        assert n > 0 by { NewlineFirst(s); }
        CollapseKeepsLines(s[n..]);
        RunsAgree(s, n, if n >= 3 then NL + NL else s[..n], Collapse(s[n..]));
      } else {
        var i := FirstNewline(s);
        assert i > 0;
        CollapseKeepsLines(s[i..]);
        assert s == s[..i] + s[i..];
        PrefixIsOneLine(s);
        LineFirst(s[..i], s[i..]);
        LineFirst(s[..i], Collapse(s[i..]));
      }
    }
  }

  lemma NewlineFirst(s: string)
    requires s != "" && s[0] == '\n'
    ensures NewlineRun(s) > 0
  {
  }

  lemma PrefixIsOneLine(s: string)
    ensures OneLine(s[..FirstNewline(s)])
  {
  }

  lemma {:induction false} StripLeftKeepsLines(s: string)
    ensures TextLines(StripNewlinesLeft(s)) == TextLines(s)
  {
    if s != "" && s[0] == '\n' {
      StripLeftKeepsLines(s[1..]);
    }
  }

  lemma {:induction false} NewlineLast(s: string)
    ensures TextLines(s + NL) == TextLines(s)
    decreases |s|
  {
    if s == "" {
      assert s + NL == NL && NL[1..] == "";
    } else if s[0] == '\n' {
      NewlineLast(s[1..]);
      assert (s + NL)[1..] == s[1..] + NL;
    } else {
      var i := FirstNewline(s);
      NewlineLast(s[i..]);
      assert s == s[..i] + s[i..] && s + NL == s[..i] + (s[i..] + NL);
      LineFirst(s[..i], s[i..] + NL);
    }
  }

  lemma {:induction false} StripRightKeepsLines(s: string)
    ensures TextLines(StripNewlinesRight(s)) == TextLines(s)
  {
    if s != "" && s[|s| - 1] == '\n' {
      var front := s[..|s| - 1];
      StripRightKeepsLines(front);
      assert s == front + NL;
      NewlineLast(front);
    }
  }

  lemma OneFinalKeepsLines(s: string)
    ensures TextLines(OneFinalNewline(s)) == TextLines(s)
  {
    hide TextLines;
    StripLeftKeepsLines(s);
    StripRightKeepsLines(StripNewlinesLeft(s));
    NewlineLast(StripNewlinesRight(StripNewlinesLeft(s)));
  }

  /** Canonicalisation keeps every line that carries text, in order, up to its
      trailing whitespace: nothing inside a line is touched. */
  lemma KeepsTextLines(s: string)
    ensures TextLines(Canonicalize(s)) == NonEmpty(StripLines(Split(LineEndings(s))))
  {
    hide TextLines, NonEmpty, OneFinalNewline, Collapse, TrimLines;
    var t := LineEndings(s);
    LinesOfTrimmed(t);
    CollapseKeepsLines(TrimLines(t));
    OneFinalKeepsLines(Collapse(TrimLines(t)));
  }

  // ---- No three newlines in a row ----

  lemma NoTripleConcat(a: string, b: string)
    requires NoTriple(a) && NoTriple(b)
    requires a == "" || b == "" || a[|a| - 1] != '\n' || b[0] != '\n'
    ensures NoTriple(a + b)
  {
    var s := a + b;
    forall i | 0 <= i < |s| - 2 ensures !(s[i] == '\n' && s[i + 1] == '\n' && s[i + 2] == '\n') {
      if i + 2 < |a| {
        assert s[i] == a[i] && s[i + 1] == a[i + 1] && s[i + 2] == a[i + 2];
      } else if i >= |a| {
        assert s[i] == b[i - |a|] && s[i + 1] == b[i - |a| + 1] && s[i + 2] == b[i - |a| + 2];
      } else {
        assert s[|a| - 1] == a[|a| - 1] && s[|a|] == b[0];
      }
    }
  }

  lemma {:induction false} CollapseNoTriple(s: string)
    ensures NoTriple(Collapse(s))
    decreases |s|
  {
    if s != "" {
      var n := if s[0] == '\n' then NewlineRun(s) else FirstNewline(s);
      var head := if s[0] == '\n' && n >= 3 then NL + NL else s[..n];
      CollapseNoTriple(s[n..]);
      CollapseKeepsLines(s[n..]);
      assert NoTriple(head) by {
        assert s[0] != '\n' ==> forall i :: 0 <= i < n ==> head[i] != '\n';
      }
      assert head[|head| - 1] == '\n' <==> s[0] == '\n';
      NoTripleConcat(head, Collapse(s[n..]));
    }
  }

  lemma {:induction false} StripLeftShape(s: string)
    ensures StripNewlinesLeft(s) == "" || StripNewlinesLeft(s)[0] != '\n'
    ensures NoTriple(s) ==> NoTriple(StripNewlinesLeft(s))
  {
    if s != "" && s[0] == '\n' {
      StripLeftShape(s[1..]);
      if NoTriple(s) {
        forall i | 0 <= i < |s[1..]| - 2
          ensures !(s[1..][i] == '\n' && s[1..][i + 1] == '\n' && s[1..][i + 2] == '\n')
        {
          assert s[1..][i] == s[i + 1] && s[1..][i + 1] == s[i + 2] && s[1..][i + 2] == s[i + 3];
        }
      }
    }
  }

  lemma {:induction false} StripRightShape(s: string)
    ensures StripNewlinesRight(s) <= s
    ensures StripNewlinesRight(s) == "" || StripNewlinesRight(s)[|StripNewlinesRight(s)| - 1] != '\n'
    ensures NoTriple(s) ==> NoTriple(StripNewlinesRight(s))
  {
    if s != "" && s[|s| - 1] == '\n' {
      StripRightShape(s[..|s| - 1]);
    }
  }

  lemma OneFinalShape(s: string)
    requires NoTriple(s)
    ensures NoTriple(OneFinalNewline(s)) && Ends(OneFinalNewline(s))
  {
    hide NoTriple, StripNewlinesLeft, StripNewlinesRight;
    StripLeftShape(s);
    StripRightShape(StripNewlinesLeft(s));
    var u := StripNewlinesRight(StripNewlinesLeft(s));
    OneNewline();
    NoTripleConcat(u, NL);
  }

  lemma OneNewline()
    ensures NoTriple(NL)
  {
  }

  // ---- One pass over the characters ----

  /** What the newline stage does, read from left to right: after `seen` newlines
      in a row, a third and later one is dropped and nothing else is. */
  function AtMostTwo(seen: nat, s: string): string
    decreases |s|
  {
    if s == "" then ""
    else if s[0] != '\n' then [s[0]] + AtMostTwo(0, s[1..])
    else if seen >= 2 then AtMostTwo(seen, s[1..])
    else NL + AtMostTwo(seen + 1, s[1..])
  }

  function Newlines(n: nat): string {
    if n == 0 then "" else NL + Newlines(n - 1)
  }

  lemma {:induction false} RunIsNewlines(s: string)
    ensures s[..NewlineRun(s)] == Newlines(NewlineRun(s))
  {
    if s != "" && s[0] == '\n' {
      RunIsNewlines(s[1..]);
      assert s[..NewlineRun(s)] == NL + s[1..][..NewlineRun(s) - 1];
    }
  }

  /** How many of `n` more newlines are kept. */
  function Kept(seen: nat, n: nat): nat {
    if n + seen <= 2 then n else if seen <= 2 then 2 - seen else 0
  }

  lemma {:induction false} TwoOfRun(seen: nat, n: nat, rest: string)
    requires rest == "" || rest[0] != '\n'
    ensures AtMostTwo(seen, Newlines(n) + rest) == Newlines(Kept(seen, n)) + AtMostTwo(0, rest)
    decreases n
  {
    var s, tail := Newlines(n) + rest, AtMostTwo(0, rest);
    if n == 0 {
      assert s == rest && Newlines(0) + tail == tail;
    } else {
      assert s[0] == '\n' && s[1..] == Newlines(n - 1) + rest;
      var more := if seen >= 2 then seen else seen + 1;
      TwoOfRun(more, n - 1, rest);
      var kept := Newlines(Kept(more, n - 1));
      if seen < 2 {
        assert Kept(seen, n) == 1 + Kept(more, n - 1);
        assert Newlines(Kept(seen, n)) == NL + kept;
        assert NL + (kept + tail) == (NL + kept) + tail;
      }
    }
  }

  lemma {:induction false} LineIsKept(seen: nat, line: string, rest: string)
    requires line != "" && OneLine(line)
    ensures AtMostTwo(seen, line + rest) == line + AtMostTwo(0, rest)
    decreases |line|
  {
    assert (line + rest)[1..] == line[1..] + rest;
    if |line| > 1 {
      assert OneLine(line[1..]);
      LineIsKept(0, line[1..], rest);
    } else {
      assert line[1..] + rest == rest;
    }
  }

  /** Collapsing drops exactly the newlines that follow two others. */
  lemma {:induction false} CollapseKeepsTwo(s: string)
    ensures Collapse(s) == AtMostTwo(0, s)
    decreases |s|
  {
    hide FirstNewline, NewlineRun, OneLine, AtMostTwo, Newlines;
    if s == "" {
      NothingToKeep();
    } else if s[0] == '\n' {
      var n := NewlineRun(s);
      NewlineFirst(s);
      CollapseKeepsTwo(s[n..]);
      RunIsNewlines(s);
      assert s == s[..n] + s[n..];
      TwoOfRun(0, n, s[n..]);
      TwoNewlines();
    } else {
      var i := FirstNewline(s);
      assert s == s[..i] + s[i..];
      CollapseKeepsTwo(s[i..]);
      PrefixIsOneLine(s);
      LineIsKept(0, s[..i], s[i..]);
    }
  }

  lemma TwoNewlines()
    ensures Newlines(2) == NL + NL
  {
    assert Newlines(1) == NL + Newlines(0);
  }

  lemma NothingToKeep()
    ensures AtMostTwo(0, "") == ""
  {
  }

  /** Every kind of line ending becomes one newline. */
  function UniversalNewlines(s: string): string
    decreases |s|
  {
    if s == "" then ""
    else if s[0] == '\r' then
      if |s| >= 2 && s[1] == '\n' then NL + UniversalNewlines(s[2..]) else NL + UniversalNewlines(s[1..])
    else [s[0]] + UniversalNewlines(s[1..])
  }

  /** The two replacements amount to universal newlines. */
  lemma {:induction false} LineEndingsAreUniversal(s: string)
    ensures LineEndings(s) == UniversalNewlines(s)
    decreases |s|
  {
    if s != "" {
      var short := |s| >= 2 && s[0] == '\r' && s[1] == '\n';
      var rest := if short then s[2..] else s[1..];
      LineEndingsAreUniversal(rest);
      var head := if short then NL else [s[0]];
      assert (head + ReplaceCrLf(rest))[1..] == ReplaceCrLf(rest);
    }
  }

  // ---- Carriage returns ----

  predicate NoCr(s: string) {
    forall i :: 0 <= i < |s| ==> s[i] != '\r'
  }

  lemma {:induction false} ReplaceCrRemoves(s: string)
    ensures NoCr(ReplaceCr(s))
  {
    if s != "" {
      ReplaceCrRemoves(s[1..]);
    }
  }

  lemma {:induction false} SplitNoCr(s: string)
    requires NoCr(s)
    ensures forall i :: 0 <= i < |Split(s)| ==> NoCr(Split(s)[i])
    decreases |s|
  {
    var i := FirstNewline(s);
    if i < |s| {
      SplitNoCr(s[i + 1..]);
      assert Split(s) == [s[..i]] + Split(s[i + 1..]);
    }
  }

  lemma StripTwice(line: string)
    ensures StripRight(StripRight(line)) == StripRight(line)
  {
  }

  /** The result has no carriage return, no trailing whitespace on any line, no
      three newlines in a row, and exactly one final newline. */
  lemma ResultIsCanonical(s: string)
    ensures Canonical(Canonicalize(s))
  {
    hide Split, NoTriple, Ends, Collapse, OneFinalNewline, TrimLines, TextLines, NonEmpty, Trim;
    var t := LineEndings(s);
    ReplaceCrRemoves(ReplaceCrLf(s));
    SplitNoCr(t);
    CollapseNoTriple(TrimLines(t));
    OneFinalShape(Collapse(TrimLines(t)));
    KeepsTextLines(s);
    var lines := StripLines(Split(t));
    forall line | line in TextLines(Canonicalize(s)) ensures Trim(line) {
      InNonEmpty(lines, line);
      var i :| 0 <= i < |lines| && lines[i] == line;
      TrimmedLine(Split(t)[i]);
    }
    TrimLinesIff(Canonicalize(s));
  }

  lemma TrimmedLine(line: string)
    requires NoCr(line)
    ensures Trim(StripRight(line))
  {
    StripTwice(line);
  }

  // ---- Idempotence ----

  lemma {:induction false} NothingToReplace(s: string)
    requires NoCr(s)
    ensures ReplaceCrLf(s) == s && ReplaceCr(s) == s
  {
    if s != "" {
      NothingToReplace(s[1..]);
    }
  }

  lemma ShortRun(s: string)
    requires NoTriple(s)
    ensures NewlineRun(s) < 3
  {
    assert |s| >= 3 ==> !(s[0] == '\n' && s[1] == '\n' && s[2] == '\n');
  }

  lemma NoTripleSuffix(s: string, n: nat)
    requires NoTriple(s) && n <= |s|
    ensures NoTriple(s[n..])
  {
    forall i | 0 <= i < |s[n..]| - 2 ensures !(s[n..][i] == '\n' && s[n..][i + 1] == '\n' && s[n..][i + 2] == '\n') {
      assert s[n..][i] == s[n + i] && s[n..][i + 1] == s[n + i + 1] && s[n..][i + 2] == s[n + i + 2];
    }
  }

  lemma {:induction false} NothingToCollapse(s: string)
    requires NoTriple(s)
    ensures Collapse(s) == s
    decreases |s|
  {
    hide NoTriple;
    if s != "" {
      var n := if s[0] == '\n' then NewlineRun(s) else FirstNewline(s);
      ShortRun(s);
      NoTripleSuffix(s, n);
      NothingToCollapse(s[n..]);
      assert s == s[..n] + s[n..];
    }
  }

  lemma NothingToTrim(s: string)
    requires forall line :: line in Split(s) ==> Trim(line)
    ensures TrimLines(s) == s
  {
    var lines := Split(s);
    forall i | 0 <= i < |lines| ensures StripLines(lines)[i] == lines[i] {
      assert lines[i] in lines;
    }
    assert StripLines(lines) == lines;
    JoinOfSplit(s);
  }

  lemma FinalNewlineStays(s: string)
    requires Ends(s)
    ensures OneFinalNewline(s) == s
  {
    var u := s[..|s| - 1];
    assert s == u + NL;
    if |s| == 1 {
      assert StripNewlinesLeft(s) == "" by { assert s[1..] == ""; }
      assert StripNewlinesRight("") == "";
    } else {
      assert StripNewlinesLeft(s) == s;
      assert StripNewlinesRight(s) == StripNewlinesRight(u) == u;
    }
  }

  lemma {:induction false} JoinNoCr(lines: seq<string>)
    requires forall i :: 0 <= i < |lines| ==> NoCr(lines[i])
    ensures NoCr(Join(lines))
  {
    if |lines| > 1 {
      JoinNoCr(lines[1..]);
    }
  }

  /** No character of a text of trim lines is a carriage return. */
  lemma TrimHasNoCr(s: string)
    requires forall line :: line in Split(s) ==> Trim(line)
    ensures NoCr(s)
  {
    hide Trim, NoCr, Split;
    forall i | 0 <= i < |Split(s)| ensures NoCr(Split(s)[i]) {
      TrimNoCr(Split(s)[i]);
    }
    JoinNoCr(Split(s));
    JoinOfSplit(s);
  }

  lemma TrimNoCr(line: string)
    requires Trim(line)
    ensures NoCr(line)
  {
  }

  /** A text is left alone exactly when it is canonical. */
  lemma FixedIffCanonical(s: string)
    ensures Canonicalize(s) == s <==> Canonical(s)
  {
    hide NoTriple, Ends, Trim, Collapse, OneFinalNewline, TrimLines, NoCr, Split;
    ResultIsCanonical(s);
    if Canonical(s) {
      TrimHasNoCr(s);
      NothingToReplace(s);
      NothingToTrim(s);
      NothingToCollapse(s);
      FinalNewlineStays(s);
    }
  }

  lemma Idempotent(s: string)
    ensures Canonicalize(Canonicalize(s)) == Canonicalize(s)
  {
    hide Canonical, Canonicalize;
    ResultIsCanonical(s);
    FixedIffCanonical(Canonicalize(s));
  }

  // ---- Content ----

  /** The characters that are not whitespace, in order. */
  function Ink(s: string): string {
    if s == "" then "" else (if IsSpace(s[0]) then "" else [s[0]]) + Ink(s[1..])
  }

  lemma {:induction false} InkConcat(a: string, b: string)
    ensures Ink(a + b) == Ink(a) + Ink(b)
  {
    if a == "" {
      assert a + b == b;
    } else {
      assert (a + b)[1..] == a[1..] + b;
      InkConcat(a[1..], b);
    }
  }

  lemma {:induction false} InkOfSpaces(s: string)
    requires Blank(s)
    ensures Ink(s) == ""
  {
    if s != "" {
      InkOfSpaces(s[1..]);
    }
  }

  lemma InkOfStripped(line: string)
    ensures Ink(StripRight(line)) == Ink(line)
  {
    var kept := StripRight(line);
    var cut := line[|kept|..];
    assert line == kept + cut;
    InkOfSpaces(cut);
    InkConcat(kept, cut);
  }

  lemma {:induction false} InkOfLineEndings(s: string)
    ensures Ink(ReplaceCrLf(s)) == Ink(s) && Ink(ReplaceCr(s)) == Ink(s)
  {
    if s != "" {
      InkOfLineEndings(s[1..]);
      if |s| >= 2 && s[0] == '\r' && s[1] == '\n' {
        InkOfLineEndings(s[2..]);
        assert s == s[..2] + s[2..];
        InkConcat(s[..2], s[2..]);
        InkConcat(NL, ReplaceCrLf(s[2..]));
        InkOfSpaces(s[..2]);
      }
    }
  }

  function InkOfLines(lines: seq<string>): string {
    if lines == [] then "" else Ink(lines[0]) + InkOfLines(lines[1..])
  }

  lemma {:induction false} InkOfTextLines(s: string)
    ensures Ink(s) == InkOfLines(TextLines(s))
    decreases |s|
  {
    if s != "" {
      if s[0] == '\n' {
        InkOfTextLines(s[1..]);
      } else {
        var i := FirstNewline(s);
        InkOfTextLines(s[i..]);
        assert s == s[..i] + s[i..];
        InkConcat(s[..i], s[i..]);
        assert ([s[..i]] + TextLines(s[i..]))[1..] == TextLines(s[i..]);
      }
    }
  }

  lemma {:induction false} InkOfNonEmpty(lines: seq<string>)
    ensures InkOfLines(NonEmpty(StripLines(lines))) == InkOfLines(NonEmpty(lines))
  {
    hide StripRight, IsSpace, Blank;
    if lines == [] {
      assert StripLines(lines) == lines;
    } else {
      InkOfNonEmpty(lines[1..]);
      InkOfStripped(lines[0]);
      assert StripLines(lines)[1..] == StripLines(lines[1..]);
      var a, rest := StripRight(lines[0]), NonEmpty(lines[1..]);
      var stripped := NonEmpty(StripLines(lines[1..]));
      assert ([a] + stripped)[1..] == stripped && [] + stripped == stripped;
      assert ([lines[0]] + rest)[1..] == rest && [] + rest == rest;
    }
  }

  /** The exact sequence of non-whitespace characters is kept. */
  lemma KeepsInk(s: string)
    ensures Ink(Canonicalize(s)) == Ink(s)
  {
    hide Ink, InkOfLines, NonEmpty, TextLines, Split, Canonicalize, ReplaceCr, ReplaceCrLf;
    var t := LineEndings(s);
    InkOfLineEndings(s);
    InkOfLineEndings(ReplaceCrLf(s));
    KeepsTextLines(s);
    InkOfTextLines(Canonicalize(s));
    InkOfTextLines(t);
    TextLinesOfSplit(t);
    InkOfNonEmpty(Split(t));
  }
}
