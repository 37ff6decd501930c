/** Anchor and clause identifiers: three parts joined by colons, and the split
    that takes them apart again. */
module Anchors {
  import opened Common

  predicate ColonFree(s: string) {
    forall i :: 0 <= i < |s| ==> s[i] != ':'
  }

  /** `f"{document_id}:{source_version}:{structural_path}"`. */
  function MakeAnchorId(document: string, version: string, path: string): string {
    document + ":" + version + ":" + path
  }

  /** Position of the first colon, or the length. */
  function FirstColon(s: string): (i: nat)
    ensures i <= |s| && ColonFree(s[..i]) && (i < |s| ==> s[i] == ':')
  {
    if s == "" || s[0] == ':' then 0
    else
      assert s[..FirstColon(s[1..]) + 1] == [s[0]] + s[1..][..FirstColon(s[1..])];
      FirstColon(s[1..]) + 1
  }

  datatype Parts = Parts(document: string, version: string, path: string)

  /** `s.split(":", 2)` into exactly three parts; fewer colons do not unpack. */
  function SplitClauseId(s: string): Option<Parts> {
    var i := FirstColon(s);
    if i == |s| then None
    else
      var rest := s[i + 1..];
      var j := FirstColon(rest);
      if j == |rest| then None else Some(Parts(s[..i], rest[..j], rest[j + 1..]))
  }

  lemma FirstColonAt(a: string, b: string)
    requires ColonFree(a)
    ensures FirstColon(a + ":" + b) == |a|
  {
    var s := a + ":" + b;
    assert s[|a|] == ':' && s[..|a|] == a;
  }

  /** Splitting an identifier made of colon-free document and version undoes it. */
  lemma SplitMake(document: string, version: string, path: string)
    requires ColonFree(document) && ColonFree(version)
    ensures SplitClauseId(MakeAnchorId(document, version, path)) == Some(Parts(document, version, path))
  {
    var rest := version + ":" + path;
    var s := MakeAnchorId(document, version, path);
    assert s == document + ":" + rest;
    FirstColonAt(document, rest);
    assert s[|document| + 1..] == rest && s[..|document|] == document;
    FirstColonAt(version, path);
    assert rest[|version| + 1..] == path && rest[..|version|] == version;
  }

  predicate EndsWith(s: string, suffix: string) {
    |suffix| <= |s| && s[|s| - |suffix|..] == suffix
  }

  /** The clause id of a span at `anchor`: the document and version given, and
      whatever follows the anchor's second colon. With fewer colons the last part
      of the split is taken. */
  function BuildClauseId(document: string, version: string, anchor: string): string {
    MakeAnchorId(document, version, LastPart(anchor))
  }

  /** `s.split(":", 2)[-1]`. */
  function LastPart(s: string): string {
    var i := FirstColon(s);
    if i == |s| then s
    else
      var rest := s[i + 1..];
      var j := FirstColon(rest);
      if j == |rest| then rest else rest[j + 1..]
  }

  /** For the document the anchor belongs to, the clause id is the anchor id. */
  lemma ClauseIdIsAnchorId(document: string, version: string, path: string)
    requires ColonFree(document) && ColonFree(version)
    ensures BuildClauseId(document, version, MakeAnchorId(document, version, path))
      == MakeAnchorId(document, version, path)
  {
    SplitMake(document, version, path);
  }

  /** No text matches a colon-free suffix beyond its own last colon. */
  lemma ColonInside(s: string, wanted: string, n: nat)
    requires ColonFree(wanted) && |s| - |wanted| <= n < |s| && s[n] == ':'
    ensures !EndsWith(s, ":" + wanted)
  {
    var suffix := ":" + wanted;
    if |suffix| <= |s| {
      var k := n - (|s| - |suffix|);
      assert s[|s| - |suffix|..][k] == s[n] && suffix[k] == wanted[k - 1];
    }
  }

  /** A suffix match with a colon-free path finds the anchors whose path is that one
      or ends with it after a colon. */
  lemma SuffixMatchIff(document: string, version: string, path: string, wanted: string)
    requires ColonFree(wanted)
    ensures EndsWith(MakeAnchorId(document, version, path), ":" + wanted) <==>
      path == wanted || EndsWith(path, ":" + wanted)
  {
    var head := document + ":" + version;
    var s, suffix := MakeAnchorId(document, version, path), ":" + wanted;
    assert s == head + ":" + path && suffix[1..] == wanted;
    var n := |s| - |path| - 1;
    assert s[n] == ':' && s[n + 1..] == path && s[n..] == ":" + path;
    if |wanted| < |path| {
      assert s[|s| - |suffix|..] == path[|path| - |suffix|..];
    } else if |wanted| == |path| {
      assert s[|s| - |suffix|..] == ":" + path;
      assert (":" + path)[1..] == path;
    } else {
      ColonInside(s, wanted, n);
    }
  }

  /** So it identifies an anchor's structural path when that has no colon either. */
  lemma SuffixMatchIsPath(document: string, version: string, path: string, wanted: string)
    requires ColonFree(path) && ColonFree(wanted)
    ensures EndsWith(MakeAnchorId(document, version, path), ":" + wanted) <==> path == wanted
  {
    hide MakeAnchorId;
    SuffixMatchIff(document, version, path, wanted);
    if |wanted| < |path| {
      assert path[|path| - |wanted| - 1..][0] == path[|path| - |wanted| - 1];
    }
  }

  /** With a colon in the path a suffix match can pick another anchor: here the
      match succeeds and the two paths differ. */
  lemma SuffixMatchNeedsColonFreePaths()
    ensures EndsWith(MakeAnchorId("d", "v", "x:b"), ":" + "b")
      && MakeAnchorId("d", "v", "x:b") != MakeAnchorId("d", "v", "b")
  {
    assert MakeAnchorId("d", "v", "x:b") == "d:v:x:b";
    assert "d:v:x:b"[5..] == ":b";
  }

  /** A split succeeds exactly on two colons, and takes what stands before the first,
      between the first two, and behind them. */
  lemma SplitIff(s: string, p: Parts)
    ensures SplitClauseId(s) == Some(p) <==>
      ColonFree(p.document) && ColonFree(p.version) && s == p.document + ":" + p.version + ":" + p.path
  {
    hide SplitClauseId;
    if ColonFree(p.document) && ColonFree(p.version) && s == p.document + ":" + p.version + ":" + p.path {
      SplitMake(p.document, p.version, p.path);
    }
    if SplitClauseId(s) == Some(p) {
      SplitParts(s);
    }
  }

  lemma SplitParts(s: string)
    requires SplitClauseId(s).Some?
    ensures var p := SplitClauseId(s).value;
      ColonFree(p.document) && ColonFree(p.version) && s == p.document + ":" + p.version + ":" + p.path
  {
    hide ColonFree;
    var i := FirstColon(s);
    var rest := s[i + 1..];
    var j := FirstColon(rest);
    AtColon(s, i);
    AtColon(rest, j);
    Regroup(s[..i], rest[..j], rest[j + 1..]);
  }

  lemma AtColon(s: string, i: nat)
    requires i < |s| && s[i] == ':'
    ensures s == s[..i] + ":" + s[i + 1..]
  {
  }

  lemma Regroup(a: string, b: string, c: string)
    ensures a + ":" + (b + ":" + c) == a + ":" + b + ":" + c
  {
  }

  /** The last part is what stands behind the second colon, or else behind the only one,
      or else everything. */
  lemma LastPartMeaning(a: string, b: string, c: string)
    requires ColonFree(a) && ColonFree(b)
    ensures LastPart(a) == a && LastPart(a + ":" + b) == b && LastPart(a + ":" + b + ":" + c) == c
  {
    FirstColonAt(a, b);
    var s, t := a + ":" + b, a + ":" + b + ":" + c;
    assert s[|a| + 1..] == b && t == a + ":" + (b + ":" + c) && t[|a| + 1..] == b + ":" + c;
    FirstColonAt(a, b + ":" + c);
    FirstColonAt(b, c);
    assert (b + ":" + c)[|b| + 1..] == c;
    NoColon(a);
    NoColon(b);
  }

  lemma NoColon(s: string)
    requires ColonFree(s)
    ensures FirstColon(s) == |s|
  {
  }
}
