/** The structure builder: article anchors capped by the first annex heading,
    paragraph anchors nested under them, and the collision check. Heading matchers
    are parameters. */
module Structure {
  import opened Common
  import opened Anchors

  datatype AnchorType = Article | Paragraph

  datatype Anchor = Anchor(id: string, kind: AnchorType, title: Option<string>, start: int, end: int,
    parent: Option<string>)

  /** One heading match: its number and where it starts. */
  datatype Match = Match(number: string, start: nat)

  datatype Matchers = Matchers(articles: string -> seq<Match>, annex: string -> Option<nat>,
    paragraphs: string -> seq<Match>)

  /** Numbers contain none of the characters that separate path parts. */
  predicate IsNumber(s: string) {
    s != "" && forall i :: 0 <= i < |s| ==> s[i] != '/' && s[i] != ':' && s[i] != '-'
  }

  /** What a search returns: non-empty matches in the text, from left to right. */
  ghost predicate MatchesIn(ms: seq<Match>, text: string) {
    && (forall i, j :: 0 <= i < j < |ms| ==> ms[i].start < ms[j].start)
    && (forall i :: 0 <= i < |ms| ==> ms[i].start < |text| && IsNumber(ms[i].number))
  }

  ghost predicate Searches(m: Matchers) {
    && (forall t :: MatchesIn(m.articles(t), t))
    && (forall t :: MatchesIn(m.paragraphs(t), t))
    && (forall t :: m.annex(t).Some? ==> m.annex(t).value < |t|)
  }

  /** The document under construction. */
  datatype Doc = Doc(text: string, id: string, version: string, m: Matchers) {
    function Articles(): seq<Match> { m.articles(text) }

    /** Where articles must end: the first annex heading or the end of the text. */
    function Ceiling(): nat {
      match m.annex(text) case Some(at) => at case None => |text|
    }

    function ArticleEnd(i: nat): nat
      requires i < |Articles()|
    {
      if i + 1 < |Articles()| then Min(Articles()[i + 1].start, Ceiling()) else Ceiling()
    }

    function ArticleId(number: string): string {
      MakeAnchorId(id, version, "article-" + number)
    }

    function ParagraphId(number: string, paragraph: string): string {
      MakeAnchorId(id, version, "article-" + number + "/paragraph-" + paragraph)
    }

    function ArticleAnchor(i: nat): Anchor
      requires i < |Articles()|
    {
      var a := Articles()[i];
      Anchor(ArticleId(a.number), Article, Some("Article " + a.number), a.start, ArticleEnd(i), None)
    }

    /** Paragraph headings of an article, relative to its start. An article that
        starts after the first annex has an empty body. */
    function Paragraphs(i: nat): seq<Match>
      requires i < |Articles()|
    {
      m.paragraphs(PySlice(text, Articles()[i].start, ArticleEnd(i)))
    }

    function ParagraphEnd(i: nat, k: nat): int
      requires i < |Articles()| && k < |Paragraphs(i)|
    {
      if k + 1 < |Paragraphs(i)| then Articles()[i].start + Paragraphs(i)[k + 1].start else ArticleEnd(i)
    }

    function ParagraphAnchor(i: nat, k: nat): Anchor
      requires i < |Articles()| && k < |Paragraphs(i)|
    {
      var a, p := Articles()[i], Paragraphs(i)[k];
      Anchor(ParagraphId(a.number, p.number), Paragraph, Some("Article " + a.number + "(" + p.number + ")"),
             a.start + p.start, ParagraphEnd(i, k), Some(ArticleId(a.number)))
    }

    function ParagraphAnchors(i: nat): seq<Anchor>
      requires i < |Articles()|
    {
      seq(|Paragraphs(i)|, k requires 0 <= k < |Paragraphs(i)| => ParagraphAnchor(i, k))
    }

    /** The anchors of the first `n` articles. */
    function Sections(n: nat): seq<Anchor>
      requires n <= |Articles()|
    {
      if n == 0 then [] else Sections(n - 1) + [ArticleAnchor(n - 1)] + ParagraphAnchors(n - 1)
    }

    function WholeDocument(): Anchor {
      Anchor(MakeAnchorId(id, version, "document"), Article, None, 0, |text|, None)
    }
  }

  function Ids(anchors: seq<Anchor>): (ids: seq<string>)
    ensures |ids| == |anchors| && forall i :: 0 <= i < |ids| ==> ids[i] == anchors[i].id
  {
    seq(|anchors|, i requires 0 <= i < |anchors| => anchors[i].id)
  }

  // ---- The builder ----

  /** `article_path.split("-")[-1]`. */
  function LastDashPart(s: string): string {
    if s == "" then ""
    else if s[|s| - 1] == '-' then ""
    else LastDashPart(s[..|s| - 1]) + [s[|s| - 1]]
  }

  lemma {:induction false} LastDashOfPath(prefix: string, number: string)
    requires forall i :: 0 <= i < |number| ==> number[i] != '-'
    ensures LastDashPart(prefix + "-" + number) == number
  {
    var s := prefix + "-" + number;
    if number == "" {
      assert s[|s| - 1] == '-';
    } else {
      var front := number[..|number| - 1];
      LastDashOfPath(prefix, front);
      assert s[..|s| - 1] == prefix + "-" + front;
      assert s[|s| - 1] == number[|number| - 1];
    }
  }

  method BuildParagraphAnchors(d: Doc, i: nat) returns (anchors: seq<Anchor>)
    requires Searches(d.m) && i < |d.Articles()|
    ensures anchors == d.ParagraphAnchors(i)
  {
    hide Searches;
    var a, end := d.Articles()[i], d.ArticleEnd(i);
    var path := "article-" + a.number;
    var body := PySlice(d.text, a.start, end);
    var matches := d.m.paragraphs(body);
    assert IsNumber(a.number) by { NumbersAreNumbers(d, i); }
    LastDashOfPath("article", a.number);
    assert "article" + "-" + a.number == path;
    anchors := [];
    var k := 0;
    while k < |matches|
      invariant k <= |matches| && |anchors| == k
      invariant forall j :: 0 <= j < k ==> anchors[j] == d.ParagraphAnchor(i, j)
    {
      var number := matches[k].number;
      var start := a.start + matches[k].start;
      var stop := if k + 1 < |matches| then a.start + matches[k + 1].start else end;
      var title := "Article " + LastDashPart(path) + "(" + number + ")";
      anchors := anchors + [Anchor(MakeAnchorId(d.id, d.version, path + "/paragraph-" + number), Paragraph, Some(title),
        start, stop, Some(d.ArticleId(a.number)))];
      assert path + "/paragraph-" + number == "article-" + a.number + "/paragraph-" + number;
      k := k + 1;
    }
  }

  lemma NumbersAreNumbers(d: Doc, i: nat)
    requires Searches(d.m) && i < |d.Articles()|
    ensures IsNumber(d.Articles()[i].number) && d.Articles()[i].start < |d.text|
    ensures MatchesIn(d.Paragraphs(i), PySlice(d.text, d.Articles()[i].start, d.ArticleEnd(i)))
    ensures MatchesIn(d.Articles(), d.text) && d.Ceiling() <= |d.text|
  {
    assert MatchesIn(d.m.articles(d.text), d.text);
  }

  /** Walks the anchors with the identifiers seen so far. */
  method NoCollisions(anchors: seq<Anchor>) returns (ok: bool)
    ensures ok <==> Distinct(Ids(anchors))
  {
    var seen: map<string, Anchor> := map[];
    var i := 0;
    while i < |anchors|
      invariant i <= |anchors| && Distinct(Ids(anchors)[..i])
      invariant forall id :: id in seen <==> id in Ids(anchors)[..i]
    {
      var ids := Ids(anchors);
      if anchors[i].id in seen {
        var j :| 0 <= j < i && ids[..i][j] == anchors[i].id;
        assert ids[j] == ids[i];
        return false;
      }
      assert ids[..i + 1] == ids[..i] + [ids[i]];
      seen := seen[anchors[i].id := anchors[i]];
      i := i + 1;
    }
    assert Ids(anchors)[..i] == Ids(anchors);
    ok := true;
  }

  datatype StructureError = AnchorIdCollision

  /** Without articles the whole text is one anchor, and no check is made. */
  function Built(d: Doc): Result<seq<Anchor>, StructureError> {
    if d.Articles() == [] then Ok([d.WholeDocument()])
    else
      var all := d.Sections(|d.Articles()|);
      if Distinct(Ids(all)) then Ok(all) else Err(AnchorIdCollision)
  }

  method BuildStructure(d: Doc) returns (r: Result<seq<Anchor>, StructureError>)
    requires Searches(d.m)
    ensures r == Built(d)
  {
    hide Searches, Distinct;
    var articles := d.Articles();
    if articles == [] {
      return Ok([d.WholeDocument()]);
    }
    var anchors := [];
    var i := 0;
    while i < |articles|
      invariant i <= |articles| && anchors == d.Sections(i)
    {
      var paragraphs := BuildParagraphAnchors(d, i);
      anchors := anchors + [d.ArticleAnchor(i)] + paragraphs;
      i := i + 1;
    }
    var ok := NoCollisions(anchors);
    r := if ok then Ok(anchors) else Err(AnchorIdCollision);
  }
}
