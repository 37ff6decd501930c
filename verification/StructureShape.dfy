/** The shape of a built structure: intervals that tile, paragraphs nested in their
    articles, and exactly when identifiers collide. */
module StructureShape {
  import opened Common
  import opened Anchors
  import opened Structure
  import ArticleHistory

  // ---- Tilings ----

  ghost predicate Increasing(s: seq<int>) {
    forall i, j :: 0 <= i < j < |s| ==> s[i] < s[j]
  }

  function TileEnd(s: seq<int>, ceiling: int, i: nat): int
    requires i < |s|
  {
    if i + 1 < |s| then Min(s[i + 1], ceiling) else ceiling
  }

  predicate InTile(s: seq<int>, ceiling: int, i: int, p: int) {
    0 <= i < |s| && s[i] <= p < TileEnd(s, ceiling, i)
  }

  /** The last start that is not after `p`. */
  function LastStart(s: seq<int>, p: int): (i: nat)
    requires s != [] && s[0] <= p && Increasing(s)
    ensures i < |s| && s[i] <= p && (i + 1 < |s| ==> p < s[i + 1])
  {
    if s[|s| - 1] <= p then |s| - 1
    else
      var front := s[..|s| - 1];
      assert Increasing(front);
      LastStart(front, p)
  }

  /** Increasing starts and a ceiling tile what lies between the first start and
      the ceiling: a position is in one tile if it lies there, and in none if not. */
  lemma Tiles(s: seq<int>, ceiling: int, p: int)
    requires Increasing(s)
    ensures (exists i :: InTile(s, ceiling, i, p)) <==> s != [] && s[0] <= p < ceiling
    ensures forall i, j :: InTile(s, ceiling, i, p) && InTile(s, ceiling, j, p) ==> i == j
  {
    if s != [] && s[0] <= p < ceiling {
      assert InTile(s, ceiling, LastStart(s, p), p);
    }
    forall i, j | 0 <= i < j < |s| && InTile(s, ceiling, i, p) ensures !InTile(s, ceiling, j, p) {
      assert s[i + 1] <= s[j];
    }
  }

  // ---- Articles and paragraphs ----

  predicate Holds(a: Anchor, p: int) {
    a.start <= p < a.end
  }

  ghost predicate ArticleHolds(d: Doc, i: int, p: int) {
    0 <= i < |d.Articles()| && Holds(d.ArticleAnchor(i), p)
  }

  ghost predicate ParagraphHolds(d: Doc, i: nat, k: int, p: int)
    requires i < |d.Articles()|
  {
    0 <= k < |d.Paragraphs(i)| && Holds(d.ParagraphAnchor(i, k), p)
  }

  function Starts(ms: seq<Match>, base: int): seq<int> {
    seq(|ms|, i requires 0 <= i < |ms| => base + ms[i].start)
  }

  lemma StartsIncrease(ms: seq<Match>, base: int, text: string)
    requires MatchesIn(ms, text)
    ensures Increasing(Starts(ms, base))
  {
  }

  /** The position is before the first annex heading, or before the end of a text
      without one. */
  ghost predicate BeforeAnnex(d: Doc, p: int) {
    match d.m.annex(d.text)
    case Some(at) => p < at
    case None => p < |d.text|
  }

  /** Articles tile the text from the first heading to the first annex, or to the
      end: each position there is in exactly one article, any other in none. */
  lemma ArticlesTile(d: Doc, p: int)
    requires Searches(d.m)
    ensures (exists i :: ArticleHolds(d, i, p)) <==>
      var ms := d.m.articles(d.text); ms != [] && ms[0].start <= p && BeforeAnnex(d, p)
    ensures forall i, j :: ArticleHolds(d, i, p) && ArticleHolds(d, j, p) ==> i == j
  {
    var s := Starts(d.Articles(), 0);
    assert MatchesIn(d.m.articles(d.text), d.text);
    StartsIncrease(d.Articles(), 0, d.text);
    Tiles(s, d.Ceiling(), p);
    forall i: int ensures ArticleHolds(d, i, p) <==> InTile(s, d.Ceiling(), i, p) {
    }
  }

  /** The body of an article is the text of its interval; past the first annex it
      is empty. */
  lemma BodyLength(d: Doc, i: nat)
    requires Searches(d.m) && i < |d.Articles()|
    ensures var a, e := d.Articles()[i].start, d.ArticleEnd(i);
      && e <= d.Ceiling() <= |d.text| && a < |d.text|
      && |PySlice(d.text, a, e)| == (if a <= e then e - a else 0)
      && (a < e <==> a < d.Ceiling())
      && (a <= e ==> PySlice(d.text, a, e) == d.text[a..e])
  {
    hide Searches, IsNumber;
    NumbersAreNumbers(d, i);
  }

  /** Paragraphs tile their article from the first paragraph to the article's end. */
  lemma ParagraphsTile(d: Doc, i: nat, p: int)
    requires Searches(d.m) && i < |d.Articles()|
    ensures (exists k :: ParagraphHolds(d, i, k, p))
       <==> d.Paragraphs(i) != [] && d.Articles()[i].start + d.Paragraphs(i)[0].start <= p < d.ArticleEnd(i)
    ensures forall j, k :: ParagraphHolds(d, i, j, p) && ParagraphHolds(d, i, k, p) ==> j == k
  {
    hide Searches, IsNumber;
    var a, ms := d.Articles()[i].start, d.Paragraphs(i);
    var s := Starts(ms, a);
    NumbersAreNumbers(d, i);
    BodyLength(d, i);
    StartsIncrease(ms, a, PySlice(d.text, a, d.ArticleEnd(i)));
    Tiles(s, d.ArticleEnd(i), p);
    forall k: int ensures ParagraphHolds(d, i, k, p) <==> InTile(s, d.ArticleEnd(i), k, p) {
    }
  }

  /** Every paragraph lies inside its article and before the first annex, is not
      empty, and names its article as parent. */
  lemma ParagraphsNest(d: Doc, i: nat, k: nat)
    requires Searches(d.m) && i < |d.Articles()| && k < |d.Paragraphs(i)|
    ensures var a, p := d.ArticleAnchor(i), d.ParagraphAnchor(i, k);
      && a.start <= p.start < p.end <= a.end && BeforeAnnex(d, a.end - 1) && p.parent == Some(a.id)
      && PySlice(d.text, p.start, p.end) == d.text[p.start..p.end]
  {
    hide Searches, IsNumber;
    NumbersAreNumbers(d, i);
    BodyLength(d, i);
  }

  /** An article heading at or after the first annex gets an interval that ends where
      the annex starts, so before it starts or where it does, and no paragraphs; every
      other article has text of its own. */
  lemma LateArticlesAreEmpty(d: Doc, i: nat)
    requires Searches(d.m) && i < |d.Articles()|
    ensures var a := d.ArticleAnchor(i);
      && (a.end <= a.start <==> !BeforeAnnex(d, a.start))
      && (!BeforeAnnex(d, a.start) ==> d.m.annex(d.text) == Some(a.end) && d.ParagraphAnchors(i) == [])
  {
    hide Searches, IsNumber;
    NumbersAreNumbers(d, i);
    BodyLength(d, i);
    var ms := d.Paragraphs(i);
    assert ms != [] ==> ms[0].start < |PySlice(d.text, d.Articles()[i].start, d.ArticleEnd(i))|;
    assert d.ParagraphAnchors(i) == [] <==> ms == [];
  }

  // ---- The built anchors ----

  /** `e` is the earlier of the next heading's start, if there is one, and the first
      annex heading, or the end of a text without one. */
  ghost predicate IsArticleEnd(d: Doc, i: nat, e: int) {
    var ms := d.m.articles(d.text);
    && (forall p :: p < e <==> (i + 1 < |ms| ==> p < ms[i + 1].start) && BeforeAnnex(d, p))
  }

  ghost predicate IsArticle(d: Doc, i: nat, a: Anchor) {
    var ms := d.m.articles(d.text);
    && i < |ms| && IsArticleEnd(d, i, a.end)
    && a == Anchor(d.id + ":" + d.version + ":article-" + ms[i].number, Article, Some("Article " + ms[i].number),
                   ms[i].start, a.end, None)
  }

  /** The `k`-th paragraph heading found in the text of the article's interval. */
  ghost predicate IsParagraph(d: Doc, i: nat, k: nat, e: int, a: Anchor) {
    var ms := d.m.articles(d.text);
    && i < |ms| && IsArticleEnd(d, i, e)
    && var ps := d.m.paragraphs(if ms[i].start <= e <= |d.text| then d.text[ms[i].start..e] else "");
       && k < |ps|
       && a == Anchor(d.id + ":" + d.version + ":article-" + ms[i].number + "/paragraph-" + ps[k].number, Paragraph,
                      Some("Article " + ms[i].number + "(" + ps[k].number + ")"), ms[i].start + ps[k].start,
                      if k + 1 < |ps| then ms[i].start + ps[k + 1].start else e,
                      Some(d.id + ":" + d.version + ":article-" + ms[i].number))
  }

  ghost predicate HasParagraph(d: Doc, i: nat, k: nat, a: Anchor) {
    exists e :: IsParagraph(d, i, k, e, a)
  }

  lemma EndIsEnd(d: Doc, i: nat, e: int)
    requires Searches(d.m) && i < |d.Articles()|
    ensures IsArticleEnd(d, i, e) <==> e == d.ArticleEnd(i)
    ensures 0 <= d.ArticleEnd(i) <= |d.text|
  {
    hide Searches, IsNumber;
    NumbersAreNumbers(d, i);
    BodyLength(d, i);
    if IsArticleEnd(d, i, e) {
      var f: int := d.ArticleEnd(i);
      assert IsArticleEnd(d, i, f);
      assert BeforeAnnex(d, e - 1) && BeforeAnnex(d, f - 1);
    }
  }

  lemma ArticleIs(d: Doc, i: nat, a: Anchor)
    requires Searches(d.m)
    ensures IsArticle(d, i, a) <==> i < |d.Articles()| && a == d.ArticleAnchor(i)
  {
    hide Searches, IsArticleEnd, IsNumber;
    if i < |d.Articles()| {
      EndIsEnd(d, i, a.end);
      ArticleIdIs(d, d.Articles()[i].number);
    }
  }

  lemma ArticleIdIs(d: Doc, number: string)
    ensures d.ArticleId(number) == d.id + ":" + d.version + ":article-" + number
  {
    assert d.id + ":" + d.version + ":" + ("article-" + number) == d.id + ":" + d.version + ":article-" + number;
  }

  lemma ParagraphIdIs(d: Doc, number: string, paragraph: string)
    ensures d.ParagraphId(number, paragraph)
      == d.id + ":" + d.version + ":article-" + number + "/paragraph-" + paragraph
  {
    assert d.id + ":" + d.version + ":" + ("article-" + number + "/paragraph-" + paragraph)
      == d.id + ":" + d.version + ":article-" + number + "/paragraph-" + paragraph;
  }

  lemma ParagraphIs(d: Doc, i: nat, k: nat, a: Anchor)
    requires Searches(d.m)
    ensures HasParagraph(d, i, k, a) <==>
      i < |d.Articles()| && k < |d.Paragraphs(i)| && a == d.ParagraphAnchor(i, k)
  {
    hide Searches, IsArticleEnd, IsNumber;
    if i < |d.Articles()| {
      var e := d.ArticleEnd(i);
      forall x ensures IsArticleEnd(d, i, x) <==> x == e {
        EndIsEnd(d, i, x);
      }
      BodyLength(d, i);
      assert PySlice(d.text, d.Articles()[i].start, e)
        == if d.Articles()[i].start <= e <= |d.text| then d.text[d.Articles()[i].start..e] else "";
      if k < |d.Paragraphs(i)| {
        ArticleIdIs(d, d.Articles()[i].number);
        ParagraphIdIs(d, d.Articles()[i].number, d.Paragraphs(i)[k].number);
        assert a == d.ParagraphAnchor(i, k) <==> IsParagraph(d, i, k, e, a);
      }
    }
  }

  lemma {:induction false} SectionsHave(d: Doc, n: nat, a: Anchor)
    requires n <= |d.Articles()|
    ensures a in d.Sections(n) <==>
      || (exists i :: 0 <= i < n && a == d.ArticleAnchor(i))
      || (exists i, k :: 0 <= i < n && 0 <= k < |d.Paragraphs(i)| && a == d.ParagraphAnchor(i, k))
  {
    if n > 0 {
      var m := n - 1;
      SectionsHave(d, m, a);
      var ps := d.ParagraphAnchors(m);
      assert a in d.Sections(n) <==> a in d.Sections(m) || a == d.ArticleAnchor(m) || a in ps;
      if k :| 0 <= k < |d.Paragraphs(m)| && a == d.ParagraphAnchor(m, k) {
        assert ps[k] == a;
      }
    }
  }

  /** What is built: without article headings one anchor for the whole text; otherwise
      the anchors of the articles and of their paragraphs, and no others. */
  lemma BuiltMeaning(d: Doc, a: Anchor)
    requires Searches(d.m) && Built(d).Ok?
    ensures a in Built(d).value <==>
      if d.m.articles(d.text) == [] then
        a == Anchor(d.id + ":" + d.version + ":document", Article, None, 0, |d.text|, None)
      else (exists i: nat :: IsArticle(d, i, a)) || (exists i: nat, k: nat :: HasParagraph(d, i, k, a))
  {
    hide Searches, IsArticle, HasParagraph, Distinct;
    if d.Articles() == [] {
      assert MakeAnchorId(d.id, d.version, "document") == d.id + ":" + d.version + ":document";
    } else {
      SectionsHave(d, |d.Articles()|, a);
      forall i: nat ensures IsArticle(d, i, a) <==> i < |d.Articles()| && a == d.ArticleAnchor(i) {
        ArticleIs(d, i, a);
      }
      forall i: nat, k: nat
        ensures HasParagraph(d, i, k, a) <==>
          i < |d.Articles()| && k < |d.Paragraphs(i)| && a == d.ParagraphAnchor(i, k)
      {
        ParagraphIs(d, i, k, a);
      }
    }
  }

  /** No built anchor takes in annex text: in a text with article headings each ends
      before the first annex, and what starts there or later is empty. */
  lemma NothingPassesAnnex(d: Doc, a: Anchor, at: nat)
    requires Searches(d.m) && Built(d).Ok? && a in Built(d).value
    requires d.m.articles(d.text) != [] && d.m.annex(d.text) == Some(at)
    ensures a.end <= at && (at <= a.start ==> a.kind == Article && a.end == at)
  {
    hide Searches, Distinct;
    SectionsHave(d, |d.Articles()|, a);
    if i :| 0 <= i < |d.Articles()| && a == d.ArticleAnchor(i) {
      LateArticlesAreEmpty(d, i);
      BodyLength(d, i);
    } else {
      var i, k :| 0 <= i < |d.Articles()| && 0 <= k < |d.Paragraphs(i)| && a == d.ParagraphAnchor(i, k);
      ParagraphsNest(d, i, k);
    }
  }

  // ---- Collisions ----

  ghost predicate NumbersDiffer(ms: seq<Match>) {
    forall i, j :: 0 <= i < j < |ms| ==> ms[i].number != ms[j].number
  }

  /** Position of the first slash, or the length. */
  function FirstSlash(s: string): (i: nat)
    ensures i <= |s| && (i < |s| ==> s[i] == '/') && forall j :: 0 <= j < i ==> s[j] != '/'
  {
    if s == "" || s[0] == '/' then 0 else 1 + FirstSlash(s[1..])
  }

  function Prefix(d: Doc): string {
    d.id + ":" + d.version + ":article-"
  }

  /** The article number an identifier of the document carries. */
  function Stem(d: Doc, id: string): string {
    if |id| < |Prefix(d)| then "" else id[|Prefix(d)|..][..FirstSlash(id[|Prefix(d)|..])]
  }

  function Tail(d: Doc, id: string): string {
    if |id| < |Prefix(d)| then "" else id[|Prefix(d)|..][FirstSlash(id[|Prefix(d)|..])..]
  }

  lemma StemAndTail(d: Doc, number: string, rest: string)
    requires IsNumber(number) && (rest == "" || rest[0] == '/')
    ensures Stem(d, Prefix(d) + number + rest) == number && Tail(d, Prefix(d) + number + rest) == rest
  {
    var id := Prefix(d) + number + rest;
    assert id[|Prefix(d)|..] == number + rest;
    var i := FirstSlash(number + rest);
    assert forall j :: 0 <= j < |number| ==> (number + rest)[j] == number[j];
    assert rest != "" ==> (number + rest)[|number|] == '/';
    assert i == |number|;
    assert (number + rest)[..i] == number && (number + rest)[i..] == rest;
  }

  lemma ArticleParts(d: Doc, number: string)
    requires IsNumber(number)
    ensures Stem(d, d.ArticleId(number)) == number && Tail(d, d.ArticleId(number)) == ""
  {
    hide Stem, Tail, IsNumber;
    StemAndTail(d, number, "");
    assert d.ArticleId(number) == Prefix(d) + number + "";
  }

  lemma ParagraphParts(d: Doc, number: string, paragraph: string)
    requires IsNumber(number)
    ensures Stem(d, d.ParagraphId(number, paragraph)) == number
      && Tail(d, d.ParagraphId(number, paragraph)) == "/paragraph-" + paragraph
  {
    hide Stem, Tail, IsNumber;
    StemAndTail(d, number, "/paragraph-" + paragraph);
    assert d.ParagraphId(number, paragraph) == Prefix(d) + number + ("/paragraph-" + paragraph);
  }

  ghost function Section(d: Doc, i: nat): seq<Anchor>
    requires i < |d.Articles()|
  {
    [d.ArticleAnchor(i)] + d.ParagraphAnchors(i)
  }

  lemma SectionStems(d: Doc, i: nat, x: string)
    requires Searches(d.m) && i < |d.Articles()| && x in Ids(Section(d, i))
    ensures Stem(d, x) == d.Articles()[i].number
  {
    hide Searches, Stem, Tail, IsNumber;
    var number := d.Articles()[i].number;
    NumbersAreNumbers(d, i);
    ArticleParts(d, number);
    var j :| 0 <= j < |Section(d, i)| && x == Ids(Section(d, i))[j];
    if j > 0 {
      ParagraphParts(d, number, d.Paragraphs(i)[j - 1].number);
    }
  }

  /** Within one article, identifiers differ exactly when paragraph numbers do. */
  lemma SectionDistinct(d: Doc, i: nat)
    requires Searches(d.m) && i < |d.Articles()|
    ensures Distinct(Ids(Section(d, i))) <==> NumbersDiffer(d.Paragraphs(i))
  {
    hide Searches, Stem, Tail, IsNumber, Section, Ids;
    var number, ms := d.Articles()[i].number, d.Paragraphs(i);
    var ids := Ids(Section(d, i));
    SectionTails(d, i);
    forall j, k | 0 <= j < k < |ids| ensures ids[j] == ids[k] <==> j > 0 && ms[j - 1].number == ms[k - 1].number {
      SlashTails(ms[k - 1].number, if j > 0 then ms[j - 1].number else "");
    }
    if Distinct(ids) {
      forall j, k | 0 <= j < k < |ms| ensures ms[j].number != ms[k].number {
        assert ids[j + 1] != ids[k + 1];
      }
    }
  }

  lemma SlashTails(a: string, b: string)
    ensures "/paragraph-" + a != "" && ("/paragraph-" + a == "/paragraph-" + b <==> a == b)
  {
    assert ("/paragraph-" + a)[11..] == a && ("/paragraph-" + b)[11..] == b;
  }

  /** The ids of a section: the article's, and its paragraphs' with their numbers. */
  lemma SectionTails(d: Doc, i: nat)
    requires Searches(d.m) && i < |d.Articles()|
    ensures var ids, ms, number := Ids(Section(d, i)), d.Paragraphs(i), d.Articles()[i].number;
      && |ids| == |ms| + 1 && Tail(d, ids[0]) == ""
      && (forall k :: 0 <= k < |ms| ==> ids[k + 1] == d.ParagraphId(number, ms[k].number))
      && (forall k :: 0 <= k < |ms| ==> Tail(d, ids[k + 1]) == "/paragraph-" + ms[k].number)
  {
    hide Searches, Stem, Tail, IsNumber;
    var number, ms := d.Articles()[i].number, d.Paragraphs(i);
    NumbersAreNumbers(d, i);
    ArticleParts(d, number);
    forall k | 0 <= k < |ms|
      ensures Tail(d, d.ParagraphId(number, ms[k].number)) == "/paragraph-" + ms[k].number
    {
      ParagraphParts(d, number, ms[k].number);
    }
  }

  ghost predicate Apart(a: seq<string>, b: seq<string>) {
    forall x :: x in a ==> x !in b
  }

  lemma DistinctAppend(a: seq<string>, b: seq<string>)
    ensures Distinct(a + b) <==> Distinct(a) && Distinct(b) && Apart(a, b)
  {
    var c := a + b;
    assert forall i :: 0 <= i < |a| ==> c[i] == a[i];
    assert forall i :: 0 <= i < |b| ==> c[|a| + i] == b[i];
    if Distinct(a) && Distinct(b) && Apart(a, b) {
      forall i, j | 0 <= i < j < |c| ensures c[i] != c[j] {
        if i < |a| <= j { assert a[i] in a && b[j - |a|] in b; }
      }
    }
    if Distinct(c) {
      forall i, j | 0 <= i < j < |b| ensures b[i] != b[j] { assert c[|a| + i] != c[|a| + j]; }
      forall i, j | 0 <= i < |a| && 0 <= j < |b| ensures a[i] != b[j] {
        assert c[i] != c[|a| + j];
      }
    }
  }

  /** The identifiers of the first `n` sections. */
  ghost function IdsTo(d: Doc, n: nat): seq<string>
    requires n <= |d.Articles()|
  {
    Ids(d.Sections(n))
  }

  lemma IdsToStep(d: Doc, n: nat)
    requires 0 < n <= |d.Articles()|
    ensures IdsTo(d, n) == IdsTo(d, n - 1) + Ids(Section(d, n - 1))
    ensures d.ArticleId(d.Articles()[n - 1].number) in Ids(Section(d, n - 1))
  {
    hide MakeAnchorId;
    assert d.Sections(n) == d.Sections(n - 1) + Section(d, n - 1);
    assert Ids(Section(d, n - 1))[0] == d.ArticleId(d.Articles()[n - 1].number);
  }

  /** Some section up to `n` has this article number. */
  ghost predicate NumberBefore(d: Doc, n: nat, number: string)
    requires n <= |d.Articles()|
  {
    exists i :: 0 <= i < n && d.Articles()[i].number == number
  }

  lemma {:induction false} SectionsStems(d: Doc, n: nat, x: string)
    requires Searches(d.m) && n <= |d.Articles()| && x in IdsTo(d, n)
    ensures NumberBefore(d, n, Stem(d, x))
  {
    hide Searches, Stem, MakeAnchorId, IdsTo, Ids, Section;
    if n == 0 {
      NoSectionsNoIds(d);
      assert false;
    } else {
      IdsToStep(d, n);
      if x in IdsTo(d, n - 1) {
        SectionsStems(d, n - 1, x);
      } else {
        SectionStems(d, n - 1, x);
      }
    }
  }

  lemma NoSectionsNoIds(d: Doc)
    ensures IdsTo(d, 0) == []
  {
  }

  lemma {:induction false} SectionHead(d: Doc, n: nat, i: nat)
    requires i < n <= |d.Articles()|
    ensures d.ArticleId(d.Articles()[i].number) in IdsTo(d, n)
  {
    hide MakeAnchorId, IdsTo, Ids, Section;
    IdsToStep(d, n);
    if i < n - 1 {
      SectionHead(d, n - 1, i);
    }
  }

  /** A section repeats no earlier identifier exactly when its article number is
      new. */
  lemma SectionIsNew(d: Doc, n: nat)
    requires Searches(d.m) && 0 < n <= |d.Articles()|
    ensures Apart(IdsTo(d, n - 1), Ids(Section(d, n - 1))) <==> !NumberBefore(d, n - 1, d.Articles()[n - 1].number)
  {
    hide Searches, Stem, MakeAnchorId, IdsTo, Ids, Section;
    var number := d.Articles()[n - 1].number;
    IdsToStep(d, n);
    var earlier, now := IdsTo(d, n - 1), Ids(Section(d, n - 1));
    forall x | x in earlier && x in now ensures NumberBefore(d, n - 1, number) {
      SectionsStems(d, n - 1, x);
      SectionStems(d, n - 1, x);
    }
    if NumberBefore(d, n - 1, number) {
      var i :| 0 <= i < n - 1 && d.Articles()[i].number == number;
      SectionHead(d, n - 1, i);
    }
  }

  /** The collision check passes exactly when no article number repeats and no
      paragraph number repeats within an article. */
  lemma {:induction false} NoCollisionIff(d: Doc, n: nat)
    requires Searches(d.m) && n <= |d.Articles()|
    ensures Distinct(IdsTo(d, n))
       <==> NumbersDiffer(d.Articles()[..n]) && forall i :: 0 <= i < n ==> NumbersDiffer(d.Paragraphs(i))
  {
    hide Searches, Stem, Distinct, IsNumber, MakeAnchorId, IdsTo, Ids, Section;
    if n == 0 {
      DistinctNothing();
      NoSectionsNoIds(d);
    } else {
      NoCollisionIff(d, n - 1);
      IdsToStep(d, n);
      SectionDistinct(d, n - 1);
      DistinctAppend(IdsTo(d, n - 1), Ids(Section(d, n - 1)));
      SectionIsNew(d, n);
      NumbersAppend(d.Articles(), n);
    }
  }

  lemma DistinctNothing()
    ensures Distinct<string>([])
  {
  }

  lemma NumbersAppend(ms: seq<Match>, n: nat)
    requires 0 < n <= |ms|
    ensures NumbersDiffer(ms[..n]) <==> NumbersDiffer(ms[..n - 1]) && forall i :: 0 <= i < n - 1 ==>
      ms[i].number != ms[n - 1].number
  {
    var s, t := ms[..n], ms[..n - 1];
    assert forall i :: 0 <= i < n ==> s[i] == ms[i];
    assert forall i :: 0 <= i < n - 1 ==> t[i] == ms[i];
    if NumbersDiffer(s) {
      forall i, j | 0 <= i < j < |t| ensures t[i].number != t[j].number { assert s[i].number != s[j].number; }
      forall i | 0 <= i < n - 1 ensures ms[i].number != ms[n - 1].number { assert s[i].number != s[n - 1].number; }
    }
  }

  // ---- Registered documents ----

  /** Structural paths never contain a colon, so a document registered with the
      anchors built for it is what the article-history walk relies on. */
  lemma BuiltIsWellAnchored(d: Doc, instrument: string)
    requires Searches(d.m) && ColonFree(d.id) && ColonFree(d.version) && Built(d).Ok?
    ensures ArticleHistory.WellAnchored(ArticleHistory.Document(d.id, d.version, instrument, Ids(Built(d).value)))
  {
    hide Searches, IsNumber, MakeAnchorId, ColonFree;
    var anchors := Built(d).value;
    forall x | x in Ids(anchors) ensures exists path :: ColonFree(path) && x == MakeAnchorId(d.id, d.version, path) {
      var path := BuiltPath(d, x);
    }
  }

  /** Every anchor of a built structure is the document's, at a colon-free path. */
  lemma BuiltPath(d: Doc, x: string) returns (path: string)
    requires Searches(d.m) && Built(d).Ok? && x in Ids(Built(d).value)
    ensures ColonFree(path) && x == MakeAnchorId(d.id, d.version, path)
  {
    hide Searches, MakeAnchorId, Distinct;
    if d.Articles() == [] {
      assert Ids([d.WholeDocument()]) == [MakeAnchorId(d.id, d.version, "document")];
      path := "document";
    } else {
      path := PathOf(d, |d.Articles()|, x);
    }
  }

  /** Building fails only on a repeated number, and what is built has different ids. */
  lemma BuiltIff(d: Doc)
    requires Searches(d.m)
    ensures Built(d).Ok? <==> NumbersDiffer(d.Articles()) && forall i :: 0 <= i < |d.Articles()| ==>
      NumbersDiffer(d.Paragraphs(i))
    ensures Built(d).Ok? ==> Distinct(Ids(Built(d).value))
  {
    hide Searches, IsNumber, MakeAnchorId;
    var n := |d.Articles()|;
    NoCollisionIff(d, n);
    assert d.Articles()[..n] == d.Articles();
  }

  lemma {:induction false} PathOf(d: Doc, n: nat, x: string) returns (path: string)
    requires Searches(d.m) && n <= |d.Articles()| && x in IdsTo(d, n)
    ensures ColonFree(path) && x == MakeAnchorId(d.id, d.version, path)
  {
    hide Searches, MakeAnchorId, IdsTo, Ids, Section;
    if n == 0 {
      NoSectionsNoIds(d);
      assert false;
    } else {
      IdsToStep(d, n);
      if x in IdsTo(d, n - 1) {
        path := PathOf(d, n - 1, x);
      } else {
        path := PathIn(d, n - 1, x);
      }
    }
  }

  lemma PathIn(d: Doc, i: nat, x: string) returns (path: string)
    requires Searches(d.m) && i < |d.Articles()| && x in Ids(Section(d, i))
    ensures ColonFree(path) && x == MakeAnchorId(d.id, d.version, path)
  {
    hide Searches, MakeAnchorId;
    NumbersAreNumbers(d, i);
    var ids := Ids(Section(d, i));
    var j :| 0 <= j < |ids| && ids[j] == x;
    var number := d.Articles()[i].number;
    if j == 0 {
      path := "article-" + number;
    } else {
      path := "article-" + number + "/paragraph-" + d.Paragraphs(i)[j - 1].number;
      assert IsNumber(d.Paragraphs(i)[j - 1].number);
    }
  }
}
