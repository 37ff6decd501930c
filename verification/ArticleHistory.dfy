/** Prior versions of a clause's article: a walk along SUPERSEDES links through
    the published history, restricted to registered documents. */
module ArticleHistory {
  import opened Common
  import opened Anchors
  import opened GraphStore

  datatype Document = Document(id: string, version: string, instrument: string, anchors: seq<string>)

  /** One prior version; `revisions` is the review history found for the clause. */
  datatype Entry<H> = Entry(version: string, clauseId: string, revisions: H)

  datatype HistoryError = MalformedClauseId

  /** The `i`-th document is the first one with this id and version. */
  ghost predicate FirstWithId(docs: seq<Document>, id: string, version: string, i: int) {
    && 0 <= i < |docs| && docs[i].id == id && docs[i].version == version
    && forall j :: 0 <= j < i ==> docs[j].id != id || docs[j].version != version
  }

  /** The first registered document with this id and version. */
  function GetDocument(docs: seq<Document>, id: string, version: string): (r: Option<Document>)
    ensures r.Some? ==> exists i :: FirstWithId(docs, id, version, i) && docs[i] == r.value
    ensures r.None? ==> forall d :: d in docs ==> d.id != id || d.version != version
  {
    if docs == [] then None
    else if docs[0].id == id && docs[0].version == version then
      assert FirstWithId(docs, id, version, 0);
      Some(docs[0])
    else
      var r := GetDocument(docs[1..], id, version);
      assert forall i :: FirstWithId(docs[1..], id, version, i) ==> FirstWithId(docs, id, version, i + 1);
      r
  }

  /** The `i`-th document is the first one of the instrument with this version. */
  ghost predicate FirstOfInstrument(docs: seq<Document>, instrument: string, version: string, i: int) {
    && 0 <= i < |docs| && docs[i].instrument == instrument && docs[i].version == version
    && forall j :: 0 <= j < i ==> docs[j].instrument != instrument || docs[j].version != version
  }

  /** The first registered document of the instrument with this version. */
  function GetByInstrument(docs: seq<Document>, instrument: string, version: string): (r: Option<Document>)
    ensures r.Some? ==> exists i :: FirstOfInstrument(docs, instrument, version, i) && docs[i] == r.value
    ensures r.None? ==> forall d :: d in docs ==> d.instrument != instrument || d.version != version
  {
    if docs == [] then None
    else if docs[0].instrument == instrument && docs[0].version == version then
      assert FirstOfInstrument(docs, instrument, version, 0);
      Some(docs[0])
    else
      var r := GetByInstrument(docs[1..], instrument, version);
      assert forall i :: FirstOfInstrument(docs[1..], instrument, version, i) ==>
        FirstOfInstrument(docs, instrument, version, i + 1);
      r
  }

  predicate HasAnchor(d: Document, path: string) {
    exists a | a in d.anchors :: EndsWith(a, ":" + path)
  }

  /** Some anchor of the document is the path behind a colon. */
  lemma AnchorMeaning(d: Document, path: string)
    ensures HasAnchor(d, path) <==> exists a, head :: a in d.anchors && a == head + ":" + path
  {
    var tail := ":" + path;
    forall a ensures EndsWith(a, tail) <==> exists head :: a == head + ":" + path {
      if EndsWith(a, tail) {
        assert a == a[..|a| - |tail|] + ":" + path;
      }
      if head :| a == head + ":" + path {
        assert a == head + tail;
      }
    }
  }

  ghost function Versions(docs: seq<Document>): set<string> {
    set d | d in docs :: d.version
  }

  /** The versions a history names, oldest step last. */
  ghost function VersionAt<H>(start: string, h: seq<Entry<H>>, i: nat): string
    requires i <= |h|
  {
    if i == 0 then start else h[i - 1].version
  }

  /** One step of the chain: a published SUPERSEDES link between the two versions,
      and a registered document that still has the article. */
  ghost predicate GoodStep<H>(s: Store, docs: seq<Document>, instrument: string, path: string, lookup: string -> H,
                              from: string, e: Entry<H>) {
    && (exists t :: SupersedesTarget(s, instrument, from, 0) == Some(t) && SupersedesLink(s, instrument, from, t)
          && t.sourceVersion == Some(e.version))
    && (exists i :: FirstOfInstrument(docs, instrument, e.version, i) && HasAnchor(docs[i], path)
                    && e.clauseId == MakeAnchorId(docs[i].id, e.version, path) && e.revisions == lookup(e.clauseId))
  }

  ghost predicate GoodChain<H>(s: Store, docs: seq<Document>, instrument: string, path: string, lookup: string -> H,
                               start: string, h: seq<Entry<H>>) {
    forall i :: 0 <= i < |h| ==> GoodStep(s, docs, instrument, path, lookup, VersionAt(start, h, i), h[i])
  }

  ghost predicate AllDifferent<H>(start: string, h: seq<Entry<H>>) {
    forall i, j :: 0 <= i < j <= |h| ==> VersionAt(start, h, i) != VersionAt(start, h, j)
  }

  ghost function VersionsOn<H>(start: string, h: seq<Entry<H>>): set<string> {
    set i | 0 <= i <= |h| :: VersionAt(start, h, i)
  }

  /** The link's version ends the walk: there is none, it is already on the chain, no
      registered document of the instrument has it, or the first that has it lacks the
      article. */
  ghost predicate EndsWalk(docs: seq<Document>, instrument: string, path: string, version: Option<string>,
                           visited: set<string>) {
    || version == None || version == Some("") || version.value in visited
    || (forall d :: d in docs ==> d.instrument != instrument || d.version != version.value)
    || (exists i :: FirstOfInstrument(docs, instrument, version.value, i) && !HasAnchor(docs[i], path))
  }

  /** The walk stops for a reason: the search finds no link, or one whose version ends
      it. */
  ghost predicate GenuineBreak(s: Store, docs: seq<Document>, instrument: string, path: string, current: string,
                               visited: set<string>) {
    match SupersedesTarget(s, instrument, current, 0)
    case None => forall t :: !SupersedesLink(s, instrument, current, t)
    case Some(t) => SupersedesLink(s, instrument, current, t) && EndsWalk(docs, instrument, path, t.sourceVersion, visited)
  }

  /** What the search finds is a link, and nothing only if there is none. */
  lemma SearchMeaning(s: Store, instrument: string, current: string)
    ensures match SupersedesTarget(s, instrument, current, 0)
      case None => forall t :: !SupersedesLink(s, instrument, current, t)
      case Some(t) => SupersedesLink(s, instrument, current, t)
  {
    hide SupersedesTarget, LinkIn;
    SupersedesTargetMeaning(s, instrument, current, 0);
  }

  lemma ExtendVersions<H>(start: string, h: seq<Entry<H>>, e: Entry<H>)
    ensures forall i :: 0 <= i <= |h| ==> VersionAt(start, h + [e], i) == VersionAt(start, h, i)
    ensures VersionAt(start, h + [e], |h| + 1) == e.version
  {
  }

  lemma ExtendVersionsOn<H>(start: string, h: seq<Entry<H>>, e: Entry<H>)
    ensures VersionsOn(start, h + [e]) == VersionsOn(start, h) + {e.version}
  {
    hide VersionAt;
    ExtendVersions(start, h, e);
    forall v ensures v in VersionsOn(start, h + [e]) <==> v in VersionsOn(start, h) + {e.version} {
      if v in VersionsOn(start, h) {
        var i :| 0 <= i <= |h| && VersionAt(start, h, i) == v;
        assert VersionAt(start, h + [e], i) == v;
      } else if v == e.version {
        assert VersionAt(start, h + [e], |h| + 1) == v;
      }
    }
  }

  lemma ExtendDifferent<H>(start: string, h: seq<Entry<H>>, e: Entry<H>)
    requires AllDifferent(start, h) && e.version !in VersionsOn(start, h)
    ensures AllDifferent(start, h + [e])
  {
    hide VersionAt;
    ExtendVersions(start, h, e);
    forall i, j | 0 <= i < j <= |h + [e]| ensures VersionAt(start, h + [e], i) != VersionAt(start, h + [e], j) {
      assert VersionAt(start, h + [e], i) == VersionAt(start, h, i);
      assert j <= |h| ==> VersionAt(start, h + [e], j) == VersionAt(start, h, j);
    }
  }

  lemma ExtendGood<H>(s: Store, docs: seq<Document>, instrument: string, path: string, lookup: string -> H,
                      start: string, h: seq<Entry<H>>, e: Entry<H>)
    requires GoodChain(s, docs, instrument, path, lookup, start, h)
    requires GoodStep(s, docs, instrument, path, lookup, VersionAt(start, h, |h|), e)
    ensures GoodChain(s, docs, instrument, path, lookup, start, h + [e])
  {
    hide GoodStep, VersionAt;
    ExtendVersions(start, h, e);
    forall i | 0 <= i < |h + [e]|
      ensures GoodStep(s, docs, instrument, path, lookup, VersionAt(start, h + [e], i), (h + [e])[i])
    {
      assert VersionAt(start, h + [e], i) == VersionAt(start, h, i);
      if i < |h| { assert (h + [e])[i] == h[i]; }
    }
  }

  lemma EmptyChain<H>(s: Store, docs: seq<Document>, instrument: string, path: string, lookup: string -> H,
                      start: string)
    ensures GoodChain(s, docs, instrument, path, lookup, start, []) && AllDifferent<H>(start, [])
    ensures VersionAt<H>(start, [], 0) == start && VersionsOn<H>(start, []) == {start}
  {
    assert VersionAt<H>(start, [], 0) == start;
  }

  /** A registered link found by the search is a good step. */
  lemma FoundStep<H>(s: Store, docs: seq<Document>, instrument: string, path: string, lookup: string -> H, from: string,
                     version: string, d: Document)
    requires var t := SupersedesTarget(s, instrument, from, 0); t.Some? && t.value.sourceVersion == Some(version)
    requires GetByInstrument(docs, instrument, version) == Some(d) && HasAnchor(d, path)
    ensures var id := MakeAnchorId(d.id, version, path);
      GoodStep(s, docs, instrument, path, lookup, from, Entry(version, id, lookup(id)))
    ensures d.version == version && d in docs
  {
    hide MakeAnchorId, HasAnchor, SupersedesTarget, SupersedesLink, GetByInstrument;
    SearchMeaning(s, instrument, from);
  }

  /** A link without a version, back to a visited one, or to one that is not registered
      with the article, ends the walk. */
  lemma FoundBreak(s: Store, docs: seq<Document>, instrument: string, path: string, current: string,
                   visited: set<string>)
    requires match SupersedesTarget(s, instrument, current, 0)
      case None => true
      case Some(t) =>
        || t.sourceVersion == None || t.sourceVersion == Some("") || t.sourceVersion.value in visited
        || match GetByInstrument(docs, instrument,
          t.sourceVersion.value) case None => true case Some(d) => !HasAnchor(d, path)
    ensures GenuineBreak(s, docs, instrument, path, current, visited)
  {
    hide HasAnchor, SupersedesTarget, SupersedesLink, GetByInstrument;
    SearchMeaning(s, instrument, current);
  }

  /** The next prior version, if the link, the document and the article exist. */
  method NextPrior<H>(store: InMemoryGraphStore, docs: seq<Document>, instrument: string, path: string,
                      lookup: string -> H,
                      current: string, visited: set<string>)
    returns (e: Option<Entry<H>>)
    requires Chained(store.View())
    ensures e.None? ==> GenuineBreak(store.View(), docs, instrument, path, current, visited)
    ensures e.Some? ==> GoodStep(store.View(), docs, instrument, path, lookup, current, e.value)
    ensures e.Some? ==> e.value.version !in visited && e.value.version in Versions(docs)
  {
    hide GoodStep, MakeAnchorId, HasAnchor, SupersedesTarget, GetByInstrument, GenuineBreak;
    ghost var s := store.View();
    var target := store.FindSupersedesTarget(instrument, current);
    if target.None? || target.value.sourceVersion.None? || target.value.sourceVersion.value == ""
      || target.value.sourceVersion.value in visited {
      FoundBreak(s, docs, instrument, path, current, visited);
      return None;
    }
    var version := target.value.sourceVersion.value;
    var prior := GetByInstrument(docs, instrument, version);
    if prior.None? || !HasAnchor(prior.value, path) {
      FoundBreak(s, docs, instrument, path, current, visited);
      return None;
    }
    var priorId := MakeAnchorId(prior.value.id, version, path);
    FoundStep(s, docs, instrument, path, lookup, current, version, prior.value);
    e := Some(Entry(version, priorId, lookup(priorId)));
  }

  /** The chain of good steps from the start, without a repetition, up to a break. */
  ghost predicate IsHistory<H>(s: Store, docs: seq<Document>, instrument: string, path: string, lookup: string -> H,
                               start: string, h: seq<Entry<H>>) {
    && GoodChain(s, docs, instrument, path, lookup, start, h) && AllDifferent(start, h)
    && GenuineBreak(s, docs, instrument, path, VersionAt(start, h, |h|), VersionsOn(start, h))
  }

  lemma OnlyFirst(docs: seq<Document>, id: string, version: string)
    ensures forall i, j :: FirstWithId(docs, id, version, i) && FirstWithId(docs, id, version, j) ==> i == j
  {
  }

  /** Walks the chain from the clause's own version. Termination rests on the
      registered versions that have not been visited. */
  method ResolveHistory<H>(clauseId: string, store: InMemoryGraphStore, docs: seq<Document>, lookup: string -> H)
    returns (r: Result<seq<Entry<H>>, HistoryError>)
    requires Chained(store.View())
    ensures r.Err? <==> SplitClauseId(clauseId).None?
    ensures r.Ok? ==>
      var p := SplitClauseId(clauseId).value;
      && ((forall d :: d in docs ==> d.id != p.document || d.version != p.version) ==> r.value == [])
      && (forall i :: FirstWithId(docs, p.document, p.version, i) ==>
            IsHistory(store.View(), docs, docs[i].instrument, p.path, lookup, p.version, r.value))
  {
    hide GoodChain, AllDifferent, GenuineBreak, VersionsOn, GoodStep, SplitClauseId, GetDocument;
    var parts := SplitClauseId(clauseId);
    if parts.None? {
      return Err(MalformedClauseId);
    }
    var path, start := parts.value.path, parts.value.version;
    var document := GetDocument(docs, parts.value.document, start);
    if document.None? {
      return Ok([]);
    }
    var instrument := document.value.instrument;
    var history: seq<Entry<H>> := [];
    var current := start;
    var visited := {start};
    ghost var s := store.View();
    EmptyChain(s, docs, instrument, path, lookup, start);
    while true
      invariant GoodChain(s, docs, instrument, path, lookup, start, history) && AllDifferent(start, history)
      invariant current == VersionAt(start, history, |history|)
      invariant visited == VersionsOn(start, history)
      decreases Versions(docs) - visited
    {
      var e := NextPrior(store, docs, instrument, path, lookup, current, visited);
      if e.None? {
        break;
      }
      ExtendGood(s, docs, instrument, path, lookup, start, history, e.value);
      ExtendDifferent(start, history, e.value);
      ExtendVersions(start, history, e.value);
      ExtendVersionsOn(start, history, e.value);
      visited := visited + {e.value.version};
      history := history + [e.value];
      current := e.value.version;
    }
    r := Ok(history);
    OnlyFirst(docs, parts.value.document, start);
  }

  /** Anchors of a registered document carry its own id and version, and
      structural paths without colons. */
  ghost predicate WellAnchored(d: Document) {
    && ColonFree(d.id) && ColonFree(d.version)
    && forall a :: a in d.anchors ==> exists path :: ColonFree(path) && a == MakeAnchorId(d.id, d.version, path)
  }

  /** Then each clause id in a history is an anchor of the prior document, at the
      same structural path. */
  lemma PriorClauseIsAnchor<H>(s: Store, docs: seq<Document>, instrument: string, path: string, lookup: string -> H,
                               from: string, e: Entry<H>)
    requires GoodStep(s, docs, instrument, path, lookup, from, e)
    requires ColonFree(path) && forall d :: d in docs ==> WellAnchored(d)
    ensures exists d :: d in docs && d.instrument == instrument && d.version == e.version
              && e.clauseId in d.anchors && SplitClauseId(e.clauseId) == Some(Parts(d.id, e.version, path))
  {
    var i :| FirstOfInstrument(docs, instrument, e.version, i) && HasAnchor(docs[i], path)
             && e.clauseId == MakeAnchorId(docs[i].id, e.version, path) && e.revisions == lookup(e.clauseId);
    var d := docs[i];
    var a :| a in d.anchors && EndsWith(a, ":" + path);
    assert WellAnchored(d);
    var p :| ColonFree(p) && a == MakeAnchorId(d.id, d.version, p);
    SuffixMatchIsPath(d.id, d.version, p, path);
    SplitMake(d.id, d.version, path);
  }
}
