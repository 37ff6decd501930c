/** The documented use of the mapper: the caller passes it the store's own latest
    version of an instrument. Over a whole sequence of publishes that answer stays at
    the first version, every later version supersedes the first one, and histories
    skip whatever lies between. */
module LatestLoop {
  import opened Common
  import opened Ontology
  import opened Graph
  import opened ProofPath
  import opened GraphStore
  import opened Mapping
  import opened MappingShape
  import opened SupersededRegulation
  import H = ArticleHistory

  /** Obligations mapped with a context and published under an id. */
  datatype Publication = Publication(id: string, ctx: Context, os: seq<Source>, ontology: string)

  function PublishOne(s: Store, p: Publication): Store {
    var q := ProposalFor(p.ctx, p.os);
    PublishTo(s, p.id, q.nodes, q.rels, p.ontology)
  }

  function PublishEach(s: Store, ps: seq<Publication>): Store {
    if ps == [] then s else PublishOne(PublishEach(s, ps[..|ps| - 1]), ps[|ps| - 1])
  }

  /** The version a caller finds for the instrument. */
  function LatestVersion(s: Store, instrument: string): Option<string> {
    match Latest(s, instrument, |s.order|)
    case None => None
    case Some(r) => r.sourceVersion
  }

  /** The publication's id is new and it was mapped with the store's own answer. */
  ghost predicate Closes(s: Store, p: Publication, instrument: string) {
    p.id !in s.snapshots && OwnRegulations(p.ctx, p.os, instrument)
      && p.ctx.latestVersion == LatestVersion(s, instrument)
  }

  ghost predicate Loop(s: Store, ps: seq<Publication>, instrument: string) {
    forall k :: 0 <= k < |ps| ==> Closes(PublishEach(s, ps[..k]), ps[k], instrument)
  }

  /** At most one version of the instrument, or one followed by `u`. */
  predicate Quiet(p: Publication, instrument: string, u: string) {
    var vs := Introduced(p.os, instrument);
    |vs| <= 1 || (|vs| == 2 && vs[1] == u)
  }

  lemma LastIsPriorIff(vs: seq<string>, u: string)
    requires vs != [] && Distinct(vs)
    ensures var r := WithPrior(vs, Some(u)); r != [] && (r[|r| - 1] == u <==> |vs| == 1 || (|vs| == 2 && vs[1] == u))
  {
    if vs[0] != u {
      var rest, r := vs[1..], Without(vs[1..], u);
      WithoutMeaning(rest, u, u);
      assert r != [] ==> r[|r| - 1] in r;
      if |rest| > 0 {
        WithoutMeaning(rest, u, rest[0]);
        WithoutMeaning(rest, u, rest[|rest| - 1]);
        assert |rest| > 1 ==> rest[0] != rest[|rest| - 1];
      }
    }
  }

  /** One publish leaves the answer where it is if and only if it is quiet. */
  lemma AnswerStaysIff(s: Store, p: Publication, instrument: string, u: string)
    requires Chained(s) && Closes(s, p, instrument) && LatestVersion(s, instrument) == Some(u)
    ensures Chained(PublishOne(s, p)) && Extends(s, PublishOne(s, p))
    ensures LatestVersion(PublishOne(s, p), instrument) == Some(u) <==> Quiet(p, instrument, u)
  {
    hide ProposalFor, PublishTo, Latest, RegulationId, Chained, Extends, OwnRegulations, Introduced, MadeVersions;
    hide WithPrior;
    var vs := Introduced(p.os, instrument);
    MappedStore(s, p.id, p.ctx, p.os, p.ontology);
    LatestAfterPublishing(s, p.id, p.ctx, p.os, p.ontology, instrument);
    VersionsForm(p.ctx, p.os, instrument);
    IntroducedDistinct(p.os, instrument);
    if vs == [] {
      NothingIntroduced(Some(u));
    } else {
      LastIsPriorIff(vs, u);
    }
  }

  lemma LoopFront(s: Store, ps: seq<Publication>, instrument: string)
    requires ps != []
    ensures var n := |ps| - 1;
      Loop(s, ps, instrument) <==> Loop(s, ps[..n], instrument) && Closes(PublishEach(s, ps[..n]), ps[n], instrument)
  {
    hide Closes, PublishEach;
    var n := |ps| - 1;
    assert forall k :: 0 <= k < n ==> ps[..n][..k] == ps[..k] && ps[..n][k] == ps[k];
  }

  /** The answer is the same at every moment of the loop. */
  ghost predicate NeverMoves(s: Store, ps: seq<Publication>, instrument: string, u: string) {
    forall k :: 0 <= k <= |ps| ==> LatestVersion(PublishEach(s, ps[..k]), instrument) == Some(u)
  }

  ghost predicate AllQuiet(ps: seq<Publication>, instrument: string, u: string) {
    forall k :: 0 <= k < |ps| ==> Quiet(ps[k], instrument, u)
  }

  lemma NeverMovesFront(s: Store, ps: seq<Publication>, instrument: string, u: string)
    requires ps != []
    ensures NeverMoves(s, ps, instrument, u)
       <==> NeverMoves(s, ps[..|ps| - 1], instrument, u) && LatestVersion(PublishEach(s, ps), instrument) == Some(u)
  {
    hide LatestVersion, PublishEach;
    var n := |ps| - 1;
    assert forall k :: 0 <= k <= n ==> ps[..n][..k] == ps[..k];
    assert ps[..|ps|] == ps;
  }

  lemma AllQuietFront(ps: seq<Publication>, instrument: string, u: string)
    requires ps != []
    ensures AllQuiet(ps, instrument, u) <==>
      AllQuiet(ps[..|ps| - 1], instrument, u) && Quiet(ps[|ps| - 1], instrument, u)
  {
    hide Quiet;
  }

  /** Over any number of publishes that use the store's own answer: it never moves if
      and only if each is quiet. */
  lemma {:induction false} NeverMovesIff(s: Store, ps: seq<Publication>, instrument: string, u: string)
    requires Chained(s) && LatestVersion(s, instrument) == Some(u) && Loop(s, ps, instrument)
    ensures NeverMoves(s, ps, instrument, u) <==> AllQuiet(ps, instrument, u)
    ensures AllQuiet(ps, instrument, u) ==>
      Chained(PublishEach(s, ps)) && LatestVersion(PublishEach(s, ps), instrument) == Some(u)
  {
    hide LatestVersion, PublishOne, Chained, Quiet, Closes;
    if ps == [] {
      assert ps[..0] == [] && PublishEach(s, []) == s;
    } else {
      var n := |ps| - 1;
      LoopFront(s, ps, instrument);
      NeverMovesFront(s, ps, instrument, u);
      AllQuietFront(ps, instrument, u);
      NeverMovesIff(s, ps[..n], instrument, u);
      if AllQuiet(ps[..n], instrument, u) {
        AnswerStaysIff(PublishEach(s, ps[..n]), ps[n], instrument, u);
      }
    }
  }

  // ---- What the links say ----

  /** Every link of a version of the instrument leads to `u`, and `u` has none. */
  ghost predicate LinksOnlyTo(s: Store, instrument: string, u: string) {
    forall v, target :: SupersedesLink(s, instrument, v, target) ==>
      v != u && target == RegulationVersion(Some(instrument), Some(u))
  }

  /** A link inside a mapped proposal leads to the version it was mapped with. */
  lemma MappedLink(ctx: Context, os: seq<Source>, instrument: string, v: string, target: RegulationVersion)
    requires OwnRegulations(ctx, os, instrument)
    requires var d := MapAll(ctx, os); LinkIn(Content(d.nodes, d.rels), instrument, v, target)
    ensures Superseded(ctx, v).Some? && target == RegulationVersion(Some(instrument), Superseded(ctx, v))
  {
    hide MapAll, RegulationId, ObligationId, Stems, Mapped, SameRegulation, LeavesFree, MadeVersions, Superseded;
    var d := MapAll(ctx, os);
    MapAllShape(ctx, os);
    var n, t :| n in d.nodes.keys && n in d.nodes.at && t in d.nodes.at && IsRegulation(d.nodes.at[n], instrument, v)
                && Edge(n, t, Supersedes) in d.rels && RegulationOf(d.nodes.at[t]) == target;
    InstrumentNode(ctx, os, instrument, n);
    assert n == RegulationId(instrument, v) && v in MadeVersions(ctx, os, instrument);
    assert FromSome(ctx, os, Edge(n, t, Supersedes));
    var o :| o in os && IsEdgeOf(ctx, o, Edge(n, t, Supersedes));
    LinkMaker(ctx, o, instrument, v);
    var u := Superseded(ctx, v).value;
    assert Makes(ctx, o, instrument, u);
    MadeRegulation(ctx, os, o, u);
  }

  lemma LinkMaker(ctx: Context, o: Source, instrument: string, v: string)
    requires LeavesFree(ctx, o, instrument, v)
      && RegulationId(o.instrument, o.sourceVersion) == RegulationId(instrument, v)
    ensures o.instrument == instrument && o.sourceVersion == v
  {
    hide RegulationId, OwnActors;
    SameInstrument(instrument, v, o.sourceVersion);
  }

  lemma LinksStay(s: Store, p: Publication, instrument: string, u: string)
    requires Chained(s) && Closes(s, p, instrument) && LatestVersion(s, instrument) == Some(u)
      && LinksOnlyTo(s, instrument, u)
    ensures LinksOnlyTo(PublishOne(s, p), instrument, u)
    ensures forall v, target :: SupersedesLink(s, instrument, v, target) ==>
      SupersedesLink(PublishOne(s, p), instrument, v, target)
  {
    hide ProposalFor, PublishTo, Latest, Chained, OwnRegulations, LinkIn, MapAll;
    var t := PublishOne(s, p);
    MappedStore(s, p.id, p.ctx, p.os, p.ontology);
    assert forall i :: 0 <= i < |s.order| ==> t.order[i] == s.order[i] && s.order[i] in s.order;
    KnownContent(s);
    forall v, target | SupersedesLink(t, instrument, v, target)
      ensures v != u && target == RegulationVersion(Some(instrument), Some(u))
    {
      var i :| 0 <= i < |t.order| && t.order[i] in t.content && LinkIn(t.content[t.order[i]], instrument, v, target);
      if i < |s.order| {
        assert SupersedesLink(s, instrument, v, target);
      } else {
        MappedLink(p.ctx, p.os, instrument, v, target);
      }
    }
    forall v, target | SupersedesLink(s, instrument, v, target) ensures SupersedesLink(t, instrument, v, target) {
      var i :| 0 <= i < |s.order| && s.order[i] in s.content && LinkIn(s.content[s.order[i]], instrument, v, target);
      assert LinkIn(t.content[t.order[i]], instrument, v, target);
    }
  }

  lemma KnownContent(s: Store)
    requires Chained(s)
    ensures forall k :: k in s.order ==> k in s.content
  {
  }

  /** The obligations of the loop introduce this version. */
  ghost predicate LoopHas(ps: seq<Publication>, instrument: string, v: string) {
    exists p, o :: p in ps && o in p.os && o.instrument == instrument && o.sourceVersion == v
  }

  lemma NewLinks(s: Store, p: Publication, instrument: string, u: string, v: string)
    requires Chained(s) && Closes(s, p, instrument) && LatestVersion(s, instrument) == Some(u) && v != u
    requires exists o :: o in p.os && o.instrument == instrument && o.sourceVersion == v
    ensures SupersedesLink(PublishOne(s, p), instrument, v, RegulationVersion(Some(instrument), Some(u)))
  {
    hide ProposalFor, PublishTo, Latest, Chained, OwnRegulations, SupersedesLink;
    var o :| o in p.os && o.instrument == instrument && o.sourceVersion == v;
    LinkAfterPublishing(s, p.id, p.ctx, p.os, p.ontology, o);
  }

  /** In a loop that never moves, every version but the first links to the first, and
      to nothing else. */
  lemma {:induction false} LoopLinks(s: Store, ps: seq<Publication>, instrument: string, u: string)
    requires Chained(s) && LatestVersion(s, instrument) == Some(u) && Loop(s, ps, instrument)
      && AllQuiet(ps, instrument, u)
    requires LinksOnlyTo(s, instrument, u)
    ensures LinksOnlyTo(PublishEach(s, ps), instrument, u)
    ensures forall v :: LoopHas(ps, instrument, v) && v != u ==>
      SupersedesLink(PublishEach(s, ps), instrument, v, RegulationVersion(Some(instrument), Some(u)))
  {
    hide LatestVersion, PublishOne, Chained, Quiet, Closes, SupersedesLink, LinksOnlyTo;
    if ps != [] {
      var n := |ps| - 1;
      var before := PublishEach(s, ps[..n]);
      LoopFront(s, ps, instrument);
      AllQuietFront(ps, instrument, u);
      LoopLinks(s, ps[..n], instrument, u);
      NeverMovesIff(s, ps[..n], instrument, u);
      LinksStay(before, ps[n], instrument, u);
      forall v | LoopHas(ps, instrument, v) && v != u
        ensures SupersedesLink(PublishEach(s, ps), instrument, v, RegulationVersion(Some(instrument), Some(u)))
      {
        var p, o :| p in ps && o in p.os && o.instrument == instrument && o.sourceVersion == v;
        if p == ps[n] {
          NewLinks(before, ps[n], instrument, u, v);
        } else {
          assert p in ps[..n] && LoopHas(ps[..n], instrument, v);
        }
      }
    }
  }

  lemma LinkDecidesTarget(s: Store, instrument: string, v: string, u: string)
    requires LinksOnlyTo(s, instrument, u)
      && SupersedesLink(s, instrument, v, RegulationVersion(Some(instrument), Some(u)))
    ensures SupersedesTarget(s, instrument, v, 0) == Some(RegulationVersion(Some(instrument), Some(u)))
  {
    hide LinkIn;
    SupersedesTargetMeaning(s, instrument, v, 0);
  }

  lemma NoLinkNoTarget(s: Store, instrument: string, u: string)
    requires LinksOnlyTo(s, instrument, u)
    ensures SupersedesTarget(s, instrument, u, 0) == None
  {
    hide SupersedesLink;
    SupersedesTargetMeaning(s, instrument, u, 0);
  }

  /** The first publish of an instrument on the empty store. */
  lemma FirstVersion(p: Publication, instrument: string, u: string)
    requires Closes(EMPTY_STORE, p, instrument) && Introduced(p.os, instrument) == [u]
    ensures var s := PublishOne(EMPTY_STORE, p);
      Chained(s) && LatestVersion(s, instrument) == Some(u) && LinksOnlyTo(s, instrument, u)
  {
    hide ProposalFor, PublishTo, Chained, OwnRegulations, LinkIn, MapAll, MadeVersions, RegulationId, Introduced;
    NothingPublished(instrument);
    MappedStore(EMPTY_STORE, p.id, p.ctx, p.os, p.ontology);
    LatestAfterPublishing(EMPTY_STORE, p.id, p.ctx, p.os, p.ontology, instrument);
    VersionsForm(p.ctx, p.os, instrument);
    var s := PublishOne(EMPTY_STORE, p);
    forall v, target | SupersedesLink(s, instrument, v, target) ensures false {
      MappedLink(p.ctx, p.os, instrument, v, target);
    }
  }

  lemma NothingPublished(instrument: string)
    ensures Chained(EMPTY_STORE) && LatestVersion(EMPTY_STORE, instrument) == None
  {
  }

  /** From the empty store, when each publish brings one version of the instrument and
      uses the store's own answer: the search finds the first version for every other
      one, and nothing for the first. */
  lemma LoopTargets(first: Publication, ps: seq<Publication>, instrument: string, u: string, v: string)
    requires Closes(EMPTY_STORE, first, instrument) && Introduced(first.os, instrument) == [u]
    requires Loop(PublishOne(EMPTY_STORE, first), ps, instrument) && AllQuiet(ps, instrument, u)
    ensures var t := PublishEach(PublishOne(EMPTY_STORE, first), ps);
      && LatestVersion(t, instrument) == Some(u) && LinksOnlyTo(t, instrument, u)
      && SupersedesTarget(t, instrument, u, 0) == None
      && (LoopHas(ps, instrument, v) && v != u ==>
        SupersedesTarget(t, instrument, v, 0) == Some(RegulationVersion(Some(instrument), Some(u))))
  {
    hide LatestVersion, PublishOne, PublishEach, Chained, Closes, Loop, Introduced, SupersedesLink, LinksOnlyTo;
    hide SupersedesTarget, AllQuiet, LoopHas;
    var s := PublishOne(EMPTY_STORE, first);
    FirstVersion(first, instrument, u);
    NeverMovesIff(s, ps, instrument, u);
    LoopLinks(s, ps, instrument, u);
    NoLinkNoTarget(PublishEach(s, ps), instrument, u);
    if LoopHas(ps, instrument, v) && v != u {
      LinkDecidesTarget(PublishEach(s, ps), instrument, v, u);
    }
  }

  lemma StepToFirst<R>(s: Store, docs: seq<H.Document>, instrument: string, path: string, lookup: string -> R,
                       from: string,
                       u: string, e: H.Entry<R>)
    requires LinksOnlyTo(s, instrument, u) && H.GoodStep(s, docs, instrument, path, lookup, from, e)
    ensures from != u && e.version == u
  {
    hide SupersedesLink, H.HasAnchor;
  }

  /** So a history names the first version at most, and no version in between. */
  lemma HistorySkips<R>(s: Store, docs: seq<H.Document>, instrument: string, path: string, lookup: string -> R,
                        start: string,
                        u: string, h: seq<H.Entry<R>>)
    requires LinksOnlyTo(s, instrument, u) && H.GoodChain(s, docs, instrument, path, lookup, start, h)
    ensures |h| <= 1 && (h != [] ==> h[0].version == u && start != u)
  {
    hide LinksOnlyTo, H.GoodStep;
    if h != [] {
      StepToFirst(s, docs, instrument, path, lookup, H.VersionAt(start, h, 0), u, h[0]);
    }
    if |h| > 1 {
      StepToFirst(s, docs, instrument, path, lookup, H.VersionAt(start, h, 1), u, h[1]);
    }
  }
}
