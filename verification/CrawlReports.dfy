/**
 From the pages of a crawl to its report (crawler/src/crawl.rs): the postings of
 each page, one per key, and the loop that decides whether the run may be
 reconciled.
 */
module CrawlReports {
  import opened Wrappers
  import opened Reconcile
  import opened Scope
  import opened CrawlTables
  import opened JobPostings

  datatype AdapterError = Rejected

  /** `documents` are the bodies of the page's JSON-LD scripts; None is one that is not JSON. */
  datatype Page = Page(inScope: bool, failed: bool, url: UrlText, documents: seq<Option<Json>>)

  /** `build_job_observation`: one posting of the page with this URL, checked. */
  type Builder = (Fields, UrlText) -> Result<Observation, AdapterError>

  datatype PageBatch = PageBatch(observations: seq<Observation>, authoritative: bool)

  // ---------- one page ----------

  function FirstPerKey(os: seq<Observation>): seq<Observation> {
    if os == [] then []
    else
      var front, last := os[..|os| - 1], os[|os| - 1];
      FirstPerKey(front) + (if HasKey(front, last.key) then [] else [last])
  }

  predicate HasKey(os: seq<Observation>, key: string) {
    exists i :: 0 <= i < |os| && os[i].key == key
  }

  predicate IsFirstOfKey(os: seq<Observation>, i: nat) {
    i < |os| && forall j :: 0 <= j < i ==> os[j].key != os[i].key
  }

  predicate DistinctKeys(os: seq<Observation>) {
    forall i, j :: 0 <= i < j < |os| ==> os[i].key != os[j].key
  }

  ghost predicate FirstOf(os: seq<Observation>, o: Observation) {
    exists i: nat :: IsFirstOfKey(os, i) && os[i] == o
  }

  /** Each key once, with its first posting. */
  lemma {:induction false} FirstPerKeyIsFirst(os: seq<Observation>)
    ensures DistinctKeys(FirstPerKey(os))
    ensures forall key :: HasKey(FirstPerKey(os), key) <==> HasKey(os, key)
    ensures forall o :: o in FirstPerKey(os) <==> FirstOf(os, o)
  {
    if os != [] {
      var front, last := os[..|os| - 1], os[|os| - 1];
      FirstPerKeyIsFirst(front);
      KeysOfMore(front, last);
      assert os == front + [last];
      forall o ensures o in FirstPerKey(os) <==> FirstOf(os, o) {
        FirstsOfMore(front, last, o);
      }
      if HasKey(front, last.key) {
        assert FirstPerKey(os) == FirstPerKey(front);
      } else {
        KeysOfMore(FirstPerKey(front), last);
        LastIsNew(FirstPerKey(front), last);
      }
    }
  }

  lemma LastIsNew(kept: seq<Observation>, last: Observation)
    requires DistinctKeys(kept) && !HasKey(kept, last.key)
    ensures DistinctKeys(kept + [last])
  {
  }

  lemma KeysOfMore(front: seq<Observation>, last: Observation)
    ensures forall key :: HasKey(front + [last], key) <==> HasKey(front, key) || key == last.key
  {
    forall key ensures HasKey(front + [last], key) <==> HasKey(front, key) || key == last.key {
      var os := front + [last];
      if HasKey(front, key) {
        var i :| 0 <= i < |front| && front[i].key == key;
        assert os[i].key == key;
      }
      assert os[|front|] == last;
    }
  }

  lemma FirstsOfMore(front: seq<Observation>, last: Observation, o: Observation)
    ensures FirstOf(front + [last], o) <==> FirstOf(front, o) || (o == last && !HasKey(front, last.key))
  {
    var os := front + [last];
    if FirstOf(front, o) {
      var i: nat :| IsFirstOfKey(front, i) && front[i] == o;
      assert IsFirstOfKey(os, i) && os[i] == o;
    }
    if o == last && !HasKey(front, last.key) {
      assert IsFirstOfKey(os, |front|) && os[|front|] == o;
    }
    if FirstOf(os, o) {
      var i: nat :| IsFirstOfKey(os, i) && os[i] == o;
      if i < |front| {
        assert forall j :: 0 <= j <= i ==> os[j] == front[j];
        assert IsFirstOfKey(front, i) && front[i] == o;
      } else {
        assert forall j :: 0 <= j < |front| ==> os[j] == front[j];
      }
    }
  }

  predicate AllBuilt(observed: seq<Result<Observation, AdapterError>>) {
    forall i :: 0 <= i < |observed| ==> observed[i].Ok?
  }

  function Values(observed: seq<Result<Observation, AdapterError>>): seq<Observation>
    requires AllBuilt(observed)
  {
    seq(|observed|, i requires 0 <= i < |observed| => observed[i].value)
  }

  function Postings(documents: seq<Option<Json>>): seq<Fields> {
    if documents == [] then []
    else
      var last := documents[|documents| - 1];
      Postings(documents[..|documents| - 1]) + (if last.Some? then Collected(last.value) else [])
  }

  function Built(build: Builder, postings: seq<Fields>, url: UrlText): seq<Result<Observation, AdapterError>> {
    seq(|postings|, i requires 0 <= i < |postings| => build(postings[i], url))
  }

  /** What each posting on the page, in order, was built into. */
  function Observed(build: Builder, page: Page): seq<Result<Observation, AdapterError>> {
    Built(build, Postings(page.documents), page.url)
  }

  /** One rejected posting rejects the page; a page without postings is not authoritative. */
  function ParsedPage(observed: seq<Result<Observation, AdapterError>>): Result<PageBatch, AdapterError> {
    if !AllBuilt(observed) then Err(Rejected) else Ok(PageBatch(FirstPerKey(Values(observed)), observed != []))
  }

  /** `parse_job_posting_html`: two loops, over the documents and over the postings found in them. */
  method ParseJobPostingHtml(build: Builder, url: UrlText, documents: seq<Option<Json>>) returns (r: Result<PageBatch, AdapterError>)
    ensures r == ParsedPage(Built(build, Postings(documents), url))
  {
    var postings: seq<Fields> := [];
    for i := 0 to |documents|
      invariant postings == Postings(documents[..i])
    {
      assert documents[..i + 1][..i] == documents[..i];
      if documents[i].Some? {
        postings := CollectJobPostings(documents[i].value, postings);
      }
    }
    assert documents[..|documents|] == documents;
    r := BuildPostings(build, url, postings);
  }

  method BuildPostings(build: Builder, url: UrlText, postings: seq<Fields>) returns (r: Result<PageBatch, AdapterError>)
    ensures r == ParsedPage(Built(build, postings, url))
  {
    if |postings| == 0 {
      return Ok(PageBatch([], false));
    }
    ghost var observed, good: seq<Observation> := Built(build, postings, url), [];
    var seenKeys: set<string>, observations := {}, [];
    for i := 0 to |postings|
      invariant |good| == i && forall k :: 0 <= k < i ==> observed[k] == Ok(good[k])
      invariant observations == FirstPerKey(good)
      invariant forall key :: key in seenKeys <==> HasKey(good, key)
    {
      var built := build(postings[i], url);
      assert observed[i] == built;
      if built.Err? {
        return Err(Rejected);
      }
      var observation := built.value;
      KeysOfMore(good, observation);
      assert (good + [observation])[..i] == good;
      if observation.key !in seenKeys {
        seenKeys := seenKeys + {observation.key};
        observations := observations + [observation];
      }
      good := good + [observation];
    }
    assert AllBuilt(observed) && Values(observed) == good;
    return Ok(PageBatch(observations, true));
  }

  /** A page is authoritative exactly when some document of it has a posting at some place, and no posting is rejected. */
  lemma AuthoritativeExactlyWithPosting(build: Builder, page: Page)
    ensures var r := ParsedPage(Observed(build, page));
            && (r.Ok? && r.value.authoritative <==>
                  && (exists d, path, o :: OnPage(page.documents, d, path, o))
                  && (forall d, path, o :: OnPage(page.documents, d, path, o) ==> build(o, page.url).Ok?))
  {
    var postings, observed := Postings(page.documents), Observed(build, page);
    forall o ensures o in postings <==> exists d, path :: OnPage(page.documents, d, path, o) {
      PostingsAreOnPage(page.documents, o);
    }
    forall i | 0 <= i < |postings| ensures observed[i] == build(postings[i], page.url) && postings[i] in postings { }
    forall d, path, o | OnPage(page.documents, d, path, o) ensures o in postings { }
    if postings != [] {
      assert postings[0] in postings;
    }
    if !AllBuilt(observed) {
      var i :| 0 <= i < |observed| && observed[i].Err?;
      assert postings[i] in postings;
    }
  }

  ghost predicate OnPage(documents: seq<Option<Json>>, d: nat, path: seq<Edge>, o: Fields) {
    d < |documents| && documents[d].Some? && PostingAt(documents[d].value, path, o)
  }

  lemma {:induction false} PostingsAreOnPage(documents: seq<Option<Json>>, o: Fields)
    ensures o in Postings(documents) <==> exists d, path :: OnPage(documents, d, path, o)
  {
    if documents != [] {
      var front, last := documents[..|documents| - 1], documents[|documents| - 1];
      PostingsAreOnPage(front, o);
      if last.Some? { CollectsEveryPosting(last.value); }
      OnMorePages(front, last, o);
      assert front + [last] == documents;
    }
  }

  lemma OnMorePages(front: seq<Option<Json>>, last: Option<Json>, o: Fields)
    ensures (exists d, path :: OnPage(front + [last], d, path, o))
       <==> (exists d, path :: OnPage(front, d, path, o)) || (last.Some? && exists path :: PostingAt(last.value, path, o))
  {
    var documents := front + [last];
    if d: nat, path :| OnPage(front, d, path, o) {
      assert OnPage(documents, d, path, o);
    }
    if last.Some? {
      if path :| PostingAt(last.value, path, o) {
        assert OnPage(documents, |front|, path, o);
      }
    }
    if d: nat, path :| OnPage(documents, d, path, o) {
      if d < |front| {
        assert OnPage(front, d, path, o);
      }
    }
  }

  // ---------- the report ----------

  /** The batches of the pages in scope, one after another. A key may be in more than one of them. */
  function Gathered(build: Builder, pages: seq<Page>): seq<Observation> {
    if pages == [] then []
    else
      var front, page := Gathered(build, pages[..|pages| - 1]), pages[|pages| - 1];
      var parsed := ParsedPage(Observed(build, page));
      if page.inScope && parsed.Ok? then front + parsed.value.observations else front
  }

  function PagesInScope(pages: seq<Page>): nat {
    if pages == [] then 0 else PagesInScope(pages[..|pages| - 1]) + (if pages[|pages| - 1].inScope then 1 else 0)
  }

  /** A page that stands in the way of reconciliation: it failed, was rejected, or held no posting. */
  predicate Spoils(build: Builder, page: Page) {
    var parsed := ParsedPage(Observed(build, page));
    page.inScope && (page.failed || parsed.Err? || !parsed.value.authoritative)
  }

  predicate CleanUpTo(build: Builder, pages: seq<Page>, n: nat)
    requires n <= |pages|
  {
    forall k :: 0 <= k < n ==> !Spoils(build, pages[k])
  }

  /** What one more page adds. */
  lemma OneMorePage(build: Builder, pages: seq<Page>, i: nat)
    requires i < |pages|
    ensures PagesInScope(pages[..i + 1]) == PagesInScope(pages[..i]) + (if pages[i].inScope then 1 else 0)
    ensures var parsed := ParsedPage(Observed(build, pages[i]));
            Gathered(build, pages[..i + 1])
            == Gathered(build, pages[..i]) + (if pages[i].inScope && parsed.Ok? then parsed.value.observations else [])
    ensures CleanUpTo(build, pages, i + 1) <==> CleanUpTo(build, pages, i) && !Spoils(build, pages[i])
  {
    assert pages[..i + 1][..i] == pages[..i];
    assert Gathered(build, pages[..i]) + [] == Gathered(build, pages[..i]);
  }

  predicate SeenWhole(build: Builder, crawlFailed: bool, pages: seq<Page>) {
    !crawlFailed && PagesInScope(pages) > 0 && CleanUpTo(build, pages, |pages|)
  }

  /**
   The report loop of `crawl_source` with `finalize_crawl_report`. The run is
   HEALTHY exactly when the crawl ended well, saw a page in scope, and every page
   in scope was fetched, parsed and held at least one posting; then the report
   holds all their observations and may be reconciled.
   */
  method BuildReport(build: Builder, crawlFailed: bool, pages: seq<Page>) returns (report: Report, observations: seq<Observation>)
    ensures report.status == Healthy <==> SeenWhole(build, crawlFailed, pages)
    ensures report.status == Healthy ==>
              report.reconciliationSafe && report.errorCode.None? && observations == Gathered(build, pages)
    ensures report.status != Healthy ==> report.errorCode.Some?
    ensures report.counts == Counts(PagesInScope(pages), |observations|, 0, 0, 0)
  {
    var fetchFailed := crawlFailed || exists i :: 0 <= i < |pages| && pages[i].inScope && pages[i].failed;
    var status, errorCode := if fetchFailed then SourceError else Healthy, if fetchFailed then Some("source_fetch_incomplete") else None;
    var pagesSeen, safe := 0, true;
    observations := [];
    for i := 0 to |pages|
      invariant pagesSeen == PagesInScope(pages[..i])
      invariant status == Healthy || status == SourceError || status == ParserError
      invariant status == SourceError <==> fetchFailed
      invariant status == Healthy <==> errorCode.None?
      invariant !fetchFailed ==> observations == Gathered(build, pages[..i])
      invariant !fetchFailed ==> (status == Healthy && safe <==> CleanUpTo(build, pages, i))
    {
      OneMorePage(build, pages, i);
      var page := pages[i];
      if !page.inScope {
        continue;
      }
      pagesSeen := pagesSeen + 1;
      if !fetchFailed {
        var batch := ParseJobPostingHtml(build, page.url, page.documents);
        match batch
        case Ok(b) =>
          safe := safe && b.authoritative;
          observations := observations + b.observations;
        case Err(_) =>
          status, errorCode := ParserError, Some("adapter_rejected_page");
      }
    }
    assert pages[..|pages|] == pages;
    if status == Healthy {
      if pagesSeen == 0 {
        status, errorCode := SourceError, Some("no_pages_seen");
      } else if !safe {
        status, errorCode := Anomaly, Some("extraction_not_authoritative");
      }
    }
    report := Report(status, Counts(pagesSeen, |observations|, 0, 0, 0), errorCode, safe);
  }

  /** Across pages a key may come twice; the store then keeps the later one (`CrawlTables.LastObservationWins`). */
  lemma KeysMayRepeatAcrossPages(build: Builder, posting: Fields, url: UrlText, url': UrlText)
    requires IsJobPosting(posting) && "@graph" !in posting
    requires build(posting, url).Ok? && build(posting, url').Ok? && build(posting, url).value.key == build(posting, url').value.key
    ensures var page := Page(true, false, url, [Some(Object(posting))]);
            !DistinctKeys(Gathered(build, [page, page.(url := url')]))
  {
    var one := Page(true, false, url, [Some(Object(posting))]);
    var two := one.(url := url');
    var o, o' := build(posting, url).value, build(posting, url').value;
    OnePosting(build, posting, url);
    OnePosting(build, posting, url');
    assert [one, two][..1] == [one] && [one][..0] == [];
    assert Gathered(build, [one]) == [] + [o];
    var all := Gathered(build, [one, two]);
    assert all == [o] + [o'];
    assert all[0].key == all[1].key;
  }

  lemma OnePosting(build: Builder, posting: Fields, url: UrlText)
    requires IsJobPosting(posting) && "@graph" !in posting && build(posting, url).Ok?
    ensures ParsedPage(Observed(build, Page(true, false, url, [Some(Object(posting))])))
         == Ok(PageBatch([build(posting, url).value], true))
  {
    var page, o := Page(true, false, url, [Some(Object(posting))]), build(posting, url).value;
    assert page.documents[..0] == [] && Postings([]) == [];
    assert Postings(page.documents) == [] + Collected(Object(posting)) == [posting];
    var observed := Observed(build, page);
    assert observed == [Ok(o)];
    assert AllBuilt(observed) && Values(observed) == [o] && [o][..0] == [];
    assert FirstPerKey([]) == [] && !HasKey([], o.key);
    assert FirstPerKey([o]) == [] + [o] == [o];
  }
}
