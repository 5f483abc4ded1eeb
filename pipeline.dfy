/**
 * The `/check` endpoint of backend/app.py: for every extracted claim, two web
 * searches, each result URL fetched once per claim, the best paragraphs of each page
 * classified, and one verdict per claim. The parser, the search engine, the page
 * fetcher, the scorer and the NLI model are given as functions.
 */
module Pipeline {
  import opened Common
  import opened Text
  import opened Claims
  import opened Passages
  import opened Verdict

  /** One search result; a missing or empty `url` reads as the empty string. */
  datatype Hit = Hit(url: string)

  /** What the NLI model says of a (claim, paragraph) pair: its label and that label's probability. */
  datatype Judgement = Judgement(stance: Stance, conf: real)

  /**
   * The outside world as `check` sees it: spaCy's sentences of a text; the search
   * results for a query (None when the request fails or times out); the text
   * extracted from a page ("" when nothing could be fetched or extracted); the hybrid
   * BM25/embedding score of each paragraph for a claim; and the NLI judgement.
   */
  datatype Services = Services(
    sentences: string -> seq<Sentence>,
    search: string -> Option<seq<Hit>>,
    fetch: string -> string,
    score: (string, seq<string>) -> seq<real>,
    classify: (string, string) -> Judgement)

  /** `searx` keeps this many results of a query. */
  const MaxHits: nat := 5

  /** The second query is the claim cut to this many characters. */
  const QueryLength: nat := 128

  /** Line 61: the claim in double quotes, then the claim cut to 128 characters. */
  function Queries(c: string): (qs: seq<string>)
    ensures |qs| == 2
    ensures qs[0] == ['"'] + c + ['"']
    ensures qs[1] <= c && |qs[1]| == (if |c| < QueryLength then |c| else QueryLength)
  {
    [['"'] + c + ['"'], SliceTo(c, QueryLength)]
  }

  /** The URLs of a list of results, in order. */
  function UrlsOf(hits: seq<Hit>): (urls: seq<string>)
    ensures |urls| == |hits|
    ensures forall k | 0 <= k < |hits| :: urls[k] == hits[k].url
  {
    seq(|hits|, k requires 0 <= k < |hits| => hits[k].url)
  }

  /** The URLs the searches for `qs` return, in order, or None when one of them fails. */
  function SearchUrls(s: Services, qs: seq<string>): Option<seq<string>> {
    if qs == [] then Some([])
    else
      match SearchUrls(s, qs[..|qs| - 1])
      case None => None
      case Some(urls) =>
        match s.search(qs[|qs| - 1])
        case None => None
        case Some(hits) => Some(urls + UrlsOf(SliceTo(hits, MaxHits)))
  }

  /** `seen_urls` after a run of URLs: the non-empty ones. */
  function Seen(urls: seq<string>): (seen: set<string>)
    ensures forall u | u in seen :: u != "" && u in urls
    ensures forall u | u in urls && u != "" :: u in seen
  {
    if urls == [] then {}
    else
      var u := urls[|urls| - 1];
      Seen(urls[..|urls| - 1]) + (if u != "" then {u} else {})
  }

  /** The URLs fetched, in order: each non-empty URL the first time it appears. */
  function Fetched(urls: seq<string>): seq<string> {
    if urls == [] then []
    else
      var init, u := urls[..|urls| - 1], urls[|urls| - 1];
      Fetched(init) + (if u == "" || u in Seen(init) then [] else [u])
  }

  /** One vote per ranked paragraph of a page: the NLI judgement of the claim against it. */
  function Classified(s: Services, c: string, url: string, ranked: seq<Scored>): (vs: seq<Vote>)
    ensures |vs| == |ranked|
    ensures forall k | 0 <= k < |ranked| ::
      vs[k] == Vote(url, ranked[k].passage, s.classify(c, ranked[k].passage).stance, s.classify(c, ranked[k].passage).conf)
  {
    seq(|ranked|, k requires 0 <= k < |ranked| =>
      var j := s.classify(c, ranked[k].passage);
      Vote(url, ranked[k].passage, j.stance, j.conf))
  }

  /** The candidate votes of one page: one per ranked paragraph, carrying the page's URL. */
  function PageVotes(s: Services, c: string, url: string): seq<Vote> {
    var text := s.fetch(url);
    if text == "" then []
    else
      var paras := KeptParagraphs(text);
      if paras == [] then []
      else Classified(s, c, url, Ranked(paras, s.score(c, paras)))
  }

  /** The candidates of a claim: the votes of its fetched pages, page after page. */
  function VotesOf(s: Services, c: string, pages: seq<string>): seq<Vote> {
    if pages == [] then []
    else VotesOf(s, c, pages[..|pages| - 1]) + PageVotes(s, c, pages[|pages| - 1])
  }

  /** The result for one claim, or None when one of its searches fails. */
  function ClaimCheck(s: Services, c: string): Option<ClaimResult> {
    match SearchUrls(s, Queries(c))
    case None => None
    case Some(urls) => Some(Assemble(c, VotesOf(s, c, Fetched(urls))))
  }

  /** What checking each claim on its own gives, in claim order. */
  function Outcomes(s: Services, claims: seq<string>): (os: seq<Option<ClaimResult>>)
    ensures |os| == |claims|
    ensures forall k | 0 <= k < |claims| :: os[k] == ClaimCheck(s, claims[k])
  {
    seq(|claims|, k requires 0 <= k < |claims| => ClaimCheck(s, claims[k]))
  }

  /** Every outcome's value, in order, or None as soon as one outcome is None. */
  function Collect<T>(os: seq<Option<T>>): Option<seq<T>> {
    if os == [] then Some([])
    else
      match Collect(os[..|os| - 1])
      case None => None
      case Some(rs) =>
        match os[|os| - 1]
        case None => None
        case Some(r) => Some(rs + [r])
  }

  /** The results of the claims, in order, or None when a search fails for one of them. */
  function Results(s: Services, claims: seq<string>): Option<seq<ClaimResult>> {
    Collect(Outcomes(s, claims))
  }

  /** The `claims` list `/check` returns for `llm_output`, or None when the request fails. */
  function CheckSpec(s: Services, llmOutput: string): Option<seq<ClaimResult>> {
    Results(s, ExtractedClaims(s.sentences(llmOutput), DefaultCap))
  }

  // ---------------------------------------------------------------------------
  // one step of each loop

  lemma FetchedSnoc(urls: seq<string>, u: string)
    ensures Fetched(urls + [u]) == Fetched(urls) + (if u == "" || u in Seen(urls) then [] else [u])
    ensures Seen(urls + [u]) == Seen(urls) + (if u != "" then {u} else {})
  {
    assert (urls + [u])[..|urls|] == urls;
  }

  /** One more URL: fetched and voted on only when it is non-empty and not seen yet. */
  lemma VotesSnoc(s: Services, c: string, urls: seq<string>, u: string)
    ensures VotesOf(s, c, Fetched(urls + [u])) ==
      VotesOf(s, c, Fetched(urls)) + (if u == "" || u in Seen(urls) then [] else PageVotes(s, c, u))
  {
    FetchedSnoc(urls, u);
    var pages := Fetched(urls);
    if !(u == "" || u in Seen(urls)) {
      assert (pages + [u])[..|pages|] == pages;
    } else {
      assert pages + [] == pages;
    }
  }

  lemma OutcomesSnoc(s: Services, claims: seq<string>, i: nat)
    requires i < |claims|
    ensures Outcomes(s, claims[..i + 1]) == Outcomes(s, claims[..i]) + [ClaimCheck(s, claims[i])]
  {
  }

  lemma CollectSnoc<T>(os: seq<Option<T>>, o: Option<T>)
    ensures Collect(os + [o]) ==
      match Collect(os)
      case None => None
      case Some(rs) =>
        match o
        case None => None
        case Some(r) => Some(rs + [r])
  {
    assert (os + [o])[..|os|] == os;
  }

  lemma ResultsSnoc(s: Services, claims: seq<string>, i: nat)
    requires i < |claims|
    ensures Results(s, claims[..i + 1]) ==
      match Results(s, claims[..i])
      case None => None
      case Some(rs) =>
        match ClaimCheck(s, claims[i])
        case None => None
        case Some(r) => Some(rs + [r])
  {
    OutcomesSnoc(s, claims, i);
    CollectSnoc(Outcomes(s, claims[..i]), ClaimCheck(s, claims[i]));
  }

  /** Once a claim's check has failed, the whole request fails. */
  lemma ResultsAbort(s: Services, claims: seq<string>, i: nat)
    requires i <= |claims| && Results(s, claims[..i]).None?
    ensures Results(s, claims).None?
  {
    var os := Outcomes(s, claims);
    assert os[..i] == Outcomes(s, claims[..i]);
    CollectFail(os, i);
    assert claims[..|claims|] == claims;
  }

  lemma UrlsSnoc(done: seq<string>, hits: seq<Hit>, k: nat)
    requires k < |hits|
    ensures done + UrlsOf(hits[..k + 1]) == (done + UrlsOf(hits[..k])) + [hits[k].url]
  {
    assert UrlsOf(hits[..k + 1]) == UrlsOf(hits[..k]) + [hits[k].url];
  }

  lemma UrlsEnds(done: seq<string>, hits: seq<Hit>)
    ensures done + UrlsOf(hits[..0]) == done
    ensures hits[..|hits|] == hits
  {
    assert UrlsOf(hits[..0]) == [];
  }

  lemma SearchSnoc(s: Services, qs: seq<string>, i: nat)
    requires i < |qs|
    ensures SearchUrls(s, qs[..i + 1]) ==
      match SearchUrls(s, qs[..i])
      case None => None
      case Some(urls) =>
        match s.search(qs[i])
        case None => None
        case Some(hits) => Some(urls + UrlsOf(SliceTo(hits, MaxHits)))
  {
    assert qs[..i + 1][..i] == qs[..i];
  }

  // ---------------------------------------------------------------------------
  // the loops of check

  /** Lines 89-91: classifies the ranked paragraphs of a page one by one. */
  method ClassifyRanked(s: Services, c: string, url: string, ranked: seq<Scored>) returns (votes: seq<Vote>)
    ensures votes == Classified(s, c, url, ranked)
  {
    votes := [];
    for k := 0 to |ranked|
      invariant |votes| == k
      invariant forall j | 0 <= j < k ::
        votes[j] == Vote(url, ranked[j].passage, s.classify(c, ranked[j].passage).stance, s.classify(c, ranked[j].passage).conf)
    {
      var judgement := s.classify(c, ranked[k].passage);
      votes := votes + [Vote(url, ranked[k].passage, judgement.stance, judgement.conf)];
    }
  }

  /** Lines 72-91 for one page: fetch, keep the long paragraphs, rank them, classify each. */
  method PageCandidates(s: Services, c: string, url: string) returns (votes: seq<Vote>)
    ensures votes == PageVotes(s, c, url)
  {
    var text := s.fetch(url);
    if text == "" {
      return [];
    }
    var paras := KeptParagraphs(text);
    if paras == [] {
      return [];
    }
    var ranked := Ranked(paras, s.score(c, paras));
    votes := ClassifyRanked(s, c, url, ranked);
  }

  /** Lines 67-91 for one result: an empty or already seen URL is skipped, any other is visited. */
  method VisitHit(s: Services, c: string, url: string, ghost before: seq<string>, seen: set<string>, candidates: seq<Vote>)
    returns (seen': set<string>, candidates': seq<Vote>)
    requires seen == Seen(before) && candidates == VotesOf(s, c, Fetched(before))
    ensures seen' == Seen(before + [url])
    ensures candidates' == VotesOf(s, c, Fetched(before + [url]))
  {
    FetchedSnoc(before, url);
    VotesSnoc(s, c, before, url);
    if url == "" || url in seen {
      return seen, candidates;
    }
    seen' := seen + {url};
    var votes := PageCandidates(s, c, url);
    candidates' := candidates + votes;
  }

  /** The results of one query (lines 66-91), in order. */
  method VisitHits(s: Services, c: string, hits: seq<Hit>, ghost done: seq<string>, seen: set<string>, candidates: seq<Vote>)
    returns (seen': set<string>, candidates': seq<Vote>)
    requires seen == Seen(done) && candidates == VotesOf(s, c, Fetched(done))
    ensures seen' == Seen(done + UrlsOf(hits))
    ensures candidates' == VotesOf(s, c, Fetched(done + UrlsOf(hits)))
  {
    seen', candidates' := seen, candidates;
    UrlsEnds(done, hits);
    for k := 0 to |hits|
      invariant seen' == Seen(done + UrlsOf(hits[..k]))
      invariant candidates' == VotesOf(s, c, Fetched(done + UrlsOf(hits[..k])))
    {
      UrlsSnoc(done, hits, k);
      seen', candidates' := VisitHit(s, c, hits[k].url, done + UrlsOf(hits[..k]), seen', candidates');
    }
  }

  /** Lines 61-108 for one claim: both searches, a fresh `seen_urls`, then the verdict. */
  method CheckClaim(s: Services, c: string) returns (r: Option<ClaimResult>)
    ensures r == ClaimCheck(s, c)
  {
    var queries := Queries(c);
    var candidates: seq<Vote> := [];
    var seen: set<string> := {};
    ghost var done: seq<string> := [];
    for i := 0 to |queries|
      invariant SearchUrls(s, queries[..i]) == Some(done)
      invariant seen == Seen(done) && candidates == VotesOf(s, c, Fetched(done))
    {
      SearchSnoc(s, queries, i);
      var results := s.search(queries[i]);
      if results.None? {
        SearchFails(s, queries, i + 1);
        assert queries[..|queries|] == queries;
        return None;
      }
      var hits := SliceTo(results.value, MaxHits);
      seen, candidates := VisitHits(s, c, hits, done, seen, candidates);
      done := done + UrlsOf(hits);
    }
    assert queries[..|queries|] == queries;
    return Some(Assemble(c, candidates));
  }

  /** `check`: extracts the claims of `llm_output` and checks them one after the other. */
  method Check(s: Services, llmOutput: string) returns (r: Option<seq<ClaimResult>>)
    ensures r == CheckSpec(s, llmOutput)
  {
    var claims := ExtractClaims(s.sentences(llmOutput), DefaultCap);
    var results: seq<ClaimResult> := [];
    for i := 0 to |claims|
      invariant Results(s, claims[..i]) == Some(results)
    {
      ResultsSnoc(s, claims, i);
      var result := CheckClaim(s, claims[i]);
      if result.None? {
        ResultsAbort(s, claims, i + 1);
        return None;
      }
      results := results + [result.value];
    }
    assert claims[..|claims|] == claims;
    return Some(results);
  }

  // ---------------------------------------------------------------------------
  // failures propagate

  /** Once a search has failed, the later queries do not matter. */
  lemma {:induction false} SearchFails(s: Services, qs: seq<string>, i: nat)
    requires i <= |qs| && SearchUrls(s, qs[..i]).None?
    ensures SearchUrls(s, qs).None?
    decreases |qs| - i
  {
    if i < |qs| {
      SearchSnoc(s, qs, i);
      SearchFails(s, qs, i + 1);
    } else {
      assert qs[..i] == qs;
    }
  }

  /** Once an outcome is None, the collection is None. */
  lemma {:induction false} CollectFail<T>(os: seq<Option<T>>, i: nat)
    requires i <= |os| && Collect(os[..i]).None?
    ensures Collect(os).None?
    decreases |os| - i
  {
    if i < |os| {
      assert os[..i + 1] == os[..i] + [os[i]];
      CollectSnoc(os[..i], os[i]);
      CollectFail(os, i + 1);
    } else {
      assert os[..i] == os;
    }
  }

  // ---------------------------------------------------------------------------
  // what check guarantees

  /**
   * Within one claim every non-empty URL is fetched exactly once: the fetched list
   * has no repeats and no empty URL, and holds every non-empty URL the searches gave.
   */
  lemma {:induction false} FetchedOnce(urls: seq<string>)
    ensures forall i, j | 0 <= i < j < |Fetched(urls)| :: Fetched(urls)[i] != Fetched(urls)[j]
    ensures forall u :: u in Fetched(urls) <==> u in urls && u != ""
  {
    if urls != [] {
      var init, u := urls[..|urls| - 1], urls[|urls| - 1];
      FetchedOnce(init);
      assert urls == init + [u];
      var f := Fetched(init);
      if !(u == "" || u in Seen(init)) {
        assert Fetched(urls) == f + [u];
        assert u !in f;
      }
    }
  }

  /**
   * A page gives no candidate when nothing was fetched or no paragraph is long
   * enough; otherwise one candidate per ranked paragraph (at most five), each with
   * the page's URL, the paragraph, and the NLI judgement of that paragraph.
   */
  lemma PageVotesShape(s: Services, c: string, url: string)
    ensures s.fetch(url) == "" ==> PageVotes(s, c, url) == []
    ensures s.fetch(url) != "" && KeptParagraphs(s.fetch(url)) == [] ==> PageVotes(s, c, url) == []
    ensures s.fetch(url) != "" && KeptParagraphs(s.fetch(url)) != [] ==>
      var paras := KeptParagraphs(s.fetch(url));
      var ranked, votes := Ranked(paras, s.score(c, paras)), PageVotes(s, c, url);
      && |votes| == |ranked| <= TopK
      && forall k | 0 <= k < |votes| ::
           && votes[k].url == url
           && votes[k].passage == ranked[k].passage
           && votes[k].passage in paras
           && votes[k].stance == s.classify(c, ranked[k].passage).stance
           && votes[k].conf == s.classify(c, ranked[k].passage).conf
  {
    var text := s.fetch(url);
    if text != "" && KeptParagraphs(text) != [] {
      var paras := KeptParagraphs(text);
      RankedShape(paras, s.score(c, paras));
    }
  }

  /** Every candidate of a claim comes from one of the pages fetched for it. */
  lemma {:induction false} VotesFromPages(s: Services, c: string, pages: seq<string>)
    ensures forall v | v in VotesOf(s, c, pages) :: v.url in pages && v in PageVotes(s, c, v.url)
  {
    if pages != [] {
      var init, u := pages[..|pages| - 1], pages[|pages| - 1];
      VotesFromPages(s, c, init);
      forall v | v in PageVotes(s, c, u)
        ensures v.url == u
      {
        PageVotesShape(s, c, u);
      }
    }
  }

  /** The result of a claim carries the claim's own text. */
  lemma ClaimCheckText(s: Services, c: string)
    ensures ClaimCheck(s, c).Some? ==> ClaimCheck(s, c).value.text == c
  {
    if ClaimCheck(s, c).Some? {
      CitationBacked(c, VotesOf(s, c, Fetched(SearchUrls(s, Queries(c)).value)));
    }
  }

  /** Collecting fails exactly when some outcome is None; otherwise it keeps every value in order. */
  lemma {:induction false} CollectExactly<T>(os: seq<Option<T>>)
    ensures Collect(os).None? <==> exists k | 0 <= k < |os| :: os[k].None?
    ensures Collect(os).Some? ==>
      |Collect(os).value| == |os| && forall k | 0 <= k < |os| :: os[k] == Some(Collect(os).value[k])
  {
    if os != [] {
      var n := |os| - 1;
      var init := os[..n];
      CollectExactly(init);
      assert os == init + [os[n]];
      CollectSnoc(init, os[n]);
      if Collect(init).None? {
        var k :| 0 <= k < n && init[k].None?;
        assert os[k].None?;
      }
    }
  }

  /**
   * One result per claim, in claim order, each exactly what checking that claim on
   * its own gives (`seen_urls` starts empty for every claim); the request fails
   * exactly when a search fails for some claim.
   */
  lemma ResultsPerClaim(s: Services, claims: seq<string>)
    ensures Results(s, claims).None? <==> exists k | 0 <= k < |claims| :: ClaimCheck(s, claims[k]).None?
    ensures Results(s, claims).Some? ==>
      var rs := Results(s, claims).value;
      && |rs| == |claims|
      && forall k | 0 <= k < |claims| :: ClaimCheck(s, claims[k]) == Some(rs[k]) && rs[k].text == claims[k]
  {
    var os := Outcomes(s, claims);
    CollectExactly(os);
    forall k | 0 <= k < |claims|
      ensures ClaimCheck(s, claims[k]).Some? ==> ClaimCheck(s, claims[k]).value.text == claims[k]
    {
      ClaimCheckText(s, claims[k]);
    }
    if Results(s, claims).None? {
      var k :| 0 <= k < |os| && os[k].None?;
      assert ClaimCheck(s, claims[k]).None?;
    }
  }
}
