/** Fetching recent papers, the keyword filter and the digest list
    (`fetch_working_arxiv_papers`, `filter_papers_by_keywords`,
    `get_working_digest`). */
module Fetchers {
  import opened Wrappers
  import opened Seqs
  import opened Strings
  import opened IsoDate
  import opened Papers

  /** `now - timedelta(days=days)` overflowed; it is computed before the
      request and outside its `try`, so it reaches the caller. */
  datatype FetchError = CutoffOverflow

  // ---------------------------------------------------------------------
  // Entries to papers.

  /** The papers of the entries the constructor accepts, in feed order; an
      entry that raises is skipped. */
  function Parsed(entries: seq<RawEntry>): (ps: seq<Paper>)
    ensures |ps| <= |entries|
    ensures forall i :: 0 <= i < |ps| ==> WellFormed(ps[i])
  {
    if entries == [] then []
    else Parsed(entries[..|entries| - 1]) + Accepted(entries[|entries| - 1])
  }

  /** A paper is parsed from the entries exactly when some entry builds it. */
  lemma {:induction false} ParsedMembers(entries: seq<RawEntry>, p: Paper)
    ensures p in Parsed(entries) <==> exists e :: e in entries && Normalize(e) == Ok(p)
  {
    if entries != [] {
      var init := entries[..|entries| - 1];
      var last := entries[|entries| - 1];
      assert entries == init + [last];
      ParsedMembers(init, p);
      assert forall e :: e in entries <==> e in init || e == last;
    }
  }

  /** When no entry raises, the loop accepts every entry, in feed order. */
  lemma {:induction false} ParsedAllAccepted(entries: seq<RawEntry>, papers: seq<Paper>)
    requires |entries| == |papers|
    requires forall i :: 0 <= i < |entries| ==> Normalize(entries[i]) == Ok(papers[i])
    ensures Parsed(entries) == papers
  {
    if entries != [] {
      var n := |entries| - 1;
      ParsedAllAccepted(entries[..n], papers[..n]);
      assert Accepted(entries[n]) == [papers[n]];
      InitLast(papers);
    }
  }

  /** One more entry that builds a paper adds that paper at the end. */
  lemma ParsedSnoc(entries: seq<RawEntry>, e: RawEntry, p: Paper)
    requires Normalize(e) == Ok(p)
    ensures Parsed(entries + [e]) == Parsed(entries) + [p]
  {
    var s := entries + [e];
    assert s[..|s| - 1] == entries;
  }

  /** The paper built from one entry, or nothing when building it raises. */
  function Accepted(e: RawEntry): seq<Paper> {
    match Normalize(e) case Ok(p) => [p] case Err(_) => []
  }

  lemma ParsedStep(entries: seq<RawEntry>, i: nat)
    requires i < |entries|
    ensures Parsed(entries[..i + 1]) == Parsed(entries[..i]) + Accepted(entries[i])
  {
    assert entries[..i + 1][..i] == entries[..i];
  }

  /** The date test of the loop: a paper without a date is kept, a dated
      one when it is not before the cutoff. */
  predicate IsRecent(cutoff: int, p: Paper) {
    p.published.None? || (Valid(p.published.value) && Instant(p.published.value) >= cutoff)
  }

  function RecentAt(cutoff: int): Paper -> bool {
    p => IsRecent(cutoff, p)
  }

  /** What `fetch_working_arxiv_papers` returns: `Err` when the cutoff
      overflows, nothing when the request fails (`feed == None`), and
      otherwise the recent papers among the accepted entries. */
  function FetchRecent(feed: Option<seq<RawEntry>>, now: DateTime, days: int): (r: Result<seq<Paper>, FetchError>)
    requires Valid(now)
    ensures r.Err? <==> Cutoff(now, days).None?
    ensures r.Ok? && feed.None? ==> r.value == []
    ensures r.Ok? && feed.Some? ==> IsSubsequence(r.value, Parsed(feed.value))
    ensures r.Ok? && feed.Some? ==> |r.value| == CountWhere(RecentAt(Cutoff(now, days).value), Parsed(feed.value))
    ensures r.Ok? ==> forall i :: 0 <= i < |r.value| ==> IsRecent(Cutoff(now, days).value, r.value[i])
  {
    match Cutoff(now, days)
    case None => Err(CutoffOverflow)
    case Some(c) =>
      if feed.None? then Ok([]) else Ok(Filter(RecentAt(c), Parsed(feed.value)))
  }

  /** The entry loop as written: build each paper, skip entries that raise,
      and append a paper that is dated on or after the cutoff or undated. */
  method FetchWorkingArxivPapers(feed: Option<seq<RawEntry>>, now: DateTime, days: int)
    returns (r: Result<seq<Paper>, FetchError>)
    requires Valid(now)
    ensures r == FetchRecent(feed, now, days)
  {
    var cutoff := Cutoff(now, days);
    if cutoff.None? {
      return Err(CutoffOverflow);
    }
    if feed.None? {
      return Ok([]);
    }
    var entries := feed.value;
    var papers: seq<Paper> := [];
    var i := 0;
    while i < |entries|
      invariant 0 <= i <= |entries|
      invariant papers == Filter(RecentAt(cutoff.value), Parsed(entries[..i]))
    {
      var built := Normalize(entries[i]);
      LoopStep(cutoff.value, entries, i);
      if built.Ok? {
        var p := built.value;
        if p.published.Some? && Instant(p.published.value) >= cutoff.value {
          papers := papers + [p];
        } else if p.published.None? {
          papers := papers + [p];
        }
      }
      i := i + 1;
    }
    assert entries[..i] == entries;
    return Ok(papers);
  }

  /** One more entry through the loop: its paper is appended when it is
      built and dated on or after the cutoff or undated. */
  lemma LoopStep(cutoff: int, entries: seq<RawEntry>, i: nat)
    requires i < |entries|
    ensures Filter(RecentAt(cutoff), Parsed(entries[..i + 1])) == Filter(RecentAt(cutoff), Parsed(entries[..i])) +
      (match Normalize(entries[i])
       case Ok(p) => if (p.published.Some? && Instant(p.published.value) >= cutoff) || p.published.None? then [p] else []
       case Err(_) => [])
  {
    ParsedStep(entries, i);
    match Normalize(entries[i])
    case Ok(p) =>
      RecentStep(cutoff, Parsed(entries[..i]), p);
    case Err(_) =>
      assert Accepted(entries[i]) == [];
      assert Parsed(entries[..i]) + [] == Parsed(entries[..i]);
  }

  /** One more paper through the date filter. */
  lemma RecentStep(cutoff: int, ps: seq<Paper>, p: Paper)
    requires WellFormed(p)
    ensures Filter(RecentAt(cutoff), ps + [p]) == Filter(RecentAt(cutoff), ps) +
      (if (p.published.Some? && Instant(p.published.value) >= cutoff) || p.published.None? then [p] else [])
  {
    FilterAppend(RecentAt(cutoff), ps, p);
  }

  /** A fetched paper is one some entry builds and that passes the date
      test, and every such paper is fetched. */
  lemma FetchRecentMembers(entries: seq<RawEntry>, now: DateTime, days: int, p: Paper)
    requires Valid(now) && Cutoff(now, days).Some?
    ensures p in FetchRecent(Some(entries), now, days).value <==>
      (exists e :: e in entries && Normalize(e) == Ok(p)) && IsRecent(Cutoff(now, days).value, p)
  {
    FilterMembers(RecentAt(Cutoff(now, days).value), Parsed(entries), p);
    ParsedMembers(entries, p);
  }

  /** An entry that builds a paper and has no parsable publication date is
      kept whatever the window. */
  lemma UndatedKept(entries: seq<RawEntry>, now: DateTime, days: int, e: RawEntry)
    requires Valid(now) && Cutoff(now, days).Some?
    requires e in entries && Buildable(e) && ParseFeedDate(e.published).None?
    ensures Normalize(e).value in FetchRecent(Some(entries), now, days).value
  {
    NormalizeFields(e);
    FetchRecentMembers(entries, now, days, Normalize(e).value);
  }

  /** The test on instants is Python's `published >= cutoff_date` on
      datetimes. */
  lemma RecentIsNotBefore(p: Paper, cutoff: DateTime)
    requires Valid(cutoff) && p.published.Some? && Valid(p.published.value)
    ensures IsRecent(Instant(cutoff), p) <==> !Before(p.published.value, cutoff)
  {
    InstantOrder(p.published.value, cutoff);
  }

  /** A wider window keeps every paper a narrower one keeps, in the same
      order. */
  lemma WiderWindowKeepsMore(feed: Option<seq<RawEntry>>, now: DateTime, d1: int, d2: int)
    requires Valid(now) && d1 <= d2
    requires Cutoff(now, d1).Some? && Cutoff(now, d2).Some?
    ensures IsSubsequence(FetchRecent(feed, now, d1).value, FetchRecent(feed, now, d2).value)
  {
    if feed.None? {
      SubsequenceReflexive<Paper>([]);
    } else {
      var c1, c2 := Cutoff(now, d1).value, Cutoff(now, d2).value;
      assert c2 <= c1;
      FilterMonotone(RecentAt(c1), RecentAt(c2), Parsed(feed.value));
    }
  }

  // ---------------------------------------------------------------------
  // Keywords.

  /** `f"{paper.title} {paper.abstract}".lower()`. */
  function SearchText(p: Paper): (r: string)
    ensures r == Lower(p.title) + " " + Lower(p.Abstract())
  {
    LowerFacts(p.title, " " + p.Abstract());
    LowerFacts(" ", p.Abstract());
    Lower(p.title + " " + p.Abstract())
  }

  /** `any(keyword.lower() in text for keyword in keywords)`, scanned left to
      right. */
  function AnyKeyword(text: string, keywords: seq<string>): (b: bool)
    ensures b <==> exists i :: 0 <= i < |keywords| && Contains(text, Lower(keywords[i]))
  {
    if keywords == [] then false
    else if Contains(text, Lower(keywords[0])) then true
    else
      var b := AnyKeyword(text, keywords[1..]);
      assert forall i :: 1 <= i < |keywords| ==> keywords[i] == keywords[1..][i - 1];
      b
  }

  function RelevantTo(keywords: seq<string>): Paper -> bool {
    p => AnyKeyword(SearchText(p), keywords)
  }

  /** `filter_papers_by_keywords`: the papers, in order, whose lower-cased
      title and abstract contain some lower-cased keyword. */
  function FilterPapersByKeywords(papers: seq<Paper>, keywords: seq<string>): (r: seq<Paper>)
    ensures IsSubsequence(r, papers)
    ensures |r| == CountWhere(RelevantTo(keywords), papers)
    ensures forall p :: p in r <==>
      (p in papers && exists i :: 0 <= i < |keywords| && Contains(SearchText(p), Lower(keywords[i])))
  {
    var r := Filter(RelevantTo(keywords), papers);
    assert forall p :: p in r <==> p in papers && RelevantTo(keywords)(p) by {
      forall p ensures p in r <==> p in papers && RelevantTo(keywords)(p) {
        FilterMembers(RelevantTo(keywords), papers, p);
      }
    }
    r
  }

  /** With no keywords nothing matches. */
  lemma NoKeywordsNoPapers(papers: seq<Paper>)
    ensures FilterPapersByKeywords(papers, []) == []
  {
  }

  /** The empty keyword occurs in every text, so it keeps every paper. */
  lemma EmptyKeywordKeepsAll(papers: seq<Paper>, keywords: seq<string>)
    requires "" in keywords
    ensures FilterPapersByKeywords(papers, keywords) == papers
  {
    var i :| 0 <= i < |keywords| && keywords[i] == "";
    forall j | 0 <= j < |papers| ensures RelevantTo(keywords)(papers[j]) {
      assert OccursAt(SearchText(papers[j]), Lower(keywords[i]), 0);
    }
    FilterKeepsAll(RelevantTo(keywords), papers);
  }

  /** More keywords keep more papers: every paper kept for `ks` is kept, in
      the same order, for any `ls` holding all of `ks`. */
  lemma KeywordsMonotone(papers: seq<Paper>, ks: seq<string>, ls: seq<string>)
    requires forall k :: k in ks ==> k in ls
    ensures IsSubsequence(FilterPapersByKeywords(papers, ks), FilterPapersByKeywords(papers, ls))
  {
    forall j | 0 <= j < |papers| && RelevantTo(ks)(papers[j])
      ensures RelevantTo(ls)(papers[j])
    {
      var i :| 0 <= i < |ks| && Contains(SearchText(papers[j]), Lower(ks[i]));
      assert ks[i] in ls;
      var i' :| 0 <= i' < |ls| && ls[i'] == ks[i];
    }
    FilterMonotone(RelevantTo(ks), RelevantTo(ls), papers);
  }

  /** The filter ignores the case of the keywords. */
  lemma KeywordCaseIgnored(papers: seq<Paper>, keywords: seq<string>)
    ensures FilterPapersByKeywords(papers, seq(|keywords|, i requires 0 <= i < |keywords| => Lower(keywords[i])))
         == FilterPapersByKeywords(papers, keywords)
  {
    var lowered := seq(|keywords|, i requires 0 <= i < |keywords| => Lower(keywords[i]));
    forall i | 0 <= i < |keywords| ensures Lower(lowered[i]) == Lower(keywords[i]) {
      LowerFacts(keywords[i], []);
    }
    FilterCongruent(RelevantTo(lowered), RelevantTo(keywords), papers);
  }

  /** Filtering the filtered papers again changes nothing. */
  lemma KeywordFilterIdempotent(papers: seq<Paper>, keywords: seq<string>)
    ensures FilterPapersByKeywords(FilterPapersByKeywords(papers, keywords), keywords)
         == FilterPapersByKeywords(papers, keywords)
  {
    FilterIdempotent(RelevantTo(keywords), papers);
  }

  // ---------------------------------------------------------------------
  // The digest list.

  /** The keywords used when the caller passes none. */
  const DefaultKeywords: seq<string> := [
    "transformer", "llm", "language model", "neural", "deep learning",
    "machine learning", "artificial intelligence", "computer vision",
    "natural language", "reinforcement learning"]

  /** `[p.to_dict() for p in papers]`. */
  function Records(ps: seq<Paper>): (rs: seq<PaperRecord>)
    requires forall i :: 0 <= i < |ps| ==> WellFormed(ps[i])
    ensures |rs| == |ps|
    ensures forall i :: 0 <= i < |ps| ==> rs[i] == ToRecord(ps[i])
  {
    seq(|ps|, i requires 0 <= i < |ps| && WellFormed(ps[i]) => ToRecord(ps[i]))
  }

  /** `get_working_digest(days=days, keywords=keywords)`: the dictionaries of
      the recent papers that match a keyword, the defaults standing in for
      missing keywords. */
  function GetWorkingDigest(feed: Option<seq<RawEntry>>, now: DateTime, days: int,
                            keywords: Option<seq<string>>): (r: Result<seq<PaperRecord>, FetchError>)
    requires Valid(now)
    ensures r.Err? <==> Cutoff(now, days).None?
    ensures r.Ok? ==> |r.value| <= |FetchRecent(feed, now, days).value|
    ensures r.Ok? && feed.Some? ==> |r.value| <= |feed.value|
  {
    match FetchRecent(feed, now, days)
    case Err(e) => Err(e)
    case Ok(papers) =>
      if papers == [] then Ok([])
      else
        var kept := FilterPapersByKeywords(papers, keywords.GetOr(DefaultKeywords));
        SubsequenceMembers(kept, papers);
        SubsequenceMembers(papers, Parsed(feed.value));
        Ok(Records(kept))
  }

  /** Leaving the keywords out is passing the default list. */
  lemma DigestDefaults(feed: Option<seq<RawEntry>>, now: DateTime, days: int)
    requires Valid(now)
    ensures GetWorkingDigest(feed, now, days, None) == GetWorkingDigest(feed, now, days, Some(DefaultKeywords))
  {
  }

  /** An explicit empty keyword list yields an empty digest. */
  lemma DigestNoKeywords(feed: Option<seq<RawEntry>>, now: DateTime, days: int)
    requires Valid(now) && Cutoff(now, days).Some?
    ensures GetWorkingDigest(feed, now, days, Some([])) == Ok([])
  {
    var papers := FetchRecent(feed, now, days).value;
    NoKeywordsNoPapers(papers);
  }

  /** A failed request yields an empty digest. */
  lemma DigestFetchFailure(now: DateTime, days: int, keywords: Option<seq<string>>)
    requires Valid(now) && Cutoff(now, days).Some?
    ensures GetWorkingDigest(None, now, days, keywords) == Ok([])
  {
  }

  /** The early return on an empty fetch gives what filtering the empty list
      would: the digest is the dictionaries of the relevant recent papers. */
  lemma DigestIsFilteredRecords(feed: Option<seq<RawEntry>>, now: DateTime, days: int,
                                keywords: Option<seq<string>>)
    requires Valid(now) && Cutoff(now, days).Some?
    ensures var papers := FetchRecent(feed, now, days).value;
      var kept := FilterPapersByKeywords(papers, keywords.GetOr(DefaultKeywords));
      (forall i :: 0 <= i < |kept| ==> WellFormed(kept[i])) &&
      GetWorkingDigest(feed, now, days, keywords) == Ok(Records(kept))
  {
    var papers := FetchRecent(feed, now, days).value;
    var kept := FilterPapersByKeywords(papers, keywords.GetOr(DefaultKeywords));
    SubsequenceMembers(kept, papers);
    if feed.Some? {
      SubsequenceMembers(papers, Parsed(feed.value));
    }
    if papers == [] {
      SubsequenceMembers(kept, papers);
      assert kept == [];
    }
  }
}
