/** End-to-end examples worked through the model. */
module Scenarios {
  import opened Wrappers
  import opened Seqs
  import opened Strings
  import opened Whitespace
  import opened IsoDate
  import opened Papers
  import opened Fetchers
  import opened DigestAgent

  /** A UTC date in Atom form keeps its wall-clock time. */
  lemma ZuluDateKeepsWallClock()
    ensures ParseFeedDate(Text("2024-01-15T10:30:00Z")) == Some(DateTime(2024, 1, 15, 10, 30, 0, 0))
  {
    var t := DateTime(2024, 1, 15, 10, 30, 0, 0);
    ZuluExampleFormat();
    ParseFeedDateZulu(t);
  }

  lemma ZuluExampleFormat()
    ensures Valid(DateTime(2024, 1, 15, 10, 30, 0, 0))
    ensures IsoFormat(DateTime(2024, 1, 15, 10, 30, 0, 0)) + "Z" == "2024-01-15T10:30:00Z"
  {
    ZuluExampleTime();
  }

  lemma ZuluExampleTime()
    ensures Valid(DateTime(2024, 1, 15, 10, 30, 0, 0))
    ensures IsoFormat(DateTime(2024, 1, 15, 10, 30, 0, 0)) == "2024-01-15T10:30:00"
  {
    ZuluExampleParts();
  }

  lemma ZuluExampleParts()
    ensures Valid(DateTime(2024, 1, 15, 10, 30, 0, 0))
    ensures DateString(DateTime(2024, 1, 15, 10, 30, 0, 0)) == "2024-01-15"
    ensures TimeString(DateTime(2024, 1, 15, 10, 30, 0, 0)) == "10:30:00"
  {
  }

  /** The PDF link of an abstract link. */
  lemma PdfLinkOfAbstractLink()
    ensures PdfUrl("http://arxiv.org/abs/2401.12345v1") == "http://arxiv.org/pdf/2401.12345v1.pdf"
    ensures IdOf("http://arxiv.org/abs/2401.12345v1") == "2401.12345v1"
  {
    var x := "2401.12345v1";
    ExampleLinks();
    MissingCharNotContained(x, "/abs/", 0);
    ArxivPdfUrl(x);
    ArxivId(x);
  }

  lemma ExampleLinks()
    ensures '/' !in "2401.12345v1"
    ensures ArxivAbs + "2401.12345v1" == "http://arxiv.org/abs/2401.12345v1"
    ensures "http://arxiv.org/pdf/" + "2401.12345v1" + ".pdf" == "http://arxiv.org/pdf/2401.12345v1.pdf"
  {
  }

  // ---------------------------------------------------------------------
  // Three entries, one digest paper.

  /** An arXiv entry with one author and one category, dated in Atom form. */
  function ArxivEntry(x: string, title: string, summary: string, author: string,
                      published: string, category: string): RawEntry
  {
    RawEntry(Text(ArxivAbs + x), Text(title), Text(summary), Iterable([Record(map["name" := author])]),
             Text(published), Absent, Iterable([Record(map["term" := category])]), None, None)
  }

  /** The paper such an entry should give. */
  function ArxivPaper(x: string, title: string, summary: string, author: string,
                      t: DateTime, category: string): Paper
  {
    Paper(x, title, summary, [author], Some(t), None, [category], Some(category),
          ArxivAbs + x, "http://arxiv.org/pdf/" + x + ".pdf", "", "")
  }

  /** A clean arXiv entry builds the expected paper. */
  lemma BuildsArxivPaper(x: string, title: string, summary: string, author: string,
                         t: DateTime, category: string)
    requires '/' !in x && Valid(t) && Normalized(title) && Normalized(summary)
    ensures Normalize(ArxivEntry(x, title, summary, author, IsoFormat(t) + "Z", category))
         == Ok(ArxivPaper(x, title, summary, author, t, category))
  {
    ArxivTextFields(x, title, summary, author, t, category);
    ArxivOtherFields(x, title, summary, author, t, category);
  }

  /** The identifier, links, title and abstract of such an entry. */
  lemma ArxivTextFields(x: string, title: string, summary: string, author: string,
                        t: DateTime, category: string)
    requires '/' !in x && Valid(t) && Normalized(title) && Normalized(summary)
    ensures var r := Normalize(ArxivEntry(x, title, summary, author, IsoFormat(t) + "Z", category));
      && r.Ok? && r.value.id == x && r.value.title == title && r.value.summary == summary
      && r.value.arxivUrl == ArxivAbs + x && r.value.pdfUrl == "http://arxiv.org/pdf/" + x + ".pdf"
  {
    ArxivLinks(x, title, summary, author, t, category);
    ArxivTexts(x, title, summary, author, t, category);
  }

  lemma ArxivLinks(x: string, title: string, summary: string, author: string,
                   t: DateTime, category: string)
    requires '/' !in x && Valid(t)
    ensures var r := Normalize(ArxivEntry(x, title, summary, author, IsoFormat(t) + "Z", category));
      && r.Ok? && r.value.id == x
      && r.value.arxivUrl == ArxivAbs + x && r.value.pdfUrl == "http://arxiv.org/pdf/" + x + ".pdf"
  {
    var e := ArxivEntry(x, title, summary, author, IsoFormat(t) + "Z", category);
    assert Buildable(e);
    NormalizeFields(e);
    MissingCharNotContained(x, "/abs/", 0);
    ArxivPdfUrl(x);
    ArxivId(x);
  }

  lemma ArxivTexts(x: string, title: string, summary: string, author: string,
                   t: DateTime, category: string)
    requires Valid(t) && Normalized(title) && Normalized(summary)
    ensures var r := Normalize(ArxivEntry(x, title, summary, author, IsoFormat(t) + "Z", category));
      && r.Ok? && r.value.title == title && r.value.summary == summary
  {
    var e := ArxivEntry(x, title, summary, author, IsoFormat(t) + "Z", category);
    assert Buildable(e);
    TextsKept(e, title, summary);
  }

  /** Title and abstract already in normal form are kept as they are. */
  lemma TextsKept(e: RawEntry, title: string, summary: string)
    requires Buildable(e) && e.title == Text(title) && e.summary == Text(summary)
    requires Normalized(title) && Normalized(summary)
    ensures Normalize(e).Ok? && Normalize(e).value.title == title && Normalize(e).value.summary == summary
  {
    NormalizeFields(e);
    CleanTextFixedPoints(title);
    CleanTextFixedPoints(summary);
  }

  /** The authors, categories, dates, comment and DOI of such an entry. */
  lemma ArxivOtherFields(x: string, title: string, summary: string, author: string,
                         t: DateTime, category: string)
    requires Valid(t)
    ensures var r := Normalize(ArxivEntry(x, title, summary, author, IsoFormat(t) + "Z", category));
      && r.Ok? && r.value.authors == [author] && r.value.categories == [category]
      && r.value.primaryCategory == Some(category)
      && r.value.published == Some(t) && r.value.updated == None
      && r.value.comment == "" && r.value.doi == ""
  {
    var e := ArxivEntry(x, title, summary, author, IsoFormat(t) + "Z", category);
    assert Buildable(e);
    NormalizeFields(e);
    ParseFeedDateZulu(t);
    CollectsOne(author, category);
  }

  lemma CollectsOne(author: string, category: string)
    ensures Collect(Iterable([Record(map["name" := author])]), AuthorOf) == Some([author])
    ensures Collect(Iterable([Record(map["term" := category])]), TermOf) == Some([category])
  {
    var names := Picks([Record(map["name" := author])], AuthorOf);
    assert names[0] == Some(author);
    assert Present(names) == [author];
    var terms := Picks([Record(map["term" := category])], TermOf);
    assert terms[0] == Some(category);
    assert Present(terms) == [category];
  }

  /** Three entries that build papers give those papers, in order. */
  lemma ParsedThree(a: RawEntry, b: RawEntry, c: RawEntry, pa: Paper, pb: Paper, pc: Paper)
    requires Normalize(a) == Ok(pa) && Normalize(b) == Ok(pb) && Normalize(c) == Ok(pc)
    ensures Parsed([a, b, c]) == [pa, pb, pc]
  {
    ParsedSnoc([], a, pa);
    ParsedSnoc([a], b, pb);
    ParsedSnoc([a, b], c, pc);
    Snoc3(a, b, c);
    Snoc3(pa, pb, pc);
  }

  lemma Snoc3<T>(x: T, y: T, z: T)
    ensures [] + [x] == [x] && [x] + [y] == [x, y] && [x, y] + [z] == [x, y, z]
  {
  }

  /** Of three papers, one older than the window, one on topic and one off
      topic, the digest holds exactly the record of the on-topic one. */
  lemma OneOfThree(feed: seq<RawEntry>, now: DateTime, keywords: seq<string>, stale: Paper, hit: Paper, miss: Paper)
    requires Parsed(feed) == [stale, hit, miss]
    requires Valid(now) && Cutoff(now, 7).Some?
    requires !IsRecent(Cutoff(now, 7).value, stale)
    requires IsRecent(Cutoff(now, 7).value, hit) && IsRecent(Cutoff(now, 7).value, miss)
    requires RelevantTo(keywords)(hit) && !RelevantTo(keywords)(miss)
    ensures WellFormed(hit)
    ensures GetWorkingDigest(Some(feed), now, 7, Some(keywords)) == Ok([ToRecord(hit)])
  {
    RecentTwoOfThree(feed, now, stale, hit, miss);
    RelevantOneOfTwo(keywords, hit, miss);
    DigestOfOne(feed, now, keywords, [hit, miss], hit);
  }

  /** When the keywords leave one recent paper, the digest is its record. */
  lemma DigestOfOne(feed: seq<RawEntry>, now: DateTime, keywords: seq<string>, papers: seq<Paper>, hit: Paper)
    requires Valid(now) && Cutoff(now, 7).Some?
    requires FetchRecent(Some(feed), now, 7) == Ok(papers)
    requires FilterPapersByKeywords(papers, keywords) == [hit]
    ensures WellFormed(hit)
    ensures GetWorkingDigest(Some(feed), now, 7, Some(keywords)) == Ok([ToRecord(hit)])
  {
    DigestIsFilteredRecords(Some(feed), now, 7, Some(keywords));
    assert Records([hit]) == [ToRecord(hit)];
  }

  lemma RecentTwoOfThree(feed: seq<RawEntry>, now: DateTime, stale: Paper, hit: Paper, miss: Paper)
    requires Parsed(feed) == [stale, hit, miss]
    requires Valid(now) && Cutoff(now, 7).Some?
    requires !IsRecent(Cutoff(now, 7).value, stale)
    requires IsRecent(Cutoff(now, 7).value, hit) && IsRecent(Cutoff(now, 7).value, miss)
    ensures FetchRecent(Some(feed), now, 7) == Ok([hit, miss])
  {
    FilterDropsFirst(RecentAt(Cutoff(now, 7).value), stale, hit, miss);
  }

  lemma RelevantOneOfTwo(keywords: seq<string>, hit: Paper, miss: Paper)
    requires RelevantTo(keywords)(hit) && !RelevantTo(keywords)(miss)
    ensures FilterPapersByKeywords([hit, miss], keywords) == [hit]
  {
    FilterDropsSecond(RelevantTo(keywords), hit, miss);
  }

  /** Filtering three elements of which the first fails the test. */
  lemma FilterDropsFirst<T>(p: T -> bool, x: T, y: T, z: T)
    requires !p(x) && p(y) && p(z)
    ensures Filter(p, [x, y, z]) == [y, z]
  {
    assert [x, y, z][1..] == [y, z];
    assert [y, z][1..] == [z];
    assert [z][1..] == [];
  }

  /** Filtering two elements of which the second fails the test. */
  lemma FilterDropsSecond<T>(p: T -> bool, x: T, y: T)
    requires p(x) && !p(y)
    ensures Filter(p, [x, y]) == [x]
  {
    assert [x, y][1..] == [y];
    assert [y][1..] == [];
  }

  /** A week before noon on 20 January is noon on 13 January. */
  lemma WeekBeforeNoon()
    ensures Cutoff(DateTime(2024, 1, 20, 12, 0, 0, 0), 7) == Some(Instant(DateTime(2024, 1, 13, 12, 0, 0, 0)))
  {
    InstantRange(DateTime(2024, 1, 20, 12, 0, 0, 0));
    InstantRange(DateTime(2024, 1, 13, 12, 0, 0, 0));
  }

  /** Against that cutoff, a paper from 1 December is dropped and papers
      from 18 and 19 January are kept. */
  lemma WeekWindow(p: Paper, q: Paper, r: Paper)
    requires p.published == Some(DateTime(2023, 12, 1, 0, 0, 0, 0))
    requires q.published == Some(DateTime(2024, 1, 18, 9, 0, 0, 0))
    requires r.published == Some(DateTime(2024, 1, 19, 8, 0, 0, 0))
    ensures !IsRecent(Cutoff(DateTime(2024, 1, 20, 12, 0, 0, 0), 7).value, p)
    ensures IsRecent(Cutoff(DateTime(2024, 1, 20, 12, 0, 0, 0), 7).value, q)
    ensures IsRecent(Cutoff(DateTime(2024, 1, 20, 12, 0, 0, 0), 7).value, r)
  {
    WeekBeforeNoon();
  }

  /** A paper dated exactly at the cutoff is kept. */
  lemma BoundaryIsInclusive(p: Paper)
    requires p.published == Some(DateTime(2024, 1, 13, 12, 0, 0, 0))
    ensures IsRecent(Cutoff(DateTime(2024, 1, 20, 12, 0, 0, 0), 7).value, p)
  {
    WeekBeforeNoon();
  }

  /** "transformer" is found, whatever its case, in a paper whose title is
      "Attention" and whose abstract is "Transformers.": the abstract is
      searched as well as the title. */
  lemma KeywordFound(p: Paper)
    requires p.title == "Attention" && p.summary == "Transformers."
    ensures RelevantTo(["transformer"])(p)
  {
    var text := p.title + " " + p.Abstract();
    TransformerText();
    LowerSlice(text, 10, 21);
    assert Lower(["transformer"][0]) == "transformer";
    assert OccursAt(SearchText(p), "transformer", 10);
  }

  lemma TransformerText()
    ensures ("Attention" + " " + "Transformers.")[10..21] == "Transformer"
    ensures Lower("Transformer") == "transformer"
    ensures Lower("transformer") == "transformer"
  {
  }

  /** A text without a `t` cannot contain "transformer". */
  lemma KeywordMissing(p: Paper)
    requires p.title == "Codes" && p.summary == "Bounds."
    ensures !RelevantTo(["transformer"])(p)
  {
    var text := p.title + " " + p.Abstract();
    CodesText();
    LowerAvoids(text, 't');
    assert Lower(["transformer"][0]) == "transformer";
    MissingCharNotContained(SearchText(p), "transformer", 0);
  }

  lemma CodesText()
    ensures 't' !in "Codes" + " " + "Bounds."
    ensures 'T' !in "Codes" + " " + "Bounds."
    ensures Lower("transformer") == "transformer"
  {
  }

  /** Three arXiv entries, from 1 December, 18 January and 19 January. */
  function Feed(): seq<RawEntry> {
    ExampleDates();
    [ArxivEntry("2312.00001v1", "Graphs", "Messages.", "A. Author",
                IsoFormat(DateTime(2023, 12, 1, 0, 0, 0, 0)) + "Z", "cs.LG"),
     ArxivEntry("2401.00002v1", "Attention", "Transformers.", "A. Vaswani",
                IsoFormat(DateTime(2024, 1, 18, 9, 0, 0, 0)) + "Z", "cs.CL"),
     ArxivEntry("2401.00003v1", "Codes", "Bounds.", "C. Coder",
                IsoFormat(DateTime(2024, 1, 19, 8, 0, 0, 0)) + "Z", "cs.IT")]
  }

  lemma ExampleDates()
    ensures Valid(DateTime(2023, 12, 1, 0, 0, 0, 0))
    ensures Valid(DateTime(2024, 1, 18, 9, 0, 0, 0))
    ensures Valid(DateTime(2024, 1, 19, 8, 0, 0, 0))
    ensures Valid(DateTime(2024, 1, 20, 12, 0, 0, 0))
  {
  }

  lemma ExampleIds()
    ensures '/' !in "2312.00001v1" && '/' !in "2401.00002v1" && '/' !in "2401.00003v1"
  {
  }

  /** The example titles and summaries are already in normal form. */
  lemma GraphsText()
    ensures Normalized("Graphs")
  {
  }

  lemma MessagesText()
    ensures Normalized("Messages.")
  {
  }

  lemma TransformersText()
    ensures Normalized("Transformers.")
  {
  }

  lemma AttentionText()
    ensures Normalized("Attention")
  {
  }

  lemma CodesTitle()
    ensures Normalized("Codes")
  {
  }

  lemma BoundsText()
    ensures Normalized("Bounds.")
  {
  }

  /** The three entries build their three papers. */
  lemma FeedParses()
    ensures Parsed(Feed()) == [
      ArxivPaper("2312.00001v1", "Graphs", "Messages.", "A. Author", DateTime(2023, 12, 1, 0, 0, 0, 0), "cs.LG"),
      ArxivPaper("2401.00002v1", "Attention", "Transformers.", "A. Vaswani", DateTime(2024, 1, 18, 9, 0, 0, 0), "cs.CL"),
      ArxivPaper("2401.00003v1", "Codes", "Bounds.", "C. Coder", DateTime(2024, 1, 19, 8, 0, 0, 0), "cs.IT")]
  {
    ExampleDates();
    ExampleIds();
    GraphsText();
    MessagesText();
    TransformersText();
    AttentionText();
    CodesTitle();
    BoundsText();
    BuildsArxivPaper("2312.00001v1", "Graphs", "Messages.", "A. Author", DateTime(2023, 12, 1, 0, 0, 0, 0), "cs.LG");
    BuildsArxivPaper("2401.00002v1", "Attention", "Transformers.", "A. Vaswani", DateTime(2024, 1, 18, 9, 0, 0, 0), "cs.CL");
    BuildsArxivPaper("2401.00003v1", "Codes", "Bounds.", "C. Coder", DateTime(2024, 1, 19, 8, 0, 0, 0), "cs.IT");
    var f := Feed();
    ParsedThree(f[0], f[1], f[2],
      ArxivPaper("2312.00001v1", "Graphs", "Messages.", "A. Author", DateTime(2023, 12, 1, 0, 0, 0, 0), "cs.LG"),
      ArxivPaper("2401.00002v1", "Attention", "Transformers.", "A. Vaswani", DateTime(2024, 1, 18, 9, 0, 0, 0), "cs.CL"),
      ArxivPaper("2401.00003v1", "Codes", "Bounds.", "C. Coder", DateTime(2024, 1, 19, 8, 0, 0, 0), "cs.IT"));
    assert f == [f[0], f[1], f[2]];
  }

  /** At noon on 20 January, with the keyword "transformer", the digest
      holds exactly the record of the 18 January paper: the December paper
      is too old and the other recent one is off topic. */
  lemma OnlyTheTransformerPaper()
    ensures GetWorkingDigest(Some(Feed()), DateTime(2024, 1, 20, 12, 0, 0, 0), 7, Some(["transformer"]))
         == Ok([ToRecord(ArxivPaper("2401.00002v1", "Attention", "Transformers.", "A. Vaswani",
                                    DateTime(2024, 1, 18, 9, 0, 0, 0), "cs.CL"))])
  {
    var p1 := ArxivPaper("2312.00001v1", "Graphs", "Messages.", "A. Author", DateTime(2023, 12, 1, 0, 0, 0, 0), "cs.LG");
    var p2 := ArxivPaper("2401.00002v1", "Attention", "Transformers.", "A. Vaswani", DateTime(2024, 1, 18, 9, 0, 0, 0), "cs.CL");
    var p3 := ArxivPaper("2401.00003v1", "Codes", "Bounds.", "C. Coder", DateTime(2024, 1, 19, 8, 0, 0, 0), "cs.IT");
    var now := DateTime(2024, 1, 20, 12, 0, 0, 0);
    FeedParses();
    ExampleDates();
    WeekBeforeNoon();
    WeekWindow(p1, p2, p3);
    KeywordFound(p2);
    KeywordMissing(p3);
    OneOfThree(Feed(), now, ["transformer"], p1, p2, p3);
  }

  // ---------------------------------------------------------------------
  // A failed request.

  /** A failed request, or an empty feed, gives an empty list, and the run
      then fails without sending or saving. */
  lemma TransportFailure(now: DateTime, store: Store, dryRun: bool, sendEmail: bool, smtpOk: bool, dbOk: bool)
    requires Valid(now) && Cutoff(now, 7).Some?
    ensures GetWorkingDigest(None, now, 7, None) == Ok([])
    ensures GetWorkingDigest(Some([]), now, 7, None) == Ok([])
    ensures RunSimpleDigest(None, now, dryRun, sendEmail, smtpOk, dbOk, store) == RunOutcome(false, false, store)
    ensures RunSimpleDigest(Some([]), now, dryRun, sendEmail, smtpOk, dbOk, store) == RunOutcome(false, false, store)
  {
    DigestFetchFailure(now, 7, None);
    RunWithoutPapers(None, now, dryRun, sendEmail, smtpOk, dbOk, store);
    RunWithoutPapers(Some([]), now, dryRun, sendEmail, smtpOk, dbOk, store);
  }
}
