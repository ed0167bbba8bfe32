/** One arXiv Atom entry, as the feed parser hands it over, and the paper
    record built from it (`WorkingPaper`). */
module Papers {
  import opened Wrappers
  import opened Seqs
  import opened Strings
  import opened Whitespace
  import opened IsoDate

  /** A scalar entry value: missing, a string, or some other object, of
      which only its truth value matters. */
  datatype Field = Absent | Text(s: string) | Other(truthy: bool)

  /** One element of the `authors` or `tags` list: a dictionary with string
      values, a bare string, or anything else. */
  datatype Item = Record(fields: map<string, string>) | Plain(s: string) | Unrecognised

  /** A list-valued entry value: missing, iterable, or not iterable at all. */
  datatype Items = Missing | Iterable(items: seq<Item>) | NotIterable

  datatype RawEntry = RawEntry(
    id: Field,
    title: Field,
    summary: Field,
    authors: Items,
    published: Field,
    updated: Field,
    tags: Items,
    comment: Option<string>,
    doi: Option<string>)

  /** Why building a paper raised: the first offending value, in the order
      the constructor reads them. */
  datatype EntryError = BadId | BadTitle | BadSummary | BadAuthors | BadTags

  datatype Paper = Paper(
    id: string,
    title: string,
    summary: string,
    authors: seq<string>,
    published: Option<DateTime>,
    updated: Option<DateTime>,
    categories: seq<string>,
    primaryCategory: Option<string>,
    arxivUrl: string,
    pdfUrl: string,
    comment: string,
    doi: string)
  {
    /** The abstract is the summary under another name. */
    function Abstract(): string { summary }
  }

  /** The dictionary `to_dict` returns, dates in ISO form. */
  datatype PaperRecord = PaperRecord(
    id: string,
    title: string,
    abstractText: string,
    authors: seq<string>,
    published: Option<string>,
    updated: Option<string>,
    categories: seq<string>,
    primaryCategory: Option<string>,
    arxivUrl: string,
    pdfUrl: string,
    comment: string,
    doi: string)

  // ---------------------------------------------------------------------
  // Fields.

  /** `entry.get(key, '')` for a field read with string methods; `None`
      where the value is not a string and calling a string method raises. */
  function TextOf(f: Field): Option<string> {
    match f
    case Absent => Some("")
    case Text(s) => Some(s)
    case Other(_) => None
  }

  /** `_clean_text(entry.get(key, ''))`: a false value gives the empty
      string, a string is cleaned, anything else raises. */
  function CleanField(f: Field): (r: Option<string>)
    ensures r.Some? <==> !(f.Other? && f.truthy)
    ensures r.Some? ==> Normalized(r.value)
    ensures f.Text? ==> r == Some(CleanText(f.s))
  {
    match f
    case Absent => Some("")
    case Text(s) => Some(CleanText(s))
    case Other(truthy) => if truthy then None else Some("")
  }

  /** `_parse_date(entry.get(key, ''))`. A false value gives no date; a
      trailing `Z` becomes `+00:00`; anything that is not a parsable string
      is caught and gives no date. */
  function ParseFeedDate(f: Field): (r: Option<DateTime>)
    ensures r.Some? ==> f.Text? && f.s != [] && Valid(r.value)
  {
    match f
    case Text(s) =>
      if s == [] then None
      else if s[|s| - 1] == 'Z' then FromIsoFormat(s[..|s| - 1] + "+00:00")
      else FromIsoFormat(s)
    case _ => None
  }

  /** The arXiv identifier: the text after the last `/` of the entry id. */
  function IdOf(id: string): (r: string)
    ensures '/' !in r && |r| <= |id| && r == id[|id| - |r|..]
    ensures |r| == |id| || id[|id| - |r| - 1] == '/'
    ensures '/' !in id ==> r == id
  {
    LastSegment(id, '/')
  }

  /** An identifier ending in `/` gives the empty id, even though the entry
      has an identifier. */
  lemma TrailingSlashGivesEmptyId(s: string)
    ensures IdOf(s + "/") == ""
  {
    var t := s + "/";
    assert t[|t| - 1] == '/';
  }

  /** The PDF link: `/abs/` replaced by `/pdf/`, then `.pdf` appended. */
  function PdfUrl(id: string): (r: string)
    ensures |r| == |id| + 4 && r[|id|..] == ".pdf"
  {
    ReplaceAll(id, "/abs/", "/pdf/") + ".pdf"
  }

  /** An id without `/abs/` only gets the suffix. */
  lemma PdfUrlPlain(id: string)
    requires !Contains(id, "/abs/")
    ensures PdfUrl(id) == id + ".pdf"
  {
    ReplaceWithoutMatch(id, "/abs/", "/pdf/");
  }

  /** The author an item names: a dictionary's `name`, or a bare string. */
  function AuthorOf(x: Item): Option<string> {
    match x
    case Record(f) => if "name" in f then Some(f["name"]) else None
    case Plain(s) => Some(s)
    case Unrecognised => None
  }

  /** The category an item names: a dictionary's `term`. */
  function TermOf(x: Item): Option<string> {
    match x
    case Record(f) => if "term" in f then Some(f["term"]) else None
    case _ => None
  }

  /** The values of the present options, in order. */
  function Present(xs: seq<Option<string>>): (r: seq<string>)
    ensures |r| <= |xs|
    ensures forall v :: v in r <==> Some(v) in xs
    ensures (forall i :: 0 <= i < |xs| ==> xs[i].Some?) ==>
              |r| == |xs| && forall i :: 0 <= i < |xs| ==> r[i] == xs[i].value
  {
    if xs == [] then []
    else
      var rest := Present(xs[1..]);
      assert forall v :: Some(v) in xs <==> Some(v) == xs[0] || Some(v) in xs[1..];
      match xs[0]
      case Some(v) => [v] + rest
      case None => rest
  }

  /** Collecting is done item by item: the values of a concatenation are the
      values of each part, in order. */
  lemma {:induction false} PresentAppend(a: seq<Option<string>>, b: seq<Option<string>>)
    ensures Present(a + b) == Present(a) + Present(b)
    decreases |a|
  {
    if a == [] {
      assert a + b == b;
    } else {
      assert (a + b)[1..] == a[1..] + b;
      PresentAppend(a[1..], b);
    }
  }

  /** What the authors or tags loop collects with `pick`; `None` where the
      value cannot be iterated. */
  function Collect(items: Items, pick: Item -> Option<string>): (r: Option<seq<string>>)
    ensures r.None? <==> items.NotIterable?
    ensures items.Missing? ==> r == Some([])
    ensures items.Iterable? ==> |r.value| <= |items.items|
    ensures items.Iterable? ==> forall v :: v in r.value <==> Some(v) in Picks(items.items, pick)
  {
    match items
    case Missing => Some([])
    case Iterable(xs) => Some(Present(Picks(xs, pick)))
    case NotIterable => None
  }

  /** What `pick` makes of each item. */
  function Picks(xs: seq<Item>, pick: Item -> Option<string>): (r: seq<Option<string>>)
    ensures |r| == |xs| && forall i :: 0 <= i < |xs| ==> r[i] == pick(xs[i])
  {
    seq(|xs|, i requires 0 <= i < |xs| => pick(xs[i]))
  }

  // ---------------------------------------------------------------------
  // Building a paper.

  /** The invariants every paper built from an entry keeps. */
  predicate WellFormed(p: Paper) {
    && (p.published.Some? ==> Valid(p.published.value))
    && (p.updated.Some? ==> Valid(p.updated.value))
    && p.primaryCategory == (if p.categories == [] then None else Some(p.categories[0]))
  }

  /** The entry shapes the constructor accepts: a string id (or none), a
      title and summary that are strings or false, and iterable author and
      tag lists (or none). */
  predicate Buildable(e: RawEntry) {
    && !e.id.Other?
    && !(e.title.Other? && e.title.truthy)
    && !(e.summary.Other? && e.summary.truthy)
    && !e.authors.NotIterable?
    && !e.tags.NotIterable?
  }

  /** `WorkingPaper(entry)`: `Err` exactly where the constructor raises. */
  function Normalize(e: RawEntry): (r: Result<Paper, EntryError>)
    ensures r.Ok? <==> Buildable(e)
    ensures r.Ok? ==> WellFormed(r.value)
  {
    if e.id.Other? then Err(BadId)
    else
      var url := TextOf(e.id).value;
      match (CleanField(e.title), CleanField(e.summary), Collect(e.authors, AuthorOf), Collect(e.tags, TermOf))
      case (None, _, _, _) => Err(BadTitle)
      case (_, None, _, _) => Err(BadSummary)
      case (_, _, None, _) => Err(BadAuthors)
      case (_, _, _, None) => Err(BadTags)
      case (Some(title), Some(summary), Some(authors), Some(categories)) =>
        Ok(Paper(
          IdOf(url), title, summary, authors,
          ParseFeedDate(e.published), ParseFeedDate(e.updated),
          categories, if categories == [] then None else Some(categories[0]),
          url, PdfUrl(url),
          e.comment.GetOr(""), e.doi.GetOr("")))
  }

  /** What a built paper holds: the id after the last `/`, cleaned title
      and abstract, the entry id as the abstract link and its PDF link, the
      authors and categories the loops collect, and the comment and DOI with
      the empty string standing in for a missing one. */
  lemma NormalizeFields(e: RawEntry)
    requires Buildable(e)
    ensures var p := Normalize(e).value;
      && '/' !in p.id
      && Some(p.title) == CleanField(e.title) && Some(p.summary) == CleanField(e.summary)
      && Normalized(p.title) && Normalized(p.summary)
      && Some(p.arxivUrl) == TextOf(e.id)
      && p.id == IdOf(p.arxivUrl)
      && p.pdfUrl == PdfUrl(p.arxivUrl)
      && Some(p.authors) == Collect(e.authors, AuthorOf)
      && Some(p.categories) == Collect(e.tags, TermOf)
      && p.published == ParseFeedDate(e.published) && p.updated == ParseFeedDate(e.updated)
      && p.comment == e.comment.GetOr("") && p.doi == e.doi.GetOr("")
  {
  }

  /** An entry without an id gets the empty id and link, and the PDF link
      degenerates to `.pdf`. */
  lemma AbsentIdGivesEmpty(e: RawEntry)
    requires e.id.Absent? && Buildable(e)
    ensures Normalize(e).value.id == "" && Normalize(e).value.arxivUrl == ""
    ensures Normalize(e).value.pdfUrl == ".pdf"
  {
    NormalizeFields(e);
  }

  const ArxivAbs: string := "http://arxiv.org/abs/"

  /** The identifier of an arXiv abstract link is the text after `/abs/`. */
  lemma ArxivId(x: string)
    requires '/' !in x
    ensures IdOf(ArxivAbs + x) == x
  {
    var s := ArxivAbs + x;
    assert s[|s| - |x|..] == x;
    assert s[|s| - |x| - 1] == '/';
    LastSegmentUnique(s, '/', x);
  }

  /** The PDF link of an arXiv abstract link points at `/pdf/`. */
  lemma ArxivPdfUrl(x: string)
    requires !Contains(x, "/abs/")
    ensures PdfUrl(ArxivAbs + x) == "http://arxiv.org/pdf/" + x + ".pdf"
  {
    var host := "http://arxiv.org";
    var s := ArxivAbs + x;
    ArxivLinkParts(x);
    HostHasNoMarker(x);
    ReplaceSkipsPrefix(s, "/abs/", "/pdf/", 16);
    Halves(host, "/abs/" + x);
    MarkerReplaced(x);
    assert PdfUrl(s) == host + ("/pdf/" + x) + ".pdf";
  }

  /** The abstract link is the host, the marker and the id; its PDF form
      the host, `/pdf/` and the id. */
  lemma ArxivLinkParts(x: string)
    ensures ArxivAbs + x == "http://arxiv.org" + ("/abs/" + x)
    ensures "http://arxiv.org" + ("/pdf/" + x) + ".pdf" == "http://arxiv.org/pdf/" + x + ".pdf"
  {
    assert ArxivAbs == "http://arxiv.org" + "/abs/";
    assert "http://arxiv.org/pdf/" == "http://arxiv.org" + "/pdf/";
  }

  /** `/abs/` does not start inside the host part of the link. */
  lemma HostHasNoMarker(x: string)
    ensures forall i :: 0 <= i < 16 ==> !OccursAt(ArxivAbs + x, "/abs/", i)
  {
    var s := ArxivAbs + x;
    forall i | 0 <= i < 16 ensures !OccursAt(s, "/abs/", i) {
      assert s[i] == ArxivAbs[i] && s[i + 1] == ArxivAbs[i + 1] && s[i + 2] == ArxivAbs[i + 2];
    }
  }

  /** A leading `/abs/` is replaced and the rest, free of it, is copied. */
  lemma MarkerReplaced(x: string)
    requires !Contains(x, "/abs/")
    ensures ReplaceAll("/abs/" + x, "/abs/", "/pdf/") == "/pdf/" + x
  {
    ReplaceWithoutMatch(x, "/abs/", "/pdf/");
    assert ("/abs/" + x)[5..] == x;
  }

  // ---------------------------------------------------------------------
  // The dictionary form.

  function IsoOf(d: Option<DateTime>): Option<string>
    requires d.Some? ==> Valid(d.value)
  {
    match d
    case Some(t) => Some(IsoFormat(t))
    case None => None
  }

  /** `to_dict`: every field under its own key, the summary under
      `abstract`, and each date as its ISO string (`None` stays `None`). */
  function ToRecord(p: Paper): (r: PaperRecord)
    requires WellFormed(p)
    ensures r.id == p.id && r.title == p.title && r.abstractText == p.summary
    ensures r.authors == p.authors && r.categories == p.categories
    ensures r.primaryCategory == p.primaryCategory && r.comment == p.comment && r.doi == p.doi
    ensures r.arxivUrl == p.arxivUrl && r.pdfUrl == p.pdfUrl
    ensures r.published.Some? <==> p.published.Some?
    ensures r.published.Some? ==>
      |r.published.value| > 10 && r.published.value[..10] == DateString(p.published.value) && r.published.value[10] == 'T'
    ensures r.updated.Some? <==> p.updated.Some?
    ensures r.updated.Some? ==>
      |r.updated.value| > 10 && r.updated.value[..10] == DateString(p.updated.value) && r.updated.value[10] == 'T'
  {
    PaperRecord(p.id, p.title, p.Abstract(), p.authors,
                IsoOf(p.published), IsoOf(p.updated),
                p.categories, p.primaryCategory,
                p.arxivUrl, p.pdfUrl, p.comment, p.doi)
  }

  /** Reading a dictionary back: the dates go through `fromisoformat`. */
  function FromRecord(r: PaperRecord): (p: Option<Paper>)
    ensures p.Some? ==> p.value.authors == r.authors && p.value.categories == r.categories
  {
    var published := if r.published.Some? then FromIsoFormat(r.published.value) else None;
    var updated := if r.updated.Some? then FromIsoFormat(r.updated.value) else None;
    if (r.published.Some? && published.None?) || (r.updated.Some? && updated.None?) then None
    else Some(Paper(r.id, r.title, r.abstractText, r.authors, published, updated,
                    r.categories, r.primaryCategory, r.arxivUrl, r.pdfUrl, r.comment, r.doi))
  }

  /** The dictionary keeps everything: reading it back gives the paper. */
  lemma RecordRoundTrip(p: Paper)
    requires WellFormed(p)
    ensures FromRecord(ToRecord(p)) == Some(p)
  {
    if p.published.Some? {
      FromIsoFormatRoundTrip(p.published.value);
    }
    if p.updated.Some? {
      FromIsoFormatRoundTrip(p.updated.value);
    }
  }

  /** Distinct papers give distinct dictionaries. */
  lemma ToRecordInjective(p: Paper, q: Paper)
    requires WellFormed(p) && WellFormed(q) && ToRecord(p) == ToRecord(q)
    ensures p == q
  {
    RecordRoundTrip(p);
    RecordRoundTrip(q);
  }

  // ---------------------------------------------------------------------
  // Dates as the feed writes them.

  /** A date the feed writes with `isoformat` is read back unchanged. */
  lemma ParseFeedDateIso(t: DateTime)
    requires Valid(t)
    ensures ParseFeedDate(Text(IsoFormat(t))) == Some(t)
  {
    FromIsoFormatRoundTrip(t);
    TimeStringParses(t);
    var s := IsoFormat(t);
    assert s[|s| - 1] != 'Z' by {
      var ts := TimeString(t);
      assert s[|s| - 1] == ts[|ts| - 1];
      assert s[|s| - 1] in ts;
    }
  }

  /** Atom's UTC form, a trailing `Z`, gives the same wall-clock time. */
  lemma ParseFeedDateZulu(t: DateTime)
    requires Valid(t)
    ensures ParseFeedDate(Text(IsoFormat(t) + "Z")) == Some(t)
  {
    var x := IsoFormat(t);
    ZuluRewrite(x);
    FromIsoFormatDropsOffset(t, '+', 0, 0);
    UtcOffset(x);
  }

  lemma ZuluRewrite(x: string)
    ensures ParseFeedDate(Text(x + "Z")) == FromIsoFormat(x + "+00:00")
  {
    var s := x + "Z";
    assert s[..|s| - 1] == x;
  }

  lemma UtcOffset(x: string)
    ensures x + ['+'] + Pad(0, 2) + ":" + Pad(0, 2) == x + "+00:00"
  {
    assert Pad(0, 2) == "00";
  }
}
