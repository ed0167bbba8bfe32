# Research digest agent: fetch, normalise, filter

A Dafny model of the paper pipeline of a small research-digest agent. The agent:

- asks the arXiv API for recent papers;
- turns every Atom entry into a paper record (`WorkingPaper`);
- keeps the papers published within the last week;
- keeps those whose title or abstract mentions a topic keyword;
- wraps the result in a digest, mails it and records the run in a table keyed by date.

The model covers the pure part of that pipeline. The network request, the mail transport and the database are parameters.

Modules, leaves first:

- `Wrappers`: `Option` and `Result`.
- `Seqs`: an order-preserving `Filter` with its subsequence, membership, count, idempotence and monotonicity lemmas.
- `Strings`:
  - substring search;
  - the last `/`-segment, which is what Python's `split('/')[-1]` returns;
  - `str.replace`;
  - ASCII lower-casing;
  - `str.join`.
- `Whitespace`: `_clean_text`, which is `re.sub(r'\s+', ' ', text.strip())`. It is proved equal to the reference definition `" ".join(text.split())`, normalising and idempotent.
- `IsoDate`:
  - naive datetimes;
  - `isoformat()` and a restricted `fromisoformat`, with the round trip and the dropped offset proved;
  - the instant on which datetimes are compared and shifted by `timedelta(days=…)`, including Python's overflow.
- `Papers`:
  - the typed raw entry and `WorkingPaper._parse_entry`, where `Err` marks exactly where the constructor raises;
  - `to_dict`, with a read-back that recovers the paper.
- `Fetchers`:
  - the entry loop of `fetch_working_arxiv_papers`, as a method with its loop invariant and as the function it computes;
  - `filter_papers_by_keywords`;
  - `get_working_digest`.
- `DigestAgent` (main.py):
  - `generate_simple_digest`;
  - the text rules of `create_simple_email_content`;
  - `save_digest_record` as an upsert into a map;
  - `run_simple_digest`.
- `Scenarios`: worked examples.
  - A `…Z` date keeps its wall-clock time.
  - The arXiv abstract link `http://arxiv.org/abs/2401.12345v1` gives the id `2401.12345v1` and the PDF link `…/pdf/2401.12345v1.pdf`.
  - A three-entry feed yields one digest paper. The feed holds one paper older than the week, one about transformers and one off topic.
  - A failed request gives an empty digest and a failed run.

Modelling choices:

- The feed is `Option<seq<RawEntry>>`. `None` stands for a failed request: an exception from `requests.get` (a timeout, a connection error) or from `raise_for_status`, which the fetcher catches. `feedparser.parse` does not raise on a malformed body; it returns the entries it could read, possibly none, so such a body arrives as `Some` of those entries.
- A raw entry's scalar values are `Absent`, a string, or some other object of which only the truth value matters. Its list values are missing, iterable or not iterable. This lets the model say exactly which entries make the constructor raise, and so which ones the loop skips.
- `datetime.now()` is one parameter `now`, used for every call.
- `now - timedelta(days=7)` is computed before the `try` of the fetcher. When it overflows, the error reaches `run_simple_digest`'s catch-all, and the run returns `false`. The model returns `Err(CutoffOverflow)` for this.
- Datetimes are compared through `Instant`, the number of microseconds since 0001-01-01. `InstantOrder` proves that this is the field-by-field order.

## Notes on the code

- The constructor of `WorkingPaper` raises when:
  - the entry id is not a string;
  - the title or summary is a truthy non-string;
  - the author or tag list cannot be iterated.

  The entry loop then skips the entry (`Normalize` returns `Err`, and `Parsed` drops it).
- An identifier that ends in `/` gives the empty id (`Papers.TrailingSlashGivesEmptyId`).
- Mail failures are caught inside `send_simple_digest`. The run sees them as `sent_successfully = False`.
- A database failure is fatal only at start-up. A failure while saving a record is logged and swallowed. The model gives this as the `dbOk` parameter, which leaves the table unchanged when false.

## Model

| member | source | states |
|---|---|---|
| Strings.LastSegment | fetchers.py:30 | the id part is free of `/`, is a suffix of the identifier, and is either the whole identifier or preceded by a `/` |
| Strings.LastSegmentUnique | fetchers.py:30 | those three properties determine the last segment: any string with them is it |
| Strings.Contains | fetchers.py:177 | `needle in hay` holds exactly when the needle occurs at some position |
| Strings.LowerFacts | fetchers.py:174 | lower-casing distributes over the `f"{title} {abstract}"` concatenation and is idempotent |
| Strings.Lower | fetchers.py:174-177 | lower-casing keeps the length and maps each character on its own |
| Strings.ReplaceWithoutMatch | fetchers.py:59 | `replace('/abs/', '/pdf/')` leaves an identifier without `/abs/` unchanged |
| Strings.ReplaceSkipsPrefix | fetchers.py:59 | replacement copies verbatim any prefix in which no occurrence starts |
| Strings.ReplaceAll | fetchers.py:59 | replacing `/abs/` by the equally long `/pdf/` keeps the length of the identifier |
| Strings.JoinContainsParts | main.py:133 | every joined author occurs in the `", ".join` result |
| Whitespace.TrimLeft | fetchers.py:70 | `lstrip` removes exactly a leading run of whitespace and leaves a non-whitespace first character |
| Whitespace.TrimRight | fetchers.py:70 | `rstrip` removes exactly a trailing run of whitespace and leaves a non-whitespace last character |
| Whitespace.Strip | fetchers.py:70 | `strip` removes a run of whitespace at each end and nothing else: the result is a slice of the input with only whitespace before and after it; it is empty exactly for all-whitespace text and otherwise neither starts nor ends with whitespace |
| Whitespace.StripEmpty | fetchers.py:70 | `lstrip` then `rstrip` gives `""` exactly when the text is all whitespace |
| Whitespace.CollapseStripped | fetchers.py:70 | on stripped text, `re.sub(r'\s+', ' ', ...)` is the space-join of the words |
| Whitespace.Words | fetchers.py:70 | the reference `text.split()` yields non-empty, whitespace-free words |
| Whitespace.CleanText | fetchers.py:65-70 | `_clean_text` gives `""` for empty input. Its result is normalised: no whitespace at either end, every whitespace character a plain space, never two in a row. It equals `" ".join(text.split())` |
| Whitespace.CleanIsJoinOfWords | fetchers.py:67-70 | `re.sub(r'\s+', ' ', text.strip())` agrees with the reference definition `" ".join(text.split())` on every input |
| Whitespace.JoinOfWordsNormalized | fetchers.py:70 | joining non-empty whitespace-free words with single spaces gives a normalised string |
| Whitespace.WordsOfJoin | fetchers.py:70 | splitting a space-join of words gives the same words back |
| Whitespace.CleanTextIdempotent | fetchers.py:65-70 | cleaning cleaned text changes nothing |
| Whitespace.CleanTextFixedPoints | fetchers.py:65-70 | a string is left unchanged by cleaning exactly when it is normalised |
| Whitespace.CleanTextEmpty | fetchers.py:67-70 | cleaning gives `""` exactly for empty or all-whitespace text |
| IsoDate.Pad | main.py:96 | a zero-padded field has exactly the requested width and only digits |
| IsoDate.PadValue | main.py:96 | reading a zero-padded field back gives the number |
| IsoDate.DateString | main.py:209 | the `%Y-%m-%d` key has ten characters, dashes at positions 4 and 7, and its digit groups read back as the year, month and day |
| IsoDate.IsoFormatClock | fetchers.py:91 | characters 11 to 18 of `isoformat()` are the `HH:MM:SS` clock part |
| IsoDate.IsoFormat | fetchers.py:91 | `isoformat()` starts with the `YYYY-MM-DD` date and a `T` |
| IsoDate.FromIsoFormat | fetchers.py:79 | `fromisoformat` yields only datetimes Python can hold; `None` where it raises |
| IsoDate.ParseOffset | fetchers.py:78-79 | an accepted UTC offset is less than a whole day |
| IsoDate.FromIsoFormatRoundTrip | fetchers.py:91 | `fromisoformat(t.isoformat()) == t` for every datetime |
| IsoDate.FromIsoFormatDropsOffset | fetchers.py:79 | with a valid `+HH:MM`/`-HH:MM` offset, the wall-clock fields are kept and the offset is not applied (`replace(tzinfo=None)`) |
| IsoDate.Cutoff | fetchers.py:120 | the cutoff is `now` minus the days, on the instant scale; it is `None` exactly when Python's `timedelta` or result range overflows |
| IsoDate.InstantOrder | fetchers.py:148 | comparing instants is comparing datetimes field by field, and equal instants are equal datetimes |
| IsoDate.InstantMonotone | fetchers.py:148 | an earlier datetime has a smaller instant |
| Papers.CleanField | fetchers.py:31-32 | title and summary are cleaned strings; a missing or false value gives `""`; a truthy non-string raises |
| Papers.ParseFeedDate | fetchers.py:72-82 | a parsed date comes only from a non-empty string and is a valid datetime; everything else gives `None` rather than raising |
| Papers.ParseFeedDateZulu | fetchers.py:77-79 | a date written as `isoformat()` plus `Z` is read back with the same wall-clock fields |
| Papers.ParseFeedDateIso | fetchers.py:72-79 | a date written by `isoformat()` is read back unchanged |
| Papers.IdOf | fetchers.py:30 | the id has no `/`, is a suffix of the identifier, and is either the whole identifier or preceded by a `/`, so it is the text after the last `/` |
| Papers.TrailingSlashGivesEmptyId | fetchers.py:30 | an identifier ending in `/` gives the empty id |
| Papers.ArxivId | fetchers.py:30 | the id of `http://arxiv.org/abs/X` is `X` |
| Papers.PdfUrl | fetchers.py:59 | the PDF link is four characters longer than the identifier and ends in `.pdf` |
| Papers.PdfUrlPlain | fetchers.py:59 | without `/abs/` the PDF link is the identifier followed by `.pdf` |
| Papers.ArxivPdfUrl | fetchers.py:59 | `http://arxiv.org/abs/X` gives `http://arxiv.org/pdf/X.pdf` |
| Papers.Present | fetchers.py:36-42 | the collected values are exactly those of the recognised items, never more than the items; when all are recognised, all are kept, position by position (the order in general is stated by `Papers.PresentAppend`) |
| Papers.PresentAppend | fetchers.py:38-42 | collecting works item by item: the values for a concatenation are the values for each part, in order |
| Papers.Collect | fetchers.py:36-53 | a missing list gives `[]`; a non-iterable one raises; otherwise at most one value per item, exactly from the items that name one |
| Papers.Normalize | fetchers.py:25-63 | the constructor raises exactly for a non-string id, a truthy non-string title or summary, or a non-iterable author or tag list; a built paper has valid dates and its first category as primary category |
| Papers.NormalizeFields | fetchers.py:30-63 | the fields of a built paper: the id after the last `/`; the cleaned title and abstract; the identifier as the abstract link, and its PDF link; the collected authors and categories; the parsed dates; comment and DOI, with `""` for a missing one |
| Papers.AbsentIdGivesEmpty | fetchers.py:58-59 | without an identifier the id and link are `""` and the PDF link is `.pdf` |
| Papers.FromRecord | fetchers.py:84-99 | reading a dictionary back keeps its authors and categories |
| Papers.ToRecord | fetchers.py:84-99 | `to_dict` keeps every field under its key and the summary under `abstract`; a date is present exactly when the paper has one, and then starts with its `YYYY-MM-DD` date and a `T` |
| Papers.RecordRoundTrip | fetchers.py:84-99 | `to_dict` loses nothing: reading the dictionary back, with the dates through `fromisoformat`, gives the paper |
| Papers.ToRecordInjective | fetchers.py:84-99 | distinct papers give distinct dictionaries |
| Seqs.Filter | fetchers.py:171-178 | the kept items are a subsequence of the input, all satisfy the test, every satisfying item is kept, and their number is the number of satisfying items |
| Seqs.FilterIdempotent | fetchers.py:171-178 | filtering twice with the same test is filtering once |
| Seqs.FilterMonotone | fetchers.py:148 | a weaker test keeps a supersequence |
| Fetchers.Parsed | fetchers.py:143-156 | the papers of the accepted entries are at most one per entry, and each is well formed |
| Fetchers.ParsedMembers | fetchers.py:143-156 | a paper is among those built exactly when some feed entry builds it |
| Fetchers.ParsedAllAccepted | fetchers.py:143-149 | when no entry raises, every entry gives its paper, in feed order |
| Fetchers.ParsedSnoc | fetchers.py:143-149 | one more accepted entry appends its paper at the end |
| Fetchers.FetchRecent | fetchers.py:119-163 | an error exactly when the cutoff overflows; an empty list when the request failed; otherwise an order-preserving subsequence of the built papers, each undated or not before the cutoff, as many as the built papers that pass the test, so exactly those |
| Fetchers.FetchWorkingArxivPapers | fetchers.py:119-163 | the loop returns the accepted, recent papers in feed order; an empty list when the request failed; an error when the cutoff overflows |
| Fetchers.LoopStep | fetchers.py:143-156 | one loop step appends the entry's paper exactly when it is built and dated on or after the cutoff or undated, and appends nothing for an entry that raises |
| Fetchers.RecentStep | fetchers.py:148-152 | one more paper is appended exactly when it is dated on or after the cutoff or undated |
| Fetchers.FetchRecentMembers | fetchers.py:143-152 | a paper is fetched exactly when some entry builds it and it is undated or not before the cutoff |
| Fetchers.UndatedKept | fetchers.py:150-152 | an entry that builds and has no parsable publication date is kept whatever the window |
| Fetchers.RecentIsNotBefore | fetchers.py:148 | the instant test is Python's `published >= cutoff_date`: the paper is recent exactly when it is not before the cutoff |
| Fetchers.WiderWindowKeepsMore | fetchers.py:120 | a longer window keeps every paper a shorter one keeps, in the same order |
| Fetchers.AnyKeyword | fetchers.py:177 | `any(...)` holds exactly when some lower-cased keyword occurs in the text |
| Fetchers.SearchText | fetchers.py:174 | the searched text is the lower-cased title, a space and the lower-cased abstract |
| Fetchers.FilterPapersByKeywords | fetchers.py:165-181 | the result is an order-preserving subsequence, holding exactly the papers whose lower-cased title and abstract contain a lower-cased keyword, each as often as it occurs among the input papers that match |
| Fetchers.NoKeywordsNoPapers | fetchers.py:177 | an empty keyword list keeps no paper |
| Fetchers.EmptyKeywordKeepsAll | fetchers.py:177 | the empty keyword keeps every paper |
| Fetchers.KeywordsMonotone | fetchers.py:173-178 | more keywords keep a supersequence of the papers |
| Fetchers.KeywordCaseIgnored | fetchers.py:177 | lower-casing the keywords first does not change the result |
| Fetchers.KeywordFilterIdempotent | fetchers.py:165-181 | filtering the filtered papers again changes nothing |
| Fetchers.Records | fetchers.py:219 | one dictionary per paper, in order: the i-th is the i-th paper's `to_dict` |
| Fetchers.GetWorkingDigest | fetchers.py:183-222 | the digest list fails exactly when the cutoff overflows, and holds at most one dictionary per fetched paper, so at most one per feed entry |
| Fetchers.DigestDefaults | fetchers.py:197-202 | leaving the keywords out is passing the default list |
| Fetchers.DigestNoKeywords | fetchers.py:216 | an explicit empty keyword list is not replaced by the defaults and gives an empty digest |
| Fetchers.DigestFetchFailure | fetchers.py:211-213 | a failed request gives an empty digest |
| Fetchers.DigestIsFilteredRecords | fetchers.py:211-219 | the digest is the dictionaries of the keyword-matching recent papers, in order; the early return on an empty fetch agrees with this |
| DigestAgent.TimestampString | main.py:96 | `generated_at` has 19 characters: the `YYYY-MM-DD` date, a space, and the same `HH:MM:SS` clock as `isoformat()` |
| DigestAgent.GenerateSimpleDigest | main.py:76-100 | no digest exactly when the digest list is empty. Otherwise: it holds that list; `papers_count` is its length; `date` is `now.isoformat()`; `generated_at` is the `%Y-%m-%d %H:%M:%S` form; an overflow propagates |
| DigestAgent.DigestDay | main.py:93-96 | both digest timestamps start with the day the record is saved under |
| DigestAgent.LongDate | main.py:105 | the `%B %d, %Y` heading starts with the month's name, and its day and year digits read back as the day and year |
| DigestAgent.AuthorLine | main.py:133-135 | the author line joins all authors when there are at most three, else the first three followed by ` et al.` |
| DigestAgent.AuthorLineNamesFirstAuthors | main.py:133 | each of the first three authors appears on the line |
| DigestAgent.AuthorLineFirstThree | main.py:133-135 | the line depends only on the first three authors and on whether there are more |
| DigestAgent.AbstractShown | main.py:144 | an abstract of at most 300 characters is shown whole; a longer one as its first 300 characters and `...` |
| DigestAgent.AbstractShownIdempotent | main.py:144 | the shown abstract has at most 303 characters and shows as itself |
| DigestAgent.DateShown | main.py:141 | a missing or empty date shows as `Unknown`, otherwise as its first ten characters, a prefix of it |
| DigestAgent.DateShownIso | main.py:141 | an ISO timestamp shows as its `YYYY-MM-DD` date |
| DigestAgent.EmailContent | main.py:102-150 | the heading date is the long date; the count is the number of papers; one block per digest paper, numbered from 1 in digest order, with that paper's title, author line, shown date, shown abstract and both links |
| DigestAgent.SaveDigestRecord | main.py:198-219 | the row of today's date is inserted or replaced with the digest's count, papers and send flag; other dates are untouched; a database failure leaves the table as it was |
| DigestAgent.SaveSameDayReplaces | main.py:204-213 | saving twice on one day keeps only the second row |
| DigestAgent.SaveDifferentDaysCommute | main.py:204-213 | saves on different days do not interfere |
| DigestAgent.RunSimpleDigest | main.py:221-269 | the run succeeds exactly when a digest was produced; it tries to send exactly when it succeeds, is not a dry run and email is on; without success, in a dry run or on a database failure the table is unchanged |
| DigestAgent.RunWithoutPapers | main.py:229-233 | without papers the run fails, sends nothing and saves nothing |
| DigestAgent.DryRunTouchesNothing | main.py:246-248 | a dry run neither sends nor saves |
| DigestAgent.RunSavesRow | main.py:250-259 | a real run with a digest succeeds and saves today's row with the digest's count and papers; the send flag is whether the mail went out; other days are kept |
| DigestAgent.NoEmailSavesUnsent | main.py:251-259 | with email off, the row is still saved, marked as not sent |
| DigestAgent.RunCutoffOverflow | main.py:267-269 | an overflowing cutoff is caught by the run: it fails and changes nothing |
| Scenarios.ZuluDateKeepsWallClock | fetchers.py:77-79 | `2024-01-15T10:30:00Z` is read as 2024-01-15 10:30:00 |
| Scenarios.PdfLinkOfAbstractLink | fetchers.py:59 | `http://arxiv.org/abs/2401.12345v1` gives the PDF link `http://arxiv.org/pdf/2401.12345v1.pdf` and the id `2401.12345v1` |
| Scenarios.BuildsArxivPaper | fetchers.py:25-63 | a clean arXiv entry with one author, one category and a `Z` date builds the expected paper, field by field |
| Scenarios.TextsKept | fetchers.py:31-32 | a title and abstract already in normal form come out of the constructor unchanged |
| Scenarios.ParsedThree | fetchers.py:143-149 | three accepted entries give their three papers in order |
| Scenarios.OneOfThree | fetchers.py:211-219 | of an old paper, an on-topic recent one and an off-topic recent one, the digest holds exactly the on-topic one |
| Scenarios.DigestOfOne | fetchers.py:216-219 | when the keywords leave a single recent paper, the digest is exactly its dictionary |
| Scenarios.WeekWindow | fetchers.py:148 | at noon on 20 January a paper of 1 December is too old and papers of 18 and 19 January are kept |
| Scenarios.BoundaryIsInclusive | fetchers.py:148 | a paper dated exactly at the cutoff is kept |
| Scenarios.KeywordFound | fetchers.py:174-177 | `transformer` matches a paper titled `Attention` whose abstract is `Transformers.`: the abstract is searched too, whatever the case |
| Scenarios.KeywordMissing | fetchers.py:174-177 | `transformer` does not match a paper whose text has no `t` |
| Scenarios.FeedParses | fetchers.py:143-149 | the three example entries build their three papers |
| Scenarios.OnlyTheTransformerPaper | fetchers.py:183-222 | for the three-entry feed at noon on 20 January with the keyword `transformer`, the digest is exactly the record of the 18 January transformer paper |
| Scenarios.TransportFailure | main.py:229-233 | a failed request or an empty feed gives an empty list, and the run then fails without sending or saving |

## Left out

- The HTTP request, its status check and feedparser's Atom parsing (fetchers.py:124-140). The feed arrives as `Option<seq<RawEntry>>`, with `None` for any failure the fetcher catches.
- The `query` and `max_results` arguments. They only shape the request.
- SMTP sending (`send_simple_digest`, email_sender.py). Whether the mail goes out is the `smtpOk` parameter.
- SQLite: the connection, table creation at start-up (which is fatal on failure) and JSON serialisation of `papers_json`. The table is a map from date to row, and a failure while saving is the `dbOk` parameter.
- Logging, the HTML and CSS markup of the email, the mail subject line and the Windows console code-page call.
- `main()`, its argument parsing and exit codes, and `test_configuration`, which are command-line glue. config.py holds environment-read constants only and is not part of this model.
- Values of a raw entry's `authors`/`tags` dictionaries that are not strings. Dictionary values are modelled as strings.
- Values of `arxiv_comment` and `arxiv_doi` that are not strings. Those are modelled as optional strings, read with `""` as the default.
- `datetime.now()` called several times: the model uses one `now` for all of them.
- IsoDate.FromIsoFormat: covers the grammar `YYYY-MM-DD[<any char>HH[:MM[:SS[.fff|.ffffff]]][(+|-)HH:MM[:SS]]]`. Other forms Python accepts give `None`, including compact forms, week dates, fractional offsets and `Z` inside the string. The feed's own `Z` is rewritten first, as in the code.
- Strings.Lower: lower-cases ASCII letters only. Python's `str.lower` also folds other scripts.
- DigestAgent.TimestampString, IsoDate.DateString (as the `strftime('%Y-%m-%d')` key of main.py:209) and DigestAgent.LongDate (the `%Y` of main.py:105): the year is written with four digits, as `isoformat` does. C's `%Y` writes years below 1000 without padding on some platforms.
- DigestAgent.LongDate: `%B` is taken as the English month name.
- Python's `str.split` and `str.replace` are modelled only for the uses here: the last segment after `/`, and replacing `/abs/`.
