/** The digest agent: the digest built from the paper list, the text rules
    of the email body, the record store and the run that ties them
    together (`SimpleDigestAgent`). */
module DigestAgent {
  import opened Wrappers
  import opened Strings
  import opened IsoDate
  import opened Papers
  import opened Fetchers

  /** The window the agent asks for. */
  const DigestDays: int := 7

  /** The digest dictionary. */
  datatype Digest = Digest(date: string, papersCount: nat, papers: seq<PaperRecord>, generatedAt: string)

  /** `now.strftime('%Y-%m-%d %H:%M:%S')`. */
  function TimestampString(t: DateTime): (s: string)
    requires Valid(t)
    ensures |s| == 19 && s[..10] == DateString(t)
    ensures s[10] == ' ' && s[11..] == IsoFormat(t)[11..19]
  {
    var clock := Pad(t.hour, 2) + ":" + Pad(t.minute, 2) + ":" + Pad(t.second, 2);
    TimeStringClock(t);
    IsoFormatClock(t);
    var s := DateString(t) + " " + clock;
    assert s[11..] == clock;
    s
  }

  /** `generate_simple_digest`: the papers of `get_working_digest` with the
      agent's window and default keywords; no digest when there are none.
      An overflowing cutoff raises through it. */
  function GenerateSimpleDigest(feed: Option<seq<RawEntry>>, now: DateTime): (r: Result<Option<Digest>, FetchError>)
    requires Valid(now)
    ensures r.Err? <==> GetWorkingDigest(feed, now, DigestDays, None).Err?
    ensures r.Ok? ==> (r.value.None? <==> GetWorkingDigest(feed, now, DigestDays, None).value == [])
    ensures r.Ok? && r.value.Some? ==>
      var d := r.value.value;
      && d.papers == GetWorkingDigest(feed, now, DigestDays, None).value
      && d.papersCount == |d.papers| > 0
      && d.date == IsoFormat(now)
      && d.generatedAt == TimestampString(now)
  {
    match GetWorkingDigest(feed, now, DigestDays, None)
    case Err(e) => Err(e)
    case Ok(papers) =>
      if papers == [] then Ok(None)
      else Ok(Some(Digest(IsoFormat(now), |papers|, papers, TimestampString(now))))
  }

  /** Both timestamps of a digest start with the day the record is saved
      under. */
  lemma DigestDay(feed: Option<seq<RawEntry>>, now: DateTime)
    requires Valid(now)
    requires GenerateSimpleDigest(feed, now).Ok? && GenerateSimpleDigest(feed, now).value.Some?
    ensures var d := GenerateSimpleDigest(feed, now).value.value;
      |d.date| >= 10 && |d.generatedAt| >= 10 &&
      d.date[..10] == d.generatedAt[..10] == DateString(now)
  {
    var d := GenerateSimpleDigest(feed, now).value.value;
    assert d.date == IsoFormat(now);
    assert d.generatedAt == TimestampString(now);
  }

  // ---------------------------------------------------------------------
  // The email body.

  const MonthNames: seq<string> := [
    "January", "February", "March", "April", "May", "June",
    "July", "August", "September", "October", "November", "December"]

  /** `now.strftime('%B %d, %Y')` in the English locale. */
  function LongDate(t: DateTime): (s: string)
    requires Valid(t)
    ensures var name := MonthNames[t.month - 1];
      && |s| == |name| + 9 && s[..|name|] == name
      && AllDigits(s[|name| + 1..|name| + 3]) && DigitsValue(s[|name| + 1..|name| + 3]) == t.day
      && AllDigits(s[|name| + 5..]) && DigitsValue(s[|name| + 5..]) == t.year
  {
    var name, day, year := MonthNames[t.month - 1], Pad(t.day, 2), Pad(t.year, 4);
    PadValue(t.day, 2);
    PadValue(t.year, 4);
    LongDatePieces(name, day, year);
    name + " " + day + ", " + year
  }

  /** Where the pieces of a `Month DD, YYYY` string sit. */
  lemma LongDatePieces(name: string, day: string, year: string)
    requires |day| == 2 && |year| == 4
    ensures var s := name + " " + day + ", " + year;
      |s| == |name| + 9 && s[..|name|] == name && s[|name| + 1..|name| + 3] == day && s[|name| + 5..] == year
  {
    var s := name + " " + day + ", " + year;
    assert s[..|name|] == name;
    assert s[|name| + 1..|name| + 3] == day;
    assert s[|name| + 5..] == year;
  }

  /** The author line: the first three authors joined by `", "`, and
      `" et al."` when there are more. */
  function AuthorLine(authors: seq<string>): (s: string)
    ensures |authors| <= 3 ==> s == JoinWith(authors, ", ")
    ensures |authors| > 3 ==> s == JoinWith(authors[..3], ", ") + " et al."
  {
    var shown := if |authors| <= 3 then authors else authors[..3];
    JoinWith(shown, ", ") + (if |authors| > 3 then " et al." else "")
  }

  /** Each of the first three authors is named on the line. */
  lemma AuthorLineNamesFirstAuthors(authors: seq<string>, i: nat)
    requires i < |authors| && i < 3
    ensures Contains(AuthorLine(authors), authors[i])
  {
    if |authors| <= 3 {
      JoinContainsParts(authors, ", ", i);
    } else {
      JoinContainsParts(authors[..3], ", ", i);
      ContainsInConcat(JoinWith(authors[..3], ", "), " et al.", authors[i]);
    }
  }

  /** The line depends only on the first three authors and on whether there
      are more. */
  lemma AuthorLineFirstThree(a: seq<string>, b: seq<string>)
    requires (|a| > 3) == (|b| > 3)
    requires if |a| > 3 then a[..3] == b[..3] else a == b
    ensures AuthorLine(a) == AuthorLine(b)
  {
  }

  /** The abstract as shown: its first 300 characters, then `"..."` when it
      was longer. */
  function AbstractShown(a: string): (s: string)
    ensures |a| <= 300 ==> s == a
    ensures |a| > 300 ==> |s| == 303 && s[..300] == a[..300] && s[300..] == "..."
  {
    (if |a| <= 300 then a else a[..300]) + (if |a| > 300 then "..." else "")
  }

  /** The date as shown: the first ten characters of the ISO date, or
      `Unknown` when there is none or it is empty. */
  function DateShown(published: Option<string>): (s: string)
    ensures published.None? || published.value == [] ==> s == "Unknown"
    ensures published.Some? && published.value != [] ==>
      |s| == (if |published.value| < 10 then |published.value| else 10) && s <= published.value
  {
    match published
    case None => "Unknown"
    case Some(p) => if p == [] then "Unknown" else if |p| <= 10 then p else p[..10]
  }

  /** Showing a shown abstract changes nothing: a truncated one already has
      the 303 characters that truncate to itself. */
  lemma AbstractShownIdempotent(a: string)
    ensures AbstractShown(AbstractShown(a)) == AbstractShown(a)
    ensures |AbstractShown(a)| <= 303
  {
    if |a| > 300 {
      var s := AbstractShown(a);
      assert s == s[..300] + s[300..];
    }
  }

  /** A date written by `isoformat` shows as `YYYY-MM-DD`. */
  lemma DateShownIso(t: DateTime)
    requires Valid(t)
    ensures DateShown(Some(IsoFormat(t))) == DateString(t)
  {
  }

  /** What one paper contributes to the email. */
  datatype PaperBlock = PaperBlock(
    position: nat, title: string, authors: string, date: string,
    abstractText: string, arxivUrl: string, pdfUrl: string)

  /** The email without its markup: the long date, the paper count and one
      block per paper, numbered from 1. */
  datatype Email = Email(dateLine: string, count: nat, blocks: seq<PaperBlock>)

  function Block(position: nat, p: PaperRecord): PaperBlock {
    PaperBlock(position, p.title, AuthorLine(p.authors), DateShown(p.published),
               AbstractShown(p.abstractText), p.arxivUrl, p.pdfUrl)
  }

  /** `create_simple_email_content`. */
  function EmailContent(d: Digest, now: DateTime): (e: Email)
    requires Valid(now)
    ensures e.count == |e.blocks| == |d.papers|
    ensures e.dateLine == LongDate(now)
    ensures forall i :: 0 <= i < |e.blocks| ==>
      e.blocks[i].position == i + 1 && e.blocks[i].title == d.papers[i].title
    ensures forall i :: 0 <= i < |e.blocks| ==>
      && e.blocks[i].authors == AuthorLine(d.papers[i].authors)
      && e.blocks[i].date == DateShown(d.papers[i].published)
      && e.blocks[i].abstractText == AbstractShown(d.papers[i].abstractText)
      && e.blocks[i].arxivUrl == d.papers[i].arxivUrl && e.blocks[i].pdfUrl == d.papers[i].pdfUrl
  {
    var blocks := seq(|d.papers|, i requires 0 <= i < |d.papers| => Block(i + 1, d.papers[i]));
    assert forall i :: 0 <= i < |blocks| ==> blocks[i] == Block(i + 1, d.papers[i]);
    Email(LongDate(now), |d.papers|, blocks)
  }

  // ---------------------------------------------------------------------
  // The record store.

  /** One row of the `simple_digests` table. */
  datatype Row = Row(papersCount: nat, papers: seq<PaperRecord>, sentSuccessfully: bool)

  /** The table, keyed by its `date` primary key. */
  type Store = map<string, Row>

  /** `save_digest_record`: `INSERT OR REPLACE` under today's date; when the
      database fails the error is swallowed and the table is as before. */
  function SaveDigestRecord(store: Store, now: DateTime, d: Digest, sent: bool, dbOk: bool): (s: Store)
    requires Valid(now)
    ensures !dbOk ==> s == store
    ensures dbOk ==> s.Keys == store.Keys + {DateString(now)}
    ensures dbOk ==> s[DateString(now)] == Row(d.papersCount, d.papers, sent)
    ensures forall k :: k in store && k != DateString(now) ==> s[k] == store[k]
  {
    if dbOk then store[DateString(now) := Row(d.papersCount, d.papers, sent)] else store
  }

  /** Saving twice on the same day keeps only the second row. */
  lemma SaveSameDayReplaces(store: Store, t1: DateTime, t2: DateTime,
                            d1: Digest, d2: Digest, s1: bool, s2: bool)
    requires Valid(t1) && Valid(t2) && DateString(t1) == DateString(t2)
    ensures SaveDigestRecord(SaveDigestRecord(store, t1, d1, s1, true), t2, d2, s2, true)
         == SaveDigestRecord(store, t2, d2, s2, true)
  {
  }

  /** Saves on different days do not interfere: their order does not matter. */
  lemma SaveDifferentDaysCommute(store: Store, t1: DateTime, t2: DateTime,
                                 d1: Digest, d2: Digest, s1: bool, s2: bool)
    requires Valid(t1) && Valid(t2) && DateString(t1) != DateString(t2)
    ensures SaveDigestRecord(SaveDigestRecord(store, t1, d1, s1, true), t2, d2, s2, true)
         == SaveDigestRecord(SaveDigestRecord(store, t2, d2, s2, true), t1, d1, s1, true)
  {
  }

  // ---------------------------------------------------------------------
  // The run.

  /** What a run returns, whether it tried to send, and the table after it. */
  datatype RunOutcome = RunOutcome(success: bool, emailAttempted: bool, store: Store)

  /** `run_simple_digest(dry_run, send_email)`. `smtpOk` says whether
      sending would go through and `dbOk` whether the database accepts the
      row; both failures are caught where they happen. */
  function RunSimpleDigest(feed: Option<seq<RawEntry>>, now: DateTime, dryRun: bool, sendEmail: bool,
                           smtpOk: bool, dbOk: bool, store: Store): (r: RunOutcome)
    requires Valid(now)
    ensures r.success <==> GenerateSimpleDigest(feed, now).Ok? && GenerateSimpleDigest(feed, now).value.Some?
    ensures r.emailAttempted <==> r.success && !dryRun && sendEmail
    ensures !r.success || dryRun || !dbOk ==> r.store == store
  {
    match GenerateSimpleDigest(feed, now)
    case Err(_) => RunOutcome(false, false, store)
    case Ok(None) => RunOutcome(false, false, store)
    case Ok(Some(d)) =>
      if dryRun then RunOutcome(true, false, store)
      else
        var sent := if sendEmail then smtpOk else false;
        RunOutcome(true, sendEmail, SaveDigestRecord(store, now, d, sent, dbOk))
  }

  /** Without papers there is no digest: the run fails, sends nothing and
      saves nothing. */
  lemma RunWithoutPapers(feed: Option<seq<RawEntry>>, now: DateTime, dryRun: bool, sendEmail: bool,
                         smtpOk: bool, dbOk: bool, store: Store)
    requires Valid(now)
    requires GetWorkingDigest(feed, now, DigestDays, None) == Ok([])
    ensures RunSimpleDigest(feed, now, dryRun, sendEmail, smtpOk, dbOk, store)
         == RunOutcome(false, false, store)
  {
  }

  /** A dry run reports success exactly when there is a digest, and neither
      sends nor saves. */
  lemma DryRunTouchesNothing(feed: Option<seq<RawEntry>>, now: DateTime, sendEmail: bool,
                             smtpOk: bool, dbOk: bool, store: Store)
    requires Valid(now)
    ensures var r := RunSimpleDigest(feed, now, true, sendEmail, smtpOk, dbOk, store);
      !r.emailAttempted && r.store == store
  {
  }

  /** A real run with a digest saves today's row, with the digest's count
      and papers and whether the email went out; other days are kept. */
  lemma RunSavesRow(feed: Option<seq<RawEntry>>, now: DateTime, sendEmail: bool,
                    smtpOk: bool, store: Store)
    requires Valid(now)
    requires GenerateSimpleDigest(feed, now).Ok? && GenerateSimpleDigest(feed, now).value.Some?
    ensures var d := GenerateSimpleDigest(feed, now).value.value;
      var r := RunSimpleDigest(feed, now, false, sendEmail, smtpOk, true, store);
      && r.success
      && r.store.Keys == store.Keys + {DateString(now)}
      && r.store[DateString(now)] == Row(|d.papers|, d.papers, sendEmail && smtpOk)
      && (forall k :: k in store && k != DateString(now) ==> r.store[k] == store[k])
  {
  }

  /** With email switched off the row is still saved, marked as not sent. */
  lemma NoEmailSavesUnsent(feed: Option<seq<RawEntry>>, now: DateTime, smtpOk: bool, store: Store)
    requires Valid(now)
    requires GenerateSimpleDigest(feed, now).Ok? && GenerateSimpleDigest(feed, now).value.Some?
    ensures var r := RunSimpleDigest(feed, now, false, false, smtpOk, true, store);
      r.success && !r.emailAttempted && !r.store[DateString(now)].sentSuccessfully
  {
    RunSavesRow(feed, now, false, smtpOk, store);
  }

  /** An overflowing cutoff is caught by the run: it fails and changes
      nothing. */
  lemma RunCutoffOverflow(feed: Option<seq<RawEntry>>, now: DateTime, dryRun: bool, sendEmail: bool,
                          smtpOk: bool, dbOk: bool, store: Store)
    requires Valid(now) && Cutoff(now, DigestDays).None?
    ensures RunSimpleDigest(feed, now, dryRun, sendEmail, smtpOk, dbOk, store)
         == RunOutcome(false, false, store)
  {
  }
}
