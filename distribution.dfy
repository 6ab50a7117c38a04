/** Discovery side of the downloader: scraping archive links out of the catalog
    page, normalising them, decoding the `cnsfailsYYYYMMh` file name and the
    rule that turns (year, month, half) into the publication date. */
module Distribution {
  import opened Wrappers
  import opened Text
  import opened Calendar
  import opened Sorting

  // ---------- file name ----------

  const CnsFailsPrefix := "cnsfails"

  datatype FileNameParts = FileNameParts(year: int, month: int, half: char)

  predicate WellFormedParts(p: FileNameParts)
  {
    0 <= p.year <= 9999 && 0 <= p.month <= 99 && (p.half == 'a' || p.half == 'b')
  }

  /** The canonical stem a FileNameParts value is decoded from: cnsfails + YYYY + MM + half. */
  function FileNameStem(p: FileNameParts): (s: string)
    requires WellFormedParts(p)
    ensures |s| == 15
  {
    CnsFailsPrefix + PadDigits(p.year, 4) + PadDigits(p.month, 2) + [p.half]
  }

  /** _try_parse_distribution_file_name: the stripped, lower-cased name must start with
      "cnsfails" and be followed by at least seven characters: four digits of year,
      two digits of month and the half letter 'a' or 'b'; anything after that is ignored. */
  function ParseDistributionFileName(fileName: string): (r: Option<FileNameParts>)
    ensures r.Some? ==> WellFormedParts(r.value)
    ensures r.Some? ==> FileNameStem(r.value) <= Lower(Strip(fileName))
    ensures |Strip(fileName)| < 15 ==> r.None?
  {
    if fileName == [] then None
    else
      var name := Lower(Strip(fileName));
      if !(CnsFailsPrefix <= name) then None
      else
        var token := name[|CnsFailsPrefix|..];
        if |token| < 7 then None
        else if !(AllDigits(token[0..4]) && AllDigits(token[4..6])) then None
        else
          var half := token[6];
          if half != 'a' && half != 'b' then None
          else
            StemOfToken(name, token);
            Some(FileNameParts(DigitsValue(token[0..4]), DigitsValue(token[4..6]), half))
  }

  /** The fields read off a name that passed every check re-render as the name's first
      fifteen characters. */
  lemma StemOfToken(name: string, token: string)
    requires CnsFailsPrefix <= name && token == name[|CnsFailsPrefix|..] && |token| >= 7
    requires AllDigits(token[0..4]) && AllDigits(token[4..6]) && (token[6] == 'a' || token[6] == 'b')
    ensures var p := FileNameParts(DigitsValue(token[0..4]), DigitsValue(token[4..6]), token[6]);
      WellFormedParts(p) && FileNameStem(p) <= name
  {
    DigitsValueBound(token[0..4]);
    DigitsValueBound(token[4..6]);
    PadDigitsOfValue(token[0..4]);
    PadDigitsOfValue(token[4..6]);
    assert name[..15] == CnsFailsPrefix + token[0..4] + token[4..6] + [token[6]];
  }

  lemma {:induction false} StemIsPlain(p: FileNameParts)
    requires WellFormedParts(p)
    ensures NoUpper(FileNameStem(p))
    ensures !IsSpace(FileNameStem(p)[0]) && !IsSpace(FileNameStem(p)[14])
  {
    var f := FileNameStem(p);
    var y, m := PadDigits(p.year, 4), PadDigits(p.month, 2);
    assert NoUpper(CnsFailsPrefix);
    assert f == CnsFailsPrefix + y + m + [p.half];
    forall i | 0 <= i < |f| ensures !IsUpperAscii(f[i]) {
      if i < 8 { assert f[i] == CnsFailsPrefix[i]; }
      else if i < 12 { assert f[i] == y[i - 8]; }
      else if i < 14 { assert f[i] == m[i - 12]; }
    }
  }

  /** A name whose stripped, lower-cased form starts with the stem of a well-formed triple
      decodes to that triple; with the contract of the parser this is an if and only if. */
  lemma {:induction false} ParseOfStem(fileName: string, p: FileNameParts)
    requires WellFormedParts(p) && FileNameStem(p) <= Lower(Strip(fileName))
    ensures ParseDistributionFileName(fileName) == Some(p)
  {
    var f := FileNameStem(p);
    var name := Lower(Strip(fileName));
    assert |Strip(fileName)| <= |fileName|;
    assert name[..15] == f;
    assert name[..8] == CnsFailsPrefix;
    var token := name[8..];
    assert f == CnsFailsPrefix + PadDigits(p.year, 4) + PadDigits(p.month, 2) + [p.half];
    assert f[8..12] == PadDigits(p.year, 4) && f[12..14] == PadDigits(p.month, 2);
    assert token[0..4] == f[8..12] && token[4..6] == f[12..14] && token[6] == f[14];
    PadDigitsValue(p.year, 4);
    PadDigitsValue(p.month, 2);
  }

  /** The names the parser accepts are exactly those that start, once stripped and
      lower-cased, with the stem of the triple it returns. */
  lemma ParseDistributionFileNameIff(fileName: string, p: FileNameParts)
    ensures ParseDistributionFileName(fileName) == Some(p) <==>
      WellFormedParts(p) && FileNameStem(p) <= Lower(Strip(fileName))
  {
    if WellFormedParts(p) && FileNameStem(p) <= Lower(Strip(fileName)) {
      ParseOfStem(fileName, p);
    }
  }

  /** Decoding the stem of a well-formed triple, whatever trails it, gives the triple back. */
  lemma ParseFileNameStem(p: FileNameParts, suffix: string)
    requires WellFormedParts(p)
    ensures ParseDistributionFileName(FileNameStem(p) + suffix) == Some(p)
  {
    StemIsPlain(p);
    StripLowerPrefix(FileNameStem(p), suffix);
    ParseOfStem(FileNameStem(p) + suffix, p);
  }

  // ---------- publication date ----------

  /** Inputs for which every datetime.date the rule builds exists (years 1..9999). */
  predicate ProcessableYearMonth(year: int, month: int)
  {
    1 <= year <= 9999 && 1 <= month <= 12 && (month < 12 || year < 9999)
  }

  /** _get_processing_date: half 'a' is published on the last day of its month (first of
      the next month minus a day), any other half on the 15th of the following month. */
  function ProcessingDate(year: int, month: int, half: char): (r: Date)
    requires ProcessableYearMonth(year, month)
    ensures InPythonRange(r)
  {
    if ToLower(half) == 'a' then EndOfMonth(year, month)
    else
      var next := FirstOfNextMonth(year, month);
      Date(next.year, next.month, 15)
  }

  lemma ProcessingDateFirstHalf(year: int, month: int, half: char)
    requires ProcessableYearMonth(year, month) && ToLower(half) == 'a'
    ensures ProcessingDate(year, month, half) == Date(year, month, DaysInMonth(year, month))
  {
    EndOfMonthIsLastDay(year, month);
  }

  /** The second half is published on a 15th, and the month it falls in starts the day
      after the covered month ends. */
  lemma ProcessingDateSecondHalf(year: int, month: int, half: char)
    requires ProcessableYearMonth(year, month) && ToLower(half) != 'a'
    ensures var r := ProcessingDate(year, month, half);
      r.day == 15 && NextDay(EndOfMonth(year, month)) == Date(r.year, r.month, 1)
  {
    EndOfMonthIsLastDay(year, month);
  }

  /** Publication lags the covered half-month, and successive halves publish in order. */
  lemma {:induction false} ProcessingDatesOrdered(year: int, month: int)
    requires ProcessableYearMonth(year, month)
    ensures Before(Date(year, month, 15), ProcessingDate(year, month, 'a'))
    ensures Before(EndOfMonth(year, month), ProcessingDate(year, month, 'b'))
    ensures Before(ProcessingDate(year, month, 'a'), ProcessingDate(year, month, 'b'))
    ensures var n := FirstOfNextMonth(year, month);
      ProcessableYearMonth(n.year, n.month) ==>
        Before(ProcessingDate(year, month, 'b'), ProcessingDate(n.year, n.month, 'a'))
  {
    EndOfMonthIsLastDay(year, month);
    var n := FirstOfNextMonth(year, month);
    if ProcessableYearMonth(n.year, n.month) {
      EndOfMonthIsLastDay(n.year, n.month);
    }
  }

  /** Distinct archives never share a publication date, so each universe file belongs to one archive. */
  lemma {:induction false} ProcessingDateInjective(y1: int, m1: int, h1: char, y2: int, m2: int, h2: char)
    requires ProcessableYearMonth(y1, m1) && ProcessableYearMonth(y2, m2)
    requires h1 in "ab" && h2 in "ab"
    requires ProcessingDate(y1, m1, h1) == ProcessingDate(y2, m2, h2)
    ensures y1 == y2 && m1 == m2 && h1 == h2
  {
    assert ToLower(h1) == h1 && ToLower(h2) == h2;
    if h1 == 'a' { ProcessingDateFirstHalf(y1, m1, h1); }
    if h2 == 'a' { ProcessingDateFirstHalf(y2, m2, h2); }
  }

  // ---------- link scraping ----------

  const MarkerPrefix := "https://www.sec.gov/files/data/fails-deliver-data/"

  /** What a scraped link looks like: starts with the marker ignoring case, holds no quote. */
  predicate IsArchiveLink(l: string)
  {
    MarkerPrefix <= Lower(l) && '"' !in l
  }

  /** l appears in s at i and is immediately followed by a quote. */
  predicate QuotedAt(s: string, l: string, i: int)
  {
    0 <= i && i + |l| < |s| && s[i..i + |l|] == l && s[i + |l|] == '"'
  }

  /** The set the scraping loop builds: find the marker ignoring case, cut from there,
      take everything before the next quote; no closing quote ends the scan. */
  function ScrapedLinks(s: string): set<string>
    decreases |s|, 1
  {
    var idx := IndexOf(Lower(s), MarkerPrefix);
    if idx == -1 then {} else LinksFromMarker(s[idx..])
  }

  /** The scan from a marker match on: the text up to the next quote, then the scan of
      what follows. */
  function LinksFromMarker(t: string): set<string>
    decreases |t|, 0
  {
    var end := IndexOf(t, "\"");
    if end <= 0 then {} else {t[..end]} + ScrapedLinks(t[end..])
  }

  /** The marker is written with letters, '.', ':', '/' and '-' only. */
  lemma MarkerHasNoQuote()
    ensures forall j :: 0 <= j < |MarkerPrefix| ==> MarkerPrefix[j] != '"'
  {
    var alphabet := "https://w.secgovfildtaforv-";
    assert forall j :: 0 <= j < |MarkerPrefix| ==> MarkerPrefix[j] in alphabet;
    assert '"' !in alphabet;
  }

  /** The first quote of t: a quote at end and none before it. */
  lemma FirstQuote(t: string, end: int)
    requires end != -1 && end == IndexOf(t, "\"")
    ensures end < |t| && t[end] == '"'
    ensures forall j :: 0 <= j < end ==> t[j] != '"'
  {
    assert t[end..end + 1] == "\"";
    forall j | 0 <= j < end ensures t[j] != '"' {
      assert !OccursAt(t, "\"", j);
      assert t[j..j + 1] == [t[j]];
    }
  }

  /** Where the marker matches ignoring case, the rest of the page lowers to a text that
      starts with the marker. */
  lemma MarkerMatch(s: string, idx: int)
    requires idx != -1 && idx == IndexOf(Lower(s), MarkerPrefix)
    ensures idx + |MarkerPrefix| <= |s|
    ensures MarkerPrefix <= Lower(s[idx..])
  {
    assert Lower(s)[idx..idx + |MarkerPrefix|] == MarkerPrefix;
    assert Lower(s[idx..]) == Lower(s)[idx..];
  }

  /** The first quote after a marker match lies past the marker, which holds none. */
  lemma LinkCoversMarker(t: string, end: int)
    requires MarkerPrefix <= Lower(t)
    requires end > 0 && end == IndexOf(t, "\"")
    ensures end >= |MarkerPrefix|
  {
    FirstQuote(t, end);
    MarkerHasNoQuote();
    if end < |MarkerPrefix| {
      assert false;
    }
  }

  /** The first link of the scan from a marker match: the archive shape, right before a quote. */
  lemma FirstLinkSound(t: string, end: int)
    requires MarkerPrefix <= Lower(t)
    requires end > 0 && end == IndexOf(t, "\"")
    ensures IsArchiveLink(t[..end]) && QuotedAt(t, t[..end], 0)
  {
    FirstQuote(t, end);
    LinkCoversMarker(t, end);
    assert Lower(t[..end]) == Lower(t)[..end];
    assert t[0..end] == t[..end];
  }

  /** l is a quoted run somewhere in s. */
  ghost predicate QuotedIn(s: string, l: string)
  {
    exists i :: QuotedAt(s, l, i)
  }

  lemma QuotedShift(s: string, off: nat, l: string)
    requires off <= |s| && QuotedIn(s[off..], l)
    ensures QuotedIn(s, l)
  {
    var i :| QuotedAt(s[off..], l, i);
    assert s[off + i..off + i + |l|] == s[off..][i..i + |l|];
    assert QuotedAt(s, l, off + i);
  }

  /** Every link of the set has the archive shape and is a quoted run of s. */
  ghost predicate SoundLinks(s: string, links: set<string>)
  {
    forall l :: l in links ==> IsArchiveLink(l) && QuotedIn(s, l)
  }

  /** The links found in a suffix of the page are sound for the whole page. */
  lemma SoundLinksShift(s: string, off: nat, links: set<string>)
    requires off <= |s| && SoundLinks(s[off..], links)
    ensures SoundLinks(s, links)
  {
    forall l | l in links ensures IsArchiveLink(l) && QuotedIn(s, l) {
      QuotedShift(s, off, l);
    }
  }

  lemma ScrapedLinksStep(s: string, idx: int)
    requires idx != -1 && idx == IndexOf(Lower(s), MarkerPrefix)
    ensures ScrapedLinks(s) == LinksFromMarker(s[idx..])
  {
  }

  lemma LinksFromMarkerStep(t: string, end: int)
    requires end > 0 && end == IndexOf(t, "\"")
    ensures LinksFromMarker(t) == {t[..end]} + ScrapedLinks(t[end..])
  {
  }

  /** Every scraped link has the archive shape and is a quoted run of the page. */
  lemma {:induction false} ScrapedLinksSound(s: string)
    ensures SoundLinks(s, ScrapedLinks(s))
    decreases |s|, 1
  {
    var idx := IndexOf(Lower(s), MarkerPrefix);
    if idx != -1 {
      ScrapedLinksStep(s, idx);
      MarkerMatch(s, idx);
      LinksFromMarkerSound(s[idx..]);
      SoundLinksShift(s, idx, LinksFromMarker(s[idx..]));
    }
  }

  /** From a marker match on, every scraped link is sound for the text scanned. */
  lemma {:induction false} LinksFromMarkerSound(t: string)
    requires MarkerPrefix <= Lower(t)
    ensures SoundLinks(t, LinksFromMarker(t))
    decreases |t|, 0
  {
    var end := IndexOf(t, "\"");
    if end > 0 {
      LinksFromMarkerStep(t, end);
      ScrapedLinksSound(t[end..]);
      SoundLinksShift(t, end, ScrapedLinks(t[end..]));
      FirstLinkSound(t, end);
    }
  }

  lemma LexLeIsTotal()
    ensures Total(LexLe)
  {
    forall a, b ensures LexLe(a, b) || LexLe(b, a) { LexLeTotal(a, b); }
  }

  /** _scrape_download_links: the links of the page, each once, in ascending string order. */
  method ScrapeDownloadLinks(html: string) returns (links: seq<string>)
    ensures forall l :: l in links <==> l in ScrapedLinks(html)
    ensures Distinct(links)
    ensures forall i :: 0 < i < |links| ==> LexLe(links[i - 1], links[i]) && links[i - 1] != links[i]
    ensures forall l :: l in links ==> IsArchiveLink(l)
  {
    var found: set<string> := {};
    var s := html;
    while true
      invariant found + ScrapedLinks(s) == ScrapedLinks(html)
      decreases |s|
    {
      var idx := IndexOf(Lower(s), MarkerPrefix);
      if idx == -1 {
        break;
      }
      var t := s[idx..];
      var end := IndexOf(t, "\"");
      if end <= 0 {
        break;
      }
      found := found + {t[..end]};
      s := t[end..];
    }
    LexLeIsTotal();
    links := SortSet(found, LexLe);
    SetPermutationDistinct(links, found);
    ScrapedLinksSound(html);
  }

  // ---------- URL normalisation ----------

  const SecHost := "https://www.sec.gov"

  /** _normalize_download_url: absolute URLs (starting with "http", any case) are kept;
      anything else is joined to the SEC host with exactly one leading slash added if missing. */
  function NormalizeDownloadUrl(url: string): (r: string)
    ensures "http" <= Lower(url) ==> r == url
    ensures !("http" <= Lower(url)) ==>
      SecHost + "/" <= r && |r| == |SecHost| + |url| + (if "/" <= url then 0 else 1)
      && r[|r| - |url|..] == url
    ensures "http" <= Lower(r)
  {
    if "http" <= Lower(url) then url
    else
      var r := if "/" <= url then SecHost + url else SecHost + "/" + url;
      assert Lower(r)[..4] == "http" by {
        assert r[..4] == "http";
        forall j | 0 <= j < 4 ensures Lower(r)[j] == r[j] { }
      }
      r
  }

  lemma NormalizeDownloadUrlIdempotent(url: string)
    ensures NormalizeDownloadUrl(NormalizeDownloadUrl(url)) == NormalizeDownloadUrl(url)
  {
  }
}
