/**
  `search_ct_logs_for_brand`: page through Certificate Transparency logs with
  get-entries requests (section 4.6 of RFC 6962), pull host names out of every
  decoded entry and report those that contain the brand, ignoring case.

  The network is replaced by the finite list of answers each log gives to its
  successive requests; running out of answers ends that log without
  sending another request. Base64 and UTF-8 decoding are replaced by the decoded text of each
  entry, or by `Undecodable` for an entry the scanner cannot decode.
 */
module CtLogs {
  import opened Text
  import opened Results
  import opened Extract
  import opened Seqs
  import Decimal

  /** Entries asked for per request; the cursor moves on by this much after every page. */
  const BatchSize: nat := 1000
  const CommonNameTag := "CN="
  const DnsNameTag := "DNS:"

  /** One element of a page's `entries`: the text its leaf certificate decodes
      to, or an element without `leaf_input.leaf_certificate` or with invalid
      base64, which raises out of the whole scan. */
  datatype Entry = Leaf(text: string) | Undecodable

  /** A log's answer to one get-entries request. */
  datatype Response =
    | RequestFailed            // connection failure or HTTP error status
    | InvalidJson              // body is not JSON
    | NoEntriesField           // JSON object without `entries`
    | Entries(entries: seq<Entry>)  // `entries`; an empty list or `null` is Entries([])

  /** A log to scan and the answers it gives to its successive requests. */
  datatype Log = Log(url: string, responses: seq<Response>)

  /** One get-entries request for the inclusive range `start`..`end`. */
  datatype Request = Request(log: string, start: nat, end: nat) {
    function Url(): string {
      log + "?start=" + Decimal.Show(start) + "&end=" + Decimal.Show(end)
    }
  }

  /** The brand-bearing host names of one entry. The source appends one
      `(domain, entry_index, log_url)` record per element of this set, in the
      set's iteration order. */
  datatype Hit = Hit(log: string, index: nat, domains: set<string>)

  /** One `{'domain', 'entry_index', 'log_url'}` record of the result list. */
  datatype Match = Match(domain: string, entryIndex: nat, logUrl: string)

  /** What a completed scan produced: the hits in discovery order and the requests it sent. */
  datatype Scan = Scan(hits: seq<Hit>, requests: seq<Request>)

  /** The undecodable entry that raised out of the scan. */
  datatype Abort = Abort(log: string, index: nat)

  /** How far page `q` of a log starts after its first page: the cursor
      moves on by `BatchSize` per page. */
  function PageOffset(q: nat): nat {
    BatchSize * q
  }

  /** The request for the page starting at `start`. */
  function PageRequest(url: string, start: nat): Request {
    Request(url, start, start + BatchSize - 1)
  }

  /** An answer that ends the scan of its log: an error, a missing `entries`
      field or an empty page. */
  predicate Stops(r: Response) {
    !r.Entries? || r.entries == []
  }

  predicate AllDecodable(es: seq<Entry>) {
    forall j :: 0 <= j < |es| ==> es[j].Leaf?
  }

  // ---------------------------------------------------------------------
  // One entry

  /** The de-duplicated `CN=` and `DNS:` captures of a decoded entry. */
  function Candidates(text: string): (ds: set<string>)
    ensures forall d :: d in ds ==> IsCandidate(d)
    ensures forall d :: d in ds <==> d in FindAll(text, CommonNameTag) || d in FindAll(text, DnsNameTag)
  {
    set d | d in FindAll(text, CommonNameTag) + FindAll(text, DnsNameTag)
  }

  /** The candidates of an entry whose lower-case form contains the lower-cased brand. */
  function BrandHits(text: string, brandLower: string): (ds: set<string>)
    ensures forall d :: d in ds <==> d in Candidates(text) && Contains(Lower(d), brandLower)
    ensures forall d :: d in ds ==> Contains(text, CommonNameTag + d) || Contains(text, DnsNameTag + d)
  {
    set d | d in Candidates(text) && Contains(Lower(d), brandLower)
  }

  /** An entry reports exactly the candidates in which the brand occurs,
      ignoring case: the lower-casing on both sides of `in` makes the test
      case-insensitive, whatever the case of the brand as given. */
  lemma BrandHitsIgnoreCase(text: string, brand: string, d: string)
    ensures d in BrandHits(text, Lower(brand)) <==>
      d in Candidates(text) && exists i: nat :: OccursIgnoringCase(d, brand, i)
  {
    ContainsLowerIgnoresCase(d, brand);
  }

  /** The per-entry analysis of a search for one brand. The page and log
      functions below take the analysis as a parameter `found`, so that their
      properties hold whatever host names an entry yields. */
  function Matcher(brandLower: string): string -> set<string> {
    text => BrandHits(text, brandLower)
  }

  /** An entry whose decoded text yields some host name for the report. */
  predicate EntryHits(e: Entry, found: string -> set<string>) {
    e.Leaf? && found(e.text) != {}
  }

  // ---------------------------------------------------------------------
  // One page

  /** `h` reports entry `h.index - base` of `es`, which lies in the page and yields host names. */
  ghost predicate HitFromEntry(h: Hit, found: string -> set<string>, url: string, es: seq<Entry>, base: nat) {
    && h.log == url
    && base <= h.index < base + |es|
    && es[h.index - base].Leaf?
    && h.domains == found(es[h.index - base].text)
    && h.domains != {}
  }

  ghost predicate AllFromEntries(hits: seq<Hit>, found: string -> set<string>, url: string, es: seq<Entry>, base: nat) {
    forall k :: 0 <= k < |hits| ==> HitFromEntry(hits[k], found, url, es, base)
  }

  ghost predicate IndicesIncrease(hits: seq<Hit>) {
    forall k, l :: 0 <= k < l < |hits| ==> hits[k].index < hits[l].index
  }

  ghost predicate CoversEntries(hits: seq<Hit>, found: string -> set<string>, es: seq<Entry>, base: nat) {
    forall j :: 0 <= j < |es| && EntryHits(es[j], found) ==>
      exists k :: 0 <= k < |hits| && hits[k].index == base + j
  }

  /** `hits` lists, in index order and once each, exactly the entries of `es`
      that have brand hits, entry `j` being reported at index `base + j`. */
  ghost predicate HitsOfEntries(hits: seq<Hit>, found: string -> set<string>, url: string, es: seq<Entry>, base: nat) {
    && AllFromEntries(hits, found, url, es, base)
    && IndicesIncrease(hits)
    && CoversEntries(hits, found, es, base)
  }

  /** What one decoded entry contributes: nothing, or a hit at its index. */
  function EntryReport(url: string, index: nat, ds: set<string>): seq<Hit> {
    if ds == {} then [] else [Hit(url, index, ds)]
  }

  lemma AllFromEntriesCons(found: string -> set<string>, url: string, es: seq<Entry>, base: nat, rest: seq<Hit>)
    requires |es| > 0 && es[0].Leaf?
    requires AllFromEntries(rest, found, url, es[1..], base + 1)
    ensures AllFromEntries(EntryReport(url, base, found(es[0].text)) + rest, found, url, es, base)
  {
    var here := EntryReport(url, base, found(es[0].text));
    var hits := here + rest;
    forall k | 0 <= k < |hits| ensures HitFromEntry(hits[k], found, url, es, base) {
      if k >= |here| {
        var h := rest[k - |here|];
        assert hits[k] == h;
        assert HitFromEntry(h, found, url, es[1..], base + 1);
        assert es[h.index - base] == es[1..][h.index - (base + 1)];
      }
    }
  }

  lemma IndicesIncreaseCons(found: string -> set<string>, url: string, es: seq<Entry>, base: nat, rest: seq<Hit>)
    requires |es| > 0 && es[0].Leaf?
    requires AllFromEntries(rest, found, url, es[1..], base + 1)
    requires IndicesIncrease(rest)
    ensures IndicesIncrease(EntryReport(url, base, found(es[0].text)) + rest)
  {
    var here := EntryReport(url, base, found(es[0].text));
    var hits := here + rest;
    forall k, l | 0 <= k < l < |hits| ensures hits[k].index < hits[l].index {
      assert hits[l] == rest[l - |here|];
      if k >= |here| {
        assert hits[k] == rest[k - |here|];
      } else {
        assert HitFromEntry(rest[l - |here|], found, url, es[1..], base + 1);
      }
    }
  }

  lemma CoversEntriesCons(found: string -> set<string>, url: string, es: seq<Entry>, base: nat, rest: seq<Hit>)
    requires |es| > 0 && es[0].Leaf?
    requires CoversEntries(rest, found, es[1..], base + 1)
    ensures CoversEntries(EntryReport(url, base, found(es[0].text)) + rest, found, es, base)
  {
    var here := EntryReport(url, base, found(es[0].text));
    var hits := here + rest;
    forall j | 0 <= j < |es| && EntryHits(es[j], found)
      ensures exists k :: 0 <= k < |hits| && hits[k].index == base + j
    {
      if j == 0 {
        assert hits[0].index == base;
      } else {
        assert es[1..][j - 1] == es[j];
        var k :| 0 <= k < |rest| && rest[k].index == base + 1 + (j - 1);
        assert hits[k + |here|] == rest[k];
      }
    }
  }

  /** The inner `for` loop over one page, entry `j` having log index `base + j`.
      The first undecodable entry raises out of the scan. */
  function ScanEntries(found: string -> set<string>, url: string, es: seq<Entry>, base: nat): (r: Result<seq<Hit>, Abort>)
    ensures r.Success? <==> AllDecodable(es)
    ensures r.Failure? ==>
      && r.error.log == url
      && base <= r.error.index < base + |es|
      && es[r.error.index - base].Undecodable?
      && AllDecodable(es[..r.error.index - base])
    decreases |es|
  {
    if es == [] then Success([])
    else match es[0]
      case Undecodable => Failure(Abort(url, base))
      case Leaf(text) =>
        var ds := found(text);
        match ScanEntries(found, url, es[1..], base + 1)
        case Failure(a) =>
          assert es[..a.index - base] == [es[0]] + es[1..][..a.index - base - 1];
          Failure(a)
        case Success(rest) => Success(EntryReport(url, base, ds) + rest)
  }

  /** A fully decoded page reports every entry with brand hits once, in order,
      and nothing else. */
  lemma {:induction false} ScanEntriesHits(found: string -> set<string>, url: string, es: seq<Entry>, base: nat)
    requires AllDecodable(es)
    ensures HitsOfEntries(ScanEntries(found, url, es, base).value, found, url, es, base)
    decreases |es|
  {
    if es != [] {
      assert AllDecodable(es[1..]) by {
        forall j | 0 <= j < |es[1..]| ensures es[1..][j].Leaf? {
          assert es[1..][j] == es[j + 1];
        }
      }
      ScanEntriesHits(found, url, es[1..], base + 1);
      var rest := ScanEntries(found, url, es[1..], base + 1).value;
      AllFromEntriesCons(found, url, es, base, rest);
      IndicesIncreaseCons(found, url, es, base, rest);
      CoversEntriesCons(found, url, es, base, rest);
    }
  }

  /** Hit `k` of a fully decoded page reports an entry of that page. */
  lemma HitOfPage(found: string -> set<string>, url: string, es: seq<Entry>, base: nat, k: nat)
    requires AllDecodable(es) && k < |ScanEntries(found, url, es, base).value|
    ensures HitFromEntry(ScanEntries(found, url, es, base).value[k], found, url, es, base)
  {
    ScanEntriesHits(found, url, es, base);
  }

  // ---------------------------------------------------------------------
  // One log

  /** Number of answers read before the first one that ends the log. */
  function FirstStop(rs: seq<Response>): (n: nat)
    ensures n <= |rs|
    ensures n < |rs| ==> Stops(rs[n])
  {
    if rs == [] || Stops(rs[0]) then 0 else 1 + FirstStop(rs[1..])
  }

  /** Every answer before the first stopping one is a non-empty page. */
  lemma {:induction false} ReadBeforeStop(rs: seq<Response>, q: nat)
    requires q < FirstStop(rs)
    ensures rs[q].Entries? && rs[q].entries != []
    decreases q
  {
    if q > 0 {
      ReadBeforeStop(rs[1..], q - 1);
      assert rs[1..][q - 1] == rs[q];
    }
  }

  /** Requests sent to a log: one per answer up to and including the one that
      ends it, or one per answer when the answers run out first. */
  function RequestsSent(rs: seq<Response>): nat {
    if FirstStop(rs) < |rs| then FirstStop(rs) + 1 else |rs|
  }

  lemma RequestsSentStep(rs: seq<Response>)
    requires rs != [] && !Stops(rs[0])
    ensures RequestsSent(rs) == 1 + RequestsSent(rs[1..])
  {
    assert FirstStop(rs) == 1 + FirstStop(rs[1..]);
  }

  /** The `while True` loop over one log. Page `q` is requested at
      `start + PageOffset(q)` and is read only if no earlier page ended the
      log; the cursor moves on by the batch size whatever the page's length. */
  function ScanPages(found: string -> set<string>, url: string, rs: seq<Response>, start: nat): (r: Result<Scan, Abort>)
    ensures r.Failure? ==> r.error.log == url
    decreases |rs|
  {
    if rs == [] then Success(Scan([], []))
    else
      var request := PageRequest(url, start);
      if Stops(rs[0]) then Success(Scan([], [request]))
      else
        match ScanEntries(found, url, rs[0].entries, start)
        case Failure(a) => Failure(a)
        case Success(hits) =>
          match ScanPages(found, url, rs[1..], start + BatchSize)
          case Failure(a) => Failure(a)
          case Success(rest) =>
            Success(Scan(hits + rest.hits, [request] + rest.requests))
  }

  /** Every page the log reads before it ends decodes entirely. */
  ghost predicate ReadPagesDecodable(rs: seq<Response>) {
    forall q :: 0 <= q < FirstStop(rs) ==> rs[q].Entries? && AllDecodable(rs[q].entries)
  }

  lemma ReadPagesDecodableStep(rs: seq<Response>)
    requires rs != [] && !Stops(rs[0])
    ensures ReadPagesDecodable(rs) <==> AllDecodable(rs[0].entries) && ReadPagesDecodable(rs[1..])
  {
    if AllDecodable(rs[0].entries) && ReadPagesDecodable(rs[1..]) {
      forall q | 0 <= q < FirstStop(rs) ensures rs[q].Entries? && AllDecodable(rs[q].entries) {
        if q > 0 {
          assert rs[q] == rs[1..][q - 1];
        }
      }
    }
    if ReadPagesDecodable(rs) {
      forall q | 0 <= q < FirstStop(rs[1..]) ensures rs[1..][q].Entries? && AllDecodable(rs[1..][q].entries) {
        assert rs[1..][q] == rs[q + 1];
      }
    }
  }

  /** A log's scan completes exactly when every page it reads decodes; an
      undecodable entry on a page after the one that ends the log is never seen. */
  lemma {:induction false} ScanPagesSucceeds(found: string -> set<string>, url: string, rs: seq<Response>, start: nat)
    ensures ScanPages(found, url, rs, start).Success? <==> ReadPagesDecodable(rs)
    decreases |rs|
  {
    if rs != [] && !Stops(rs[0]) {
      ReadPagesDecodableStep(rs);
      ScanPagesSucceeds(found, url, rs[1..], start + BatchSize);
    }
  }

  /** A scan that raises names the first undecodable entry of the first page
      that has one, at its log index; every page before it decoded. */
  lemma {:induction false} AbortSource(found: string -> set<string>, url: string, rs: seq<Response>, start: nat)
    returns (q: nat, j: nat)
    requires ScanPages(found, url, rs, start).Failure?
    ensures q < FirstStop(rs) && rs[q].Entries? && j < |rs[q].entries| && rs[q].entries[j].Undecodable?
    ensures AllDecodable(rs[q].entries[..j])
    ensures forall p :: 0 <= p < q ==> rs[p].Entries? && AllDecodable(rs[p].entries)
    ensures ScanPages(found, url, rs, start).error == Abort(url, start + PageOffset(q) + j)
    decreases |rs|
  {
    var es := rs[0].entries;
    if ScanEntries(found, url, es, start).Failure? {
      q, j := 0, ScanEntries(found, url, es, start).error.index - start;
    } else {
      var q', j' := AbortSource(found, url, rs[1..], start + BatchSize);
      assert rs[1..][q'] == rs[q' + 1];
      forall p | 0 <= p < q' + 1 ensures rs[p].Entries? && AllDecodable(rs[p].entries) {
        if p > 0 {
          assert rs[p] == rs[1..][p - 1];
        }
      }
      q, j := q' + 1, j';
    }
  }

  /** The requests a log is sent, which depend only on how it answers, not
      on what its entries hold. */
  function SentRequests(url: string, rs: seq<Response>, start: nat): seq<Request>
    decreases |rs|
  {
    if rs == [] then []
    else if Stops(rs[0]) then [PageRequest(url, start)]
    else [PageRequest(url, start)] + SentRequests(url, rs[1..], start + BatchSize)
  }

  lemma {:induction false} ScanPagesSendsRequests(found: string -> set<string>, url: string, rs: seq<Response>, start: nat)
    requires ScanPages(found, url, rs, start).Success?
    ensures ScanPages(found, url, rs, start).value.requests == SentRequests(url, rs, start)
    decreases |rs|
  {
    if rs != [] && !Stops(rs[0]) {
      ScanPagesStep(found, url, rs, start);
      ScanPagesSendsRequests(found, url, rs[1..], start + BatchSize);
    }
  }

  /** One request per page read, plus the one whose answer ended the log. */
  lemma {:induction false} SentRequestsCount(url: string, rs: seq<Response>, start: nat)
    ensures |SentRequests(url, rs, start)| == RequestsSent(rs)
    decreases |rs|
  {
    if rs != [] && !Stops(rs[0]) {
      RequestsSentStep(rs);
      SentRequestsCount(url, rs[1..], start + BatchSize);
    } else if rs != [] {
      assert FirstStop(rs) == 0;
    }
  }

  /** Request `k` asks for the page starting `PageOffset(k)` after `start`. */
  lemma {:induction false} SentRequestAt(url: string, rs: seq<Response>, start: nat, k: nat)
    requires k < |SentRequests(url, rs, start)|
    ensures SentRequests(url, rs, start)[k] == PageRequest(url, start + PageOffset(k))
    decreases k
  {
    if k > 0 {
      var rest := SentRequests(url, rs[1..], start + BatchSize);
      assert SentRequests(url, rs, start)[k] == rest[k - 1];
      SentRequestAt(url, rs[1..], start + BatchSize, k - 1);
    }
  }

  /** `reqs` asks, request `k`, for the page starting `PageOffset(k)` after `start`. */
  ghost predicate RequestsFrom(reqs: seq<Request>, url: string, start: nat) {
    forall k :: 0 <= k < |reqs| ==> reqs[k] == PageRequest(url, start + PageOffset(k))
  }

  lemma SentRequestsAt(url: string, rs: seq<Response>, start: nat)
    ensures RequestsFrom(SentRequests(url, rs, start), url, start)
  {
    var reqs := SentRequests(url, rs, start);
    forall k | 0 <= k < |reqs| ensures reqs[k] == PageRequest(url, start + PageOffset(k)) {
      SentRequestAt(url, rs, start, k);
    }
  }

  /** A completed scan of a log sent it one request per page read, plus the
      one whose answer ended the log, and none after it; request `k` asks for
      the `BatchSize` entries starting `PageOffset(k)` after `start`. */
  lemma ScanPagesRequests(found: string -> set<string>, url: string, rs: seq<Response>, start: nat)
    requires ScanPages(found, url, rs, start).Success?
    ensures var reqs := ScanPages(found, url, rs, start).value.requests;
      |reqs| == RequestsSent(rs) && RequestsFrom(reqs, url, start)
  {
    ScanPagesSendsRequests(found, url, rs, start);
    SentRequestsCount(url, rs, start);
    SentRequestsAt(url, rs, start);
  }

  /** A number's decimal text followed by text that starts with a non-digit
      can be split only one way. */
  lemma ShowThenText(a: nat, b: nat, x: string, y: string)
    requires x != [] && y != [] && !Decimal.IsDigit(x[0]) && !Decimal.IsDigit(y[0])
    requires Decimal.Show(a) + x == Decimal.Show(b) + y
    ensures a == b && x == y
  {
    var sa, sb := Decimal.Show(a), Decimal.Show(b);
    DigitsThenText(sa, x);
    DigitsThenText(sb, y);
    assert |sa| == |sb|;
    assert sa == (sa + x)[..|sa|] == (sb + y)[..|sb|] == sb;
    Decimal.ShowInjective(a, b);
    assert x == (sa + x)[|sa|..] == (sb + y)[|sb|..] == y;
  }

  /** In digits followed by text starting with a non-digit, the first non-digit sits right after the digits. */
  lemma DigitsThenText(s: string, x: string)
    requires Decimal.AllDigits(s) && x != [] && !Decimal.IsDigit(x[0])
    ensures forall k :: 0 <= k < |s| ==> Decimal.IsDigit((s + x)[k])
    ensures !Decimal.IsDigit((s + x)[|s|])
  {
  }

  /** The URL of a request to a log names its range: two requests to the same
      log with the same URL ask for the same entries. */
  lemma UrlDeterminesRange(r1: Request, r2: Request)
    requires r1.log == r2.log && r1.Url() == r2.Url()
    ensures r1 == r2
  {
    var pre := r1.log + "?start=";
    var x1, x2 := "&end=" + Decimal.Show(r1.end), "&end=" + Decimal.Show(r2.end);
    assert r1.Url() == pre + (Decimal.Show(r1.start) + x1);
    assert r2.Url() == pre + (Decimal.Show(r2.start) + x2);
    assert Decimal.Show(r1.start) + x1 == r1.Url()[|pre|..] == r2.Url()[|pre|..] == Decimal.Show(r2.start) + x2;
    ShowThenText(r1.start, r2.start, x1, x2);
    assert Decimal.Show(r1.end) == x1[5..] == x2[5..] == Decimal.Show(r2.end);
    Decimal.ShowInjective(r1.end, r2.end);
  }

  /** Request `k` of a completed scan of a log fetches
      `url?start=S&end=E` with `S` the page's first index in decimal and `E = S + 999`. */
  lemma RequestUrlAt(found: string -> set<string>, url: string, rs: seq<Response>, start: nat, k: nat)
    requires ScanPages(found, url, rs, start).Success?
    requires k < |ScanPages(found, url, rs, start).value.requests|
    ensures ScanPages(found, url, rs, start).value.requests[k].Url()
      == url + "?start=" + Decimal.Show(start + BatchSize * k) + "&end=" + Decimal.Show(start + BatchSize * k + 999)
  {
    ScanPagesRequests(found, url, rs, start);
  }

  ghost predicate UrlsDistinct(reqs: seq<Request>) {
    forall k, l :: 0 <= k < l < |reqs| ==> reqs[k].Url() != reqs[l].Url()
  }

  /** A scan of a log never fetches the same URL twice: the cursor always
      moves on, and the URL names the range. */
  lemma ScanPagesUrlsDistinct(found: string -> set<string>, url: string, rs: seq<Response>, start: nat)
    requires ScanPages(found, url, rs, start).Success?
    ensures UrlsDistinct(ScanPages(found, url, rs, start).value.requests)
  {
    var reqs := ScanPages(found, url, rs, start).value.requests;
    ScanPagesRequests(found, url, rs, start);
    forall k, l | 0 <= k < l < |reqs| ensures reqs[k].Url() != reqs[l].Url() {
      if reqs[k].Url() == reqs[l].Url() {
        UrlDeterminesRange(reqs[k], reqs[l]);
        assert false;
      }
    }
  }

  /** A read page's hits followed by the later pages' hits. */
  lemma ScanPagesStep(found: string -> set<string>, url: string, rs: seq<Response>, start: nat)
    requires ScanPages(found, url, rs, start).Success?
    requires rs != [] && !Stops(rs[0])
    ensures ScanEntries(found, url, rs[0].entries, start).Success?
    ensures ScanPages(found, url, rs[1..], start + BatchSize).Success?
    ensures ScanPages(found, url, rs, start).value.hits
      == ScanEntries(found, url, rs[0].entries, start).value
         + ScanPages(found, url, rs[1..], start + BatchSize).value.hits
    ensures ScanPages(found, url, rs, start).value.requests
      == [PageRequest(url, start)] + ScanPages(found, url, rs[1..], start + BatchSize).value.requests
  {
  }

  /** A log with hits read its first answer as a page. */
  lemma HitsNeedAPage(found: string -> set<string>, url: string, rs: seq<Response>, start: nat)
    requires ScanPages(found, url, rs, start).Success?
    requires ScanPages(found, url, rs, start).value.hits != []
    ensures rs != [] && !Stops(rs[0])
  {
  }

  /** `h` is the report of entry `j` of page `q`: that entry decodes, has brand
      hits, and sits at log index `start + PageOffset(q) + j`. */
  ghost predicate ReportsEntry(h: Hit, found: string -> set<string>, url: string, rs: seq<Response>, start: nat, q: nat, j: nat) {
    && q < |rs| && rs[q].Entries? && j < |rs[q].entries| && rs[q].entries[j].Leaf?
    && h == Hit(url, start + PageOffset(q) + j, found(rs[q].entries[j].text))
    && h.domains != {}
  }

  lemma ReportFromFirstPage(h: Hit, found: string -> set<string>, url: string, rs: seq<Response>, start: nat)
    requires |rs| > 0 && rs[0].Entries?
    requires HitFromEntry(h, found, url, rs[0].entries, start)
    ensures ReportsEntry(h, found, url, rs, start, 0, h.index - start)
  {
  }

  lemma ReportFromLaterPage(h: Hit, found: string -> set<string>, url: string, rs: seq<Response>, start: nat, q: nat, j: nat)
    requires |rs| > 0
    requires ReportsEntry(h, found, url, rs[1..], start + BatchSize, q, j)
    ensures ReportsEntry(h, found, url, rs, start, q + 1, j)
  {
    assert rs[1..][q] == rs[q + 1];
  }

  /** A hit among the first page's hits reports an entry of that page. */
  lemma SourceOnFirstPage(found: string -> set<string>, url: string, rs: seq<Response>, start: nat, k: nat)
    returns (j: nat)
    requires |rs| > 0 && rs[0].Entries? && AllDecodable(rs[0].entries)
    requires k < |ScanEntries(found, url, rs[0].entries, start).value|
    ensures ReportsEntry(ScanEntries(found, url, rs[0].entries, start).value[k], found, url, rs, start, 0, j)
  {
    var page := ScanEntries(found, url, rs[0].entries, start).value;
    HitOfPage(found, url, rs[0].entries, start, k);
    ReportFromFirstPage(page[k], found, url, rs, start);
    j := page[k].index - start;
  }

  /** The page and entry that hit `k` of a log reports: every hit comes from
      an entry of a page read before the log ended. */
  lemma {:induction false} HitSource(found: string -> set<string>, url: string, rs: seq<Response>, start: nat, k: nat)
    returns (q: nat, j: nat)
    requires ScanPages(found, url, rs, start).Success?
    requires k < |ScanPages(found, url, rs, start).value.hits|
    ensures q < FirstStop(rs)
    ensures ReportsEntry(ScanPages(found, url, rs, start).value.hits[k], found, url, rs, start, q, j)
    decreases |rs|
  {
    HitsNeedAPage(found, url, rs, start);
    ScanPagesStep(found, url, rs, start);
    var page := ScanEntries(found, url, rs[0].entries, start).value;
    var rest := ScanPages(found, url, rs[1..], start + BatchSize).value.hits;
    if k < |page| {
      j := SourceOnFirstPage(found, url, rs, start, k);
      AppendLeft(page, rest, k);
      q := 0;
    } else {
      var q', j' := HitSource(found, url, rs[1..], start + BatchSize, k - |page|);
      ReportFromLaterPage(rest[k - |page|], found, url, rs, start, q', j');
      AppendRight(page, rest, k - |page|);
      q, j := q' + 1, j';
    }
  }

  /** `h` reports some entry of a page read before the log ended. */
  ghost predicate ReportsSomeEntry(h: Hit, found: string -> set<string>, url: string, rs: seq<Response>, start: nat) {
    exists q: nat, j: nat :: q < FirstStop(rs) && ReportsEntry(h, found, url, rs, start, q, j)
  }

  /** Every hit of a log reports an entry of a page read before the log ended. */
  lemma ScanPagesSound(found: string -> set<string>, url: string, rs: seq<Response>, start: nat)
    requires ScanPages(found, url, rs, start).Success?
    ensures var hits := ScanPages(found, url, rs, start).value.hits;
      forall k :: 0 <= k < |hits| ==> ReportsSomeEntry(hits[k], found, url, rs, start)
  {
    var hits := ScanPages(found, url, rs, start).value.hits;
    forall k | 0 <= k < |hits| ensures ReportsSomeEntry(hits[k], found, url, rs, start) {
      var q, j := HitSource(found, url, rs, start, k);
    }
  }

  /** Every entry with brand hits on a page read before the log ended is reported. */
  lemma {:induction false} ScanPagesComplete(found: string -> set<string>, url: string, rs: seq<Response>, start: nat, q: nat, j: nat)
    returns (k: nat)
    requires ScanPages(found, url, rs, start).Success?
    requires q < FirstStop(rs) && rs[q].Entries? && j < |rs[q].entries| && EntryHits(rs[q].entries[j], found)
    ensures k < |ScanPages(found, url, rs, start).value.hits|
    ensures ReportsEntry(ScanPages(found, url, rs, start).value.hits[k], found, url, rs, start, q, j)
    decreases |rs|
  {
    ScanPagesStep(found, url, rs, start);
    var page := ScanEntries(found, url, rs[0].entries, start).value;
    var rest := ScanPages(found, url, rs[1..], start + BatchSize).value.hits;
    if q == 0 {
      ScanEntriesHits(found, url, rs[0].entries, start);
      var k' :| 0 <= k' < |page| && page[k'].index == start + j;
      assert HitFromEntry(page[k'], found, url, rs[0].entries, start);
      ReportFromFirstPage(page[k'], found, url, rs, start);
      AppendLeft(page, rest, k');
      k := k';
    } else {
      assert rs[1..][q - 1] == rs[q];
      var k' := ScanPagesComplete(found, url, rs[1..], start + BatchSize, q - 1, j);
      ReportFromLaterPage(rest[k'], found, url, rs, start, q - 1, j);
      AppendRight(page, rest, k');
      k := |page| + k';
    }
  }

  /** Pages no longer than the batch, which is all a log answering the
      requested range can send. */
  ghost predicate PagesWithinBatch(rs: seq<Response>) {
    forall q :: 0 <= q < |rs| && rs[q].Entries? ==> |rs[q].entries| <= BatchSize
  }

  /** When no page is longer than the batch, a log's hits come in strictly
      increasing index order, so each entry is reported at most once. */
  lemma {:induction false} ScanPagesOrdered(found: string -> set<string>, url: string, rs: seq<Response>, start: nat)
    requires ScanPages(found, url, rs, start).Success?
    requires PagesWithinBatch(rs)
    ensures var hits := ScanPages(found, url, rs, start).value.hits;
      IndicesIncrease(hits) && forall k :: 0 <= k < |hits| ==> start <= hits[k].index
    decreases |rs|
  {
    if rs != [] && !Stops(rs[0]) {
      var es := rs[0].entries;
      ScanPagesStep(found, url, rs, start);
      var page := ScanEntries(found, url, es, start).value;
      var rest := ScanPages(found, url, rs[1..], start + BatchSize).value.hits;
      ScanEntriesHits(found, url, es, start);
      assert PagesWithinBatch(rs[1..]) by {
        forall q | 0 <= q < |rs[1..]| && rs[1..][q].Entries? ensures |rs[1..][q].entries| <= BatchSize {
          assert rs[1..][q] == rs[q + 1];
        }
      }
      ScanPagesOrdered(found, url, rs[1..], start + BatchSize);
      assert |es| <= BatchSize;
      forall k | 0 <= k < |page| ensures start <= page[k].index < start + BatchSize {
        assert HitFromEntry(page[k], found, url, es, start);
      }
      IncreasingAppend(page, rest, start, start + BatchSize);
    }
  }

  /** Two runs of increasing indices, the first below `mid` and the second
      from `mid` on, make one increasing run. */
  lemma IncreasingAppend(a: seq<Hit>, b: seq<Hit>, lo: int, mid: int)
    requires IndicesIncrease(a) && IndicesIncrease(b) && lo <= mid
    requires forall k :: 0 <= k < |a| ==> lo <= a[k].index < mid
    requires forall k :: 0 <= k < |b| ==> mid <= b[k].index
    ensures IndicesIncrease(a + b)
    ensures forall k :: 0 <= k < |a + b| ==> lo <= (a + b)[k].index
  {
    var hits := a + b;
    forall k, l | 0 <= k < l < |hits| ensures hits[k].index < hits[l].index {
      if l < |a| {
        assert hits[k] == a[k] && hits[l] == a[l];
      } else if k < |a| {
        assert hits[k] == a[k] && hits[l] == b[l - |a|];
      } else {
        assert hits[k] == b[k - |a|] && hits[l] == b[l - |a|];
      }
    }
    forall k | 0 <= k < |hits| ensures lo <= hits[k].index {
      if k < |a| {
        assert hits[k] == a[k];
      } else {
        assert hits[k] == b[k - |a|];
      }
    }
  }

  /** Answers after the one that ends a log are never read: a log is scanned
      the same whatever follows its first stopping answer. */
  lemma {:induction false} IgnoresAnswersAfterStop(found: string -> set<string>, url: string, rs: seq<Response>, rs': seq<Response>, start: nat)
    requires FirstStop(rs) < |rs| && FirstStop(rs) < |rs'|
    requires rs[..FirstStop(rs) + 1] == rs'[..FirstStop(rs) + 1]
    ensures ScanPages(found, url, rs, start) == ScanPages(found, url, rs', start)
    decreases |rs|
  {
    assert rs[0] == rs[..FirstStop(rs) + 1][0] == rs'[0];
    if !Stops(rs[0]) {
      assert rs[1..][..FirstStop(rs[1..]) + 1] == rs[..FirstStop(rs) + 1][1..];
      assert rs'[1..][..FirstStop(rs[1..]) + 1] == rs'[..FirstStop(rs) + 1][1..];
      IgnoresAnswersAfterStop(found, url, rs[1..], rs'[1..], start + BatchSize);
    }
  }
}
