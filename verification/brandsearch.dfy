/**
  `search_ct_logs_for_brand` end to end: the logs scanned with the brand's
  per-entry analysis, and every hit flattened into one
  `{domain, entry_index, log_url}` record per host name.

  Python iterates over the set of host names of an entry in an order that
  depends on string hashing and on how the set was built; the model takes
  that order as a parameter `order`, one listing per hit, and asks only that
  it visit every element of the hit's set once.
 */
module BrandSearch {
  import opened Text
  import opened Results
  import opened Seqs
  import opened CtLogs
  import opened CtSearch

  /** `ds` lists the elements of `s`, each exactly once. */
  ghost predicate Enumerates(ds: seq<string>, s: set<string>) {
    (forall d :: d in ds <==> d in s) && Distinct(ds)
  }

  /** `order` is an iteration order: it lists the host names of every hit once each. */
  ghost predicate IsIterationOrder(order: Hit -> seq<string>) {
    forall h :: Enumerates(order(h), h.domains)
  }

  /** The records appended for one hit: one per host name, in iteration order. */
  function HitMatches(h: Hit, order: Hit -> seq<string>): (ms: seq<Match>)
    ensures |ms| == |order(h)|
  {
    var ds := order(h);
    seq(|ds|, t requires 0 <= t < |ds| => Match(ds[t], h.index, h.log))
  }

  /** The result list built from the hits in the order the scan found them. */
  function Matches(hits: seq<Hit>, order: Hit -> seq<string>): seq<Match>
    decreases |hits|
  {
    if hits == [] then [] else HitMatches(hits[0], order) + Matches(hits[1..], order)
  }

  /** `search_ct_logs_for_brand(brand, logs)`: the records of every host name
      that contains the brand, ignoring case, or the undecodable entry that
      raised out of the call. */
  function SearchCtLogsForBrand(brand: string, logs: seq<Log>, order: Hit -> seq<string>): (r: Result<seq<Match>, Abort>)
    ensures r.Failure? ==> exists i :: 0 <= i < |logs| && r.error.log == logs[i].url
  {
    match ScanLogs(Matcher(Lower(brand)), logs)
    case Failure(a) => Failure(a)
    case Success(scan) => Success(Matches(scan.hits, order))
  }

  // ---------------------------------------------------------------------
  // From hits to records

  /** Record `m` is the one written for the `t`-th host name, in iteration order, of hit `k`. */
  ghost predicate MatchFrom(m: Match, hits: seq<Hit>, order: Hit -> seq<string>, k: nat, t: nat) {
    && k < |hits|
    && t < |order(hits[k])|
    && m == Match(order(hits[k])[t], hits[k].index, hits[k].log)
  }

  lemma MatchesStep(hits: seq<Hit>, order: Hit -> seq<string>)
    requires hits != []
    ensures Matches(hits, order) == HitMatches(hits[0], order) + Matches(hits[1..], order)
  {
  }

  /** Every record comes from one host name of one hit. */
  lemma {:induction false} MatchSource(hits: seq<Hit>, order: Hit -> seq<string>, n: nat) returns (k: nat, t: nat)
    requires n < |Matches(hits, order)|
    ensures MatchFrom(Matches(hits, order)[n], hits, order, k, t)
    decreases |hits|
  {
    MatchesStep(hits, order);
    var first := HitMatches(hits[0], order);
    var rest := Matches(hits[1..], order);
    if n < |first| {
      AppendLeft(first, rest, n);
      k, t := 0, n;
    } else {
      var k', t' := MatchSource(hits[1..], order, n - |first|);
      AppendRight(first, rest, n - |first|);
      assert hits[1..][k'] == hits[k' + 1];
      k, t := k' + 1, t';
    }
  }

  /** Records keep the order of the hits, and within a hit the iteration order. */
  lemma {:induction false} MatchPair(hits: seq<Hit>, order: Hit -> seq<string>, a: nat, b: nat)
    returns (ka: nat, ta: nat, kb: nat, tb: nat)
    requires a < b < |Matches(hits, order)|
    ensures MatchFrom(Matches(hits, order)[a], hits, order, ka, ta)
    ensures MatchFrom(Matches(hits, order)[b], hits, order, kb, tb)
    ensures ka < kb || (ka == kb && ta < tb)
    decreases |hits|
  {
    MatchesStep(hits, order);
    var first := HitMatches(hits[0], order);
    var rest := Matches(hits[1..], order);
    if b < |first| {
      AppendLeft(first, rest, a);
      AppendLeft(first, rest, b);
      ka, ta, kb, tb := 0, a, 0, b;
    } else if a < |first| {
      AppendLeft(first, rest, a);
      var k', t' := MatchSource(hits[1..], order, b - |first|);
      AppendRight(first, rest, b - |first|);
      assert hits[1..][k'] == hits[k' + 1];
      ka, ta, kb, tb := 0, a, k' + 1, t';
    } else {
      var ka', ta', kb', tb' := MatchPair(hits[1..], order, a - |first|, b - |first|);
      AppendRight(first, rest, a - |first|);
      AppendRight(first, rest, b - |first|);
      assert hits[1..][ka'] == hits[ka' + 1] && hits[1..][kb'] == hits[kb' + 1];
      ka, ta, kb, tb := ka' + 1, ta', kb' + 1, tb';
    }
  }

  /** Every host name of every hit gets its record. */
  lemma {:induction false} MatchPresent(hits: seq<Hit>, order: Hit -> seq<string>, k: nat, t: nat) returns (n: nat)
    requires k < |hits| && t < |order(hits[k])|
    ensures n < |Matches(hits, order)|
    ensures Matches(hits, order)[n] == Match(order(hits[k])[t], hits[k].index, hits[k].log)
    decreases k
  {
    MatchesStep(hits, order);
    var first := HitMatches(hits[0], order);
    var rest := Matches(hits[1..], order);
    if k == 0 {
      AppendLeft(first, rest, t);
      n := t;
    } else {
      assert hits[1..][k - 1] == hits[k];
      var n' := MatchPresent(hits[1..], order, k - 1, t);
      AppendRight(first, rest, n');
      n := |first| + n';
    }
  }

  /** No two hits share both their log and their index. */
  ghost predicate DistinctPositions(hits: seq<Hit>) {
    forall k, l :: 0 <= k < l < |hits| ==> hits[k].log != hits[l].log || hits[k].index != hits[l].index
  }

  /** Hits that never repeat a (log, index) pair give records that never repeat. */
  lemma MatchesDistinct(hits: seq<Hit>, order: Hit -> seq<string>)
    requires IsIterationOrder(order) && DistinctPositions(hits)
    ensures Distinct(Matches(hits, order))
  {
    var ms := Matches(hits, order);
    forall a, b | 0 <= a < b < |ms| ensures ms[a] != ms[b] {
      var ka, ta, kb, tb := MatchPair(hits, order, a, b);
      if ka == kb {
        assert Enumerates(order(hits[ka]), hits[ka].domains);
      }
    }
  }

  // ---------------------------------------------------------------------
  // The search

  /** Host name `d` of entry `j` on page `q` of log `i` is one of the entry's
      `CN=` or `DNS:` captures and contains the brand, ignoring case, and the
      log read that page before it ended. */
  ghost predicate Targets(brand: string, logs: seq<Log>, i: nat, q: nat, j: nat, d: string) {
    && i < |logs|
    && q < FirstStop(logs[i].responses)
    && logs[i].responses[q].Entries?
    && j < |logs[i].responses[q].entries|
    && logs[i].responses[q].entries[j].Leaf?
    && d in Candidates(logs[i].responses[q].entries[j].text)
    && Contains(Lower(d), Lower(brand))
  }

  /** Record `m` reports host name `m.domain` of entry `j` on page `q` of
      log `i`, which targets the brand, at that entry's index in the log. */
  ghost predicate ReportsTarget(m: Match, brand: string, logs: seq<Log>, i: nat, q: nat, j: nat) {
    Targets(brand, logs, i, q, j, m.domain) && m.entryIndex == PageOffset(q) + j && m.logUrl == logs[i].url
  }

  /** Every record names a host name that targets the brand, the log it came
      from and its entry's index in that log. */
  lemma SearchSound(brand: string, logs: seq<Log>, order: Hit -> seq<string>, n: nat) returns (i: nat, q: nat, j: nat)
    requires IsIterationOrder(order)
    requires SearchCtLogsForBrand(brand, logs, order).Success?
    requires n < |SearchCtLogsForBrand(brand, logs, order).value|
    ensures ReportsTarget(SearchCtLogsForBrand(brand, logs, order).value[n], brand, logs, i, q, j)
  {
    var found := Matcher(Lower(brand));
    var hits := ScanLogs(found, logs).value.hits;
    var k, t := MatchSource(hits, order, n);
    var i', k' := HitLog(found, logs, k);
    q, j := HitSource(found, logs[i'].url, logs[i'].responses, 0, k');
    assert Enumerates(order(hits[k]), hits[k].domains);
    i := i';
  }

  /** Every host name that targets the brand on a page a log read is reported,
      with its entry's index and its log. */
  lemma SearchComplete(brand: string, logs: seq<Log>, order: Hit -> seq<string>, i: nat, q: nat, j: nat, d: string)
    requires IsIterationOrder(order)
    requires SearchCtLogsForBrand(brand, logs, order).Success?
    requires Targets(brand, logs, i, q, j, d)
    ensures Match(d, PageOffset(q) + j, logs[i].url) in SearchCtLogsForBrand(brand, logs, order).value
  {
    var found := Matcher(Lower(brand));
    var hits := ScanLogs(found, logs).value.hits;
    var text := logs[i].responses[q].entries[j].text;
    assert d in found(text);
    var k := ScanLogsComplete(found, logs, i, q, j);
    assert hits[k].domains == found(text);
    var ds := order(hits[k]);
    assert Enumerates(ds, hits[k].domains);
    var t :| 0 <= t < |ds| && ds[t] == d;
    var n := MatchPresent(hits, order, k, t);
    assert Matches(hits, order)[n] == Match(d, PageOffset(q) + j, logs[i].url);
  }

  /** With distinct log URLs and pages no longer than the batch, no record
      appears twice. */
  lemma SearchExactlyOnce(brand: string, logs: seq<Log>, order: Hit -> seq<string>)
    requires IsIterationOrder(order)
    requires SearchCtLogsForBrand(brand, logs, order).Success?
    requires DistinctUrls(logs) && AllPagesWithinBatch(logs)
    ensures Distinct(SearchCtLogsForBrand(brand, logs, order).value)
  {
    var found := Matcher(Lower(brand));
    ScanLogsLogOrdered(found, logs);
    var hits := ScanLogs(found, logs).value.hits;
    assert DistinctPositions(hits) by {
      forall k, l | 0 <= k < l < |hits| ensures hits[k].log != hits[l].log || hits[k].index != hits[l].index {
        assert hits[k].log != hits[l].log || hits[k].index < hits[l].index;
      }
    }
    MatchesDistinct(hits, order);
  }

  /** The records of a list of hits are those of its two parts, one after the other. */
  lemma {:induction false} MatchesAppend(a: seq<Hit>, b: seq<Hit>, order: Hit -> seq<string>)
    ensures Matches(a + b, order) == Matches(a, order) + Matches(b, order)
    decreases |a|
  {
    if a == [] {
      assert a + b == b;
    } else {
      assert (a + b)[0] == a[0] && (a + b)[1..] == a[1..] + b;
      MatchesStep(a + b, order);
      MatchesStep(a, order);
      MatchesAppend(a[1..], b, order);
    }
  }

  /** Searching a list of logs is searching its two parts, one after the
      other, for every split point: the search returns a list exactly when
      both parts do, and then it is the first part's records followed by the
      second's. This holds whether or not log URLs repeat. */
  lemma SearchSplits(brand: string, logs: seq<Log>, order: Hit -> seq<string>, m: nat)
    requires m <= |logs|
    ensures SearchCtLogsForBrand(brand, logs, order).Success? <==>
      SearchCtLogsForBrand(brand, logs[..m], order).Success? && SearchCtLogsForBrand(brand, logs[m..], order).Success?
    ensures SearchCtLogsForBrand(brand, logs, order).Success? ==>
      SearchCtLogsForBrand(brand, logs, order).value
        == SearchCtLogsForBrand(brand, logs[..m], order).value + SearchCtLogsForBrand(brand, logs[m..], order).value
  {
    var found := Matcher(Lower(brand));
    ScanLogsSplit(found, logs, m);
    if ScanLogs(found, logs).Success? {
      MatchesAppend(ScanLogs(found, logs[..m]).value.hits, ScanLogs(found, logs[m..]).value.hits, order);
    }
  }

  /** The records of one log on its own: one per host name of each of its
      hits, in the order the log's scan found them. */
  lemma SearchOneLog(brand: string, log: Log, order: Hit -> seq<string>)
    ensures SearchCtLogsForBrand(brand, [log], order).Success? <==> ScanLog(Matcher(Lower(brand)), log).Success?
    ensures SearchCtLogsForBrand(brand, [log], order).Success? ==>
      SearchCtLogsForBrand(brand, [log], order).value == Matches(ScanLog(Matcher(Lower(brand)), log).value.hits, order)
  {
    var found := Matcher(Lower(brand));
    var logs := [log];
    ScanLogsCons(found, logs);
    assert logs[1..] == [] && logs[0] == log;
    assert ScanLogs(found, logs[1..]) == Success(Scan([], []));
    if ScanLog(found, log).Success? {
      var hits := ScanLog(found, log).value.hits;
      assert hits + [] == hits;
    }
  }

  /** In a successful search, log `i` contributes the records it would give on
      its own, as one block, after the records of the logs before it and
      before those of the logs after it. */
  lemma SearchLogBlock(brand: string, logs: seq<Log>, order: Hit -> seq<string>, i: nat)
    requires SearchCtLogsForBrand(brand, logs, order).Success? && i < |logs|
    ensures SearchCtLogsForBrand(brand, logs[..i], order).Success?
    ensures SearchCtLogsForBrand(brand, [logs[i]], order).Success?
    ensures SearchCtLogsForBrand(brand, logs[i + 1..], order).Success?
    ensures SearchCtLogsForBrand(brand, logs, order).value
      == SearchCtLogsForBrand(brand, logs[..i], order).value
       + SearchCtLogsForBrand(brand, [logs[i]], order).value
       + SearchCtLogsForBrand(brand, logs[i + 1..], order).value
  {
    SearchSplits(brand, logs, order, i);
    var rest := logs[i..];
    assert rest[..1] == [logs[i]] && rest[1..] == logs[i + 1..];
    SearchSplits(brand, rest, order, 1);
  }

  /** The records of each log come together, in the order the logs are given. */
  ghost predicate MatchesGrouped(ms: seq<Match>, logs: seq<Log>) {
    forall a, b, i, j ::
      (0 <= a < b < |ms| && 0 <= i < |logs| && 0 <= j < |logs|
       && ms[a].logUrl == logs[i].url && ms[b].logUrl == logs[j].url) ==> i <= j
  }

  lemma SearchGroupedByLog(brand: string, logs: seq<Log>, order: Hit -> seq<string>)
    requires SearchCtLogsForBrand(brand, logs, order).Success?
    requires DistinctUrls(logs)
    ensures MatchesGrouped(SearchCtLogsForBrand(brand, logs, order).value, logs)
  {
    var found := Matcher(Lower(brand));
    var hits := ScanLogs(found, logs).value.hits;
    var ms := Matches(hits, order);
    ScanLogsGrouped(found, logs);
    forall a, b, i, j | 0 <= a < b < |ms| && 0 <= i < |logs| && 0 <= j < |logs|
      && ms[a].logUrl == logs[i].url && ms[b].logUrl == logs[j].url
      ensures i <= j
    {
      var ka, ta, kb, tb := MatchPair(hits, order, a, b);
      if ka == kb {
        SameUrlSameLog(logs, i, j);
      }
    }
  }

  /** Within one log, records come in entry-index order. */
  ghost predicate IndicesInOrder(ms: seq<Match>) {
    forall a, b :: 0 <= a < b < |ms| && ms[a].logUrl == ms[b].logUrl ==> ms[a].entryIndex <= ms[b].entryIndex
  }

  lemma SearchIndicesInOrder(brand: string, logs: seq<Log>, order: Hit -> seq<string>)
    requires SearchCtLogsForBrand(brand, logs, order).Success?
    requires DistinctUrls(logs) && AllPagesWithinBatch(logs)
    ensures IndicesInOrder(SearchCtLogsForBrand(brand, logs, order).value)
  {
    var found := Matcher(Lower(brand));
    var hits := ScanLogs(found, logs).value.hits;
    var ms := Matches(hits, order);
    ScanLogsLogOrdered(found, logs);
    forall a, b | 0 <= a < b < |ms| && ms[a].logUrl == ms[b].logUrl
      ensures ms[a].entryIndex <= ms[b].entryIndex
    {
      var ka, ta, kb, tb := MatchPair(hits, order, a, b);
    }
  }

  /** Every page each log reads before it ends decodes entirely. */
  ghost predicate LogsDecodable(logs: seq<Log>) {
    forall i :: 0 <= i < |logs| ==> ReadPagesDecodable(logs[i].responses)
  }

  /** The search returns a list exactly when no log reads an undecodable entry. */
  lemma SearchSucceeds(brand: string, logs: seq<Log>, order: Hit -> seq<string>)
    ensures SearchCtLogsForBrand(brand, logs, order).Success? <==> LogsDecodable(logs)
  {
    var found := Matcher(Lower(brand));
    ScanLogsSucceeds(found, logs);
    forall i | 0 <= i < |logs|
      ensures ScanLog(found, logs[i]).Success? <==> ReadPagesDecodable(logs[i].responses)
    {
      ScanPagesSucceeds(found, logs[i].url, logs[i].responses, 0);
    }
  }

  /** A search that raises names the first undecodable entry it reads: on
      page `q` of log `i`, at index `PageOffset(q) + j`; every log before `i`
      and every page and entry of log `i` before it decoded. */
  lemma SearchAbort(brand: string, logs: seq<Log>, order: Hit -> seq<string>) returns (i: nat, q: nat, j: nat)
    requires SearchCtLogsForBrand(brand, logs, order).Failure?
    ensures i < |logs| && q < FirstStop(logs[i].responses)
    ensures logs[i].responses[q].Entries? && j < |logs[i].responses[q].entries|
    ensures logs[i].responses[q].entries[j].Undecodable?
    ensures AllDecodable(logs[i].responses[q].entries[..j])
    ensures forall p :: 0 <= p < q ==> logs[i].responses[p].Entries? && AllDecodable(logs[i].responses[p].entries)
    ensures forall p :: 0 <= p < i ==> ReadPagesDecodable(logs[p].responses)
    ensures SearchCtLogsForBrand(brand, logs, order).error == Abort(logs[i].url, PageOffset(q) + j)
  {
    var found := Matcher(Lower(brand));
    i := ScanLogsAbort(found, logs);
    q, j := AbortSource(found, logs[i].url, logs[i].responses, 0);
    forall p | 0 <= p < i ensures ReadPagesDecodable(logs[p].responses) {
      ScanPagesSucceeds(found, logs[p].url, logs[p].responses, 0);
    }
  }

  /** The requests a successful search sends to log `i` form one block: one
      per page read plus the one whose answer ended the log, request `k`
      asking for entries `PageOffset(k)` to `PageOffset(k) + BatchSize - 1`. */
  lemma SearchRequests(brand: string, logs: seq<Log>, i: nat) returns (p: nat)
    requires ScanLogs(Matcher(Lower(brand)), logs).Success? && i < |logs|
    ensures var reqs := ScanLogs(Matcher(Lower(brand)), logs).value.requests;
      p + RequestsSent(logs[i].responses) <= |reqs|
      && RequestsFrom(reqs[p..p + RequestsSent(logs[i].responses)], logs[i].url, 0)
  {
    var found := Matcher(Lower(brand));
    var _, p' := LogKept(found, logs, i);
    ScanPagesRequests(found, logs[i].url, logs[i].responses, 0);
    p := p';
  }
}
