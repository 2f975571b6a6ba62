/**
  The outer loop of `search_ct_logs_for_brand`: every log in the order given,
  each from index 0, and the flat list of `{domain, entry_index, log_url}`
  records built from the hits.
 */
module CtSearch {
  import opened Text
  import opened Results
  import opened CtLogs
  import opened Seqs

  /** One log scanned from index 0, `found` giving the host names each
      decoded entry yields. */
  function ScanLog(found: string -> set<string>, log: Log): (r: Result<Scan, Abort>)
    ensures r.Failure? ==> r.error.log == log.url
  {
    ScanPages(found, log.url, log.responses, 0)
  }

  /** The `for log_url in logs` loop. A log that stops only ends its own
      pages; an undecodable entry raises out of the whole call. */
  function ScanLogs(found: string -> set<string>, logs: seq<Log>): (r: Result<Scan, Abort>)
    ensures r.Failure? ==> exists i :: 0 <= i < |logs| && r.error.log == logs[i].url
    decreases |logs|
  {
    if logs == [] then Success(Scan([], []))
    else
      match ScanLog(found, logs[0])
      case Failure(a) => Failure(a)
      case Success(s) =>
        match ScanLogs(found, logs[1..])
        case Failure(a) => Failure(a)
        case Success(t) => Success(Scan(s.hits + t.hits, s.requests + t.requests))
  }

  ghost predicate AllLogsComplete(found: string -> set<string>, logs: seq<Log>) {
    forall i :: 0 <= i < |logs| ==> ScanLog(found, logs[i]).Success?
  }

  lemma AllLogsCompleteStep(found: string -> set<string>, logs: seq<Log>)
    requires logs != []
    ensures AllLogsComplete(found, logs) <==>
      ScanLog(found, logs[0]).Success? && AllLogsComplete(found, logs[1..])
  {
    if ScanLog(found, logs[0]).Success? && AllLogsComplete(found, logs[1..]) {
      forall i | 0 <= i < |logs| ensures ScanLog(found, logs[i]).Success? {
        if i > 0 {
          assert logs[i] == logs[1..][i - 1];
        }
      }
    }
    if AllLogsComplete(found, logs) {
      forall i | 0 <= i < |logs[1..]| ensures ScanLog(found, logs[1..][i]).Success? {
        assert logs[1..][i] == logs[i + 1];
      }
    }
  }

  /** The whole scan completes exactly when every log's scan does: stopping
      answers never raise out of the call. */
  lemma {:induction false} ScanLogsSucceeds(found: string -> set<string>, logs: seq<Log>)
    ensures ScanLogs(found, logs).Success? <==> AllLogsComplete(found, logs)
    decreases |logs|
  {
    if logs != [] {
      AllLogsCompleteStep(found, logs);
      ScanLogsSucceeds(found, logs[1..]);
    }
  }

  /** A raising scan raises the abort of the first log whose scan raises. */
  lemma {:induction false} ScanLogsAbort(found: string -> set<string>, logs: seq<Log>) returns (i: nat)
    requires ScanLogs(found, logs).Failure?
    ensures i < |logs| && ScanLog(found, logs[i]).Failure?
    ensures ScanLogs(found, logs).error == ScanLog(found, logs[i]).error
    ensures forall p :: 0 <= p < i ==> ScanLog(found, logs[p]).Success?
    decreases |logs|
  {
    if ScanLog(found, logs[0]).Failure? {
      i := 0;
    } else {
      var i' := ScanLogsAbort(found, logs[1..]);
      assert logs[1..][i'] == logs[i' + 1];
      forall p | 0 <= p < i' + 1 ensures ScanLog(found, logs[p]).Success? {
        if p > 0 {
          assert logs[p] == logs[1..][p - 1];
        }
      }
      i := i' + 1;
    }
  }

  lemma ScanLogsStep(found: string -> set<string>, logs: seq<Log>)
    requires logs != [] && ScanLogs(found, logs).Success?
    ensures ScanLog(found, logs[0]).Success? && ScanLogs(found, logs[1..]).Success?
    ensures ScanLogs(found, logs).value.hits
      == ScanLog(found, logs[0]).value.hits + ScanLogs(found, logs[1..]).value.hits
    ensures ScanLogs(found, logs).value.requests
      == ScanLog(found, logs[0]).value.requests + ScanLogs(found, logs[1..]).value.requests
  {
  }

  /** Two scans run one after the other: the first failure, or both scans' hits and requests in order. */
  function Join(a: Result<Scan, Abort>, b: Result<Scan, Abort>): (r: Result<Scan, Abort>)
    ensures r.Success? <==> a.Success? && b.Success?
    ensures r.Success? ==> r.value.hits == a.value.hits + b.value.hits && r.value.requests == a.value.requests + b.value.requests
  {
    match a
    case Failure(e) => Failure(e)
    case Success(s) =>
      match b
      case Failure(e) => Failure(e)
      case Success(t) => Success(Scan(s.hits + t.hits, s.requests + t.requests))
  }

  lemma JoinAssociative(x: Result<Scan, Abort>, y: Result<Scan, Abort>, z: Result<Scan, Abort>)
    ensures Join(x, Join(y, z)) == Join(Join(x, y), z)
  {
    if x.Success? && y.Success? && z.Success? {
      var s, t, u := x.value, y.value, z.value;
      assert s.hits + (t.hits + u.hits) == (s.hits + t.hits) + u.hits;
      assert s.requests + (t.requests + u.requests) == (s.requests + t.requests) + u.requests;
    }
  }

  /** The first log's scan followed by the scan of the others. */
  lemma ScanLogsCons(found: string -> set<string>, logs: seq<Log>)
    requires logs != []
    ensures ScanLogs(found, logs) == Join(ScanLog(found, logs[0]), ScanLogs(found, logs[1..]))
  {
  }

  /** Scanning a list of logs is scanning its two parts, one after the
      other, for every split point: the scan completes exactly when both
      parts do, and then its hits and requests are the first part's
      followed by the second's; otherwise it raises the first part's
      abort if there is one. */
  lemma {:induction false} ScanLogsSplit(found: string -> set<string>, logs: seq<Log>, m: nat)
    requires m <= |logs|
    ensures ScanLogs(found, logs) == Join(ScanLogs(found, logs[..m]), ScanLogs(found, logs[m..]))
    decreases m
  {
    if m == 0 {
      assert logs[..0] == [] && logs[0..] == logs;
      assert ScanLogs(found, []) == Success(Scan([], []));
      assert Join(Success(Scan([], [])), ScanLogs(found, logs)) == ScanLogs(found, logs) by {
        if ScanLogs(found, logs).Success? {
          var t := ScanLogs(found, logs).value;
          assert [] + t.hits == t.hits && [] + t.requests == t.requests;
        }
      }
    } else {
      var head, tail := logs[..m], logs[1..];
      assert head[0] == logs[0] && head[1..] == tail[..m - 1];
      assert logs[m..] == tail[m - 1..];
      ScanLogsCons(found, logs);
      ScanLogsCons(found, head);
      ScanLogsSplit(found, tail, m - 1);
      JoinAssociative(ScanLog(found, logs[0]), ScanLogs(found, tail[..m - 1]), ScanLogs(found, logs[m..]));
    }
  }

  /** Every log's own hits and requests appear unchanged, as one block, in the
      whole scan's: what one log finds or sends does not depend on how the
      other logs answer, and a log that stops early keeps what it found. */
  lemma {:induction false} LogKept(found: string -> set<string>, logs: seq<Log>, i: nat) returns (o: nat, p: nat)
    requires ScanLogs(found, logs).Success? && i < |logs|
    ensures ScanLog(found, logs[i]).Success?
    ensures BlockAt(ScanLogs(found, logs).value.hits, o, ScanLog(found, logs[i]).value.hits)
    ensures BlockAt(ScanLogs(found, logs).value.requests, p, ScanLog(found, logs[i]).value.requests)
    decreases |logs|
  {
    ScanLogsStep(found, logs);
    var first := ScanLog(found, logs[0]).value;
    var rest := ScanLogs(found, logs[1..]).value;
    if i == 0 {
      o, p := 0, 0;
      BlockAtStart(first.hits, rest.hits);
      BlockAtStart(first.requests, rest.requests);
    } else {
      assert logs[1..][i - 1] == logs[i];
      var o', p' := LogKept(found, logs[1..], i - 1);
      var own := ScanLog(found, logs[i]).value;
      BlockShift(first.hits, rest.hits, o', own.hits);
      BlockShift(first.requests, rest.requests, p', own.requests);
      o, p := |first.hits| + o', |first.requests| + p';
    }
  }

  /** Every hit of the whole scan is a hit of one of the logs, and names that log's URL. */
  lemma {:induction false} HitLog(found: string -> set<string>, logs: seq<Log>, k: nat) returns (i: nat, k': nat)
    requires ScanLogs(found, logs).Success?
    requires k < |ScanLogs(found, logs).value.hits|
    ensures i < |logs| && ScanLog(found, logs[i]).Success?
    ensures k' < |ScanLog(found, logs[i]).value.hits|
    ensures ScanLogs(found, logs).value.hits[k] == ScanLog(found, logs[i]).value.hits[k']
    ensures ScanLogs(found, logs).value.hits[k].log == logs[i].url
    decreases |logs|
  {
    ScanLogsStep(found, logs);
    var first := ScanLog(found, logs[0]).value.hits;
    var rest := ScanLogs(found, logs[1..]).value.hits;
    if k < |first| {
      i, k' := 0, k;
      AppendLeft(first, rest, k);
      var q, e := HitSource(found, logs[0].url, logs[0].responses, 0, k);
    } else {
      var i', k'' := HitLog(found, logs[1..], k - |first|);
      assert logs[1..][i'] == logs[i' + 1];
      AppendRight(first, rest, k - |first|);
      i, k' := i' + 1, k'';
    }
  }

  predicate DistinctUrls(logs: seq<Log>) {
    forall i, j :: 0 <= i < j < |logs| ==> logs[i].url != logs[j].url
  }

  lemma DistinctUrlsTail(logs: seq<Log>)
    requires logs != [] && DistinctUrls(logs)
    ensures DistinctUrls(logs[1..])
  {
    forall i, j | 0 <= i < j < |logs[1..]| ensures logs[1..][i].url != logs[1..][j].url {
      assert logs[1..][i] == logs[i + 1] && logs[1..][j] == logs[j + 1];
    }
  }

  lemma SameUrlSameLog(logs: seq<Log>, a: nat, b: nat)
    requires DistinctUrls(logs) && a < |logs| && b < |logs| && logs[a].url == logs[b].url
    ensures a == b
  {
  }

  /** Hits come grouped by log, in the order the logs are given. */
  ghost predicate GroupedByLog(hits: seq<Hit>, logs: seq<Log>) {
    forall k, l, i, j ::
      (0 <= k < l < |hits| && 0 <= i < |logs| && 0 <= j < |logs|
       && hits[k].log == logs[i].url && hits[l].log == logs[j].url) ==> i <= j
  }

  /** With distinct log URLs, the hits of the whole scan are grouped by log in
      input order. */
  lemma {:induction false} ScanLogsGrouped(found: string -> set<string>, logs: seq<Log>)
    requires ScanLogs(found, logs).Success? && DistinctUrls(logs)
    ensures GroupedByLog(ScanLogs(found, logs).value.hits, logs)
    decreases |logs|
  {
    if logs != [] {
      ScanLogsStep(found, logs);
      var first := ScanLog(found, logs[0]).value.hits;
      var rest := ScanLogs(found, logs[1..]).value.hits;
      var hits := first + rest;
      DistinctUrlsTail(logs);
      ScanLogsGrouped(found, logs[1..]);
      forall k, l, i, j | 0 <= k < l < |hits| && 0 <= i < |logs| && 0 <= j < |logs|
        && hits[k].log == logs[i].url && hits[l].log == logs[j].url
        ensures i <= j
      {
        GroupedStep(found, logs, k, l, i, j);
      }
    }
  }

  lemma {:induction false} GroupedStep(found: string -> set<string>, logs: seq<Log>, k: nat, l: nat, i: nat, j: nat)
    requires logs != [] && ScanLogs(found, logs).Success? && DistinctUrls(logs)
    requires GroupedByLog(ScanLogs(found, logs[1..]).value.hits, logs[1..])
    requires var hits := ScanLogs(found, logs).value.hits;
      k < l < |hits| && i < |logs| && j < |logs| && hits[k].log == logs[i].url && hits[l].log == logs[j].url
    ensures i <= j
  {
    ScanLogsStep(found, logs);
    var first := ScanLog(found, logs[0]).value.hits;
    var rest := ScanLogs(found, logs[1..]).value.hits;
    var hits := first + rest;
    if k < |first| {
      var q, e := HitSource(found, logs[0].url, logs[0].responses, 0, k);
      AppendLeft(first, rest, k);
      assert logs[i].url == logs[0].url;
    } else {
      var kr, lr := k - |first|, l - |first|;
      var ik, _ := HitLog(found, logs[1..], kr);
      var il, _ := HitLog(found, logs[1..], lr);
      AppendRight(first, rest, kr);
      AppendRight(first, rest, lr);
      assert hits[k] == rest[kr] && hits[l] == rest[lr];
      assert rest[kr].log == logs[1..][ik].url && rest[lr].log == logs[1..][il].url;
      assert logs[1..][ik] == logs[ik + 1] && logs[1..][il] == logs[il + 1];
      assert logs[i].url == logs[ik + 1].url && logs[j].url == logs[il + 1].url;
      SameUrlSameLog(logs, i, ik + 1);
      SameUrlSameLog(logs, j, il + 1);
    }
  }

  /** Every log answers within the requested range. */
  ghost predicate AllPagesWithinBatch(logs: seq<Log>) {
    forall i :: 0 <= i < |logs| ==> PagesWithinBatch(logs[i].responses)
  }

  /** Two hits of the same log come in increasing index order. */
  ghost predicate LogOrdered(hits: seq<Hit>) {
    forall k, l :: 0 <= k < l < |hits| ==> hits[k].log != hits[l].log || hits[k].index < hits[l].index
  }

  /** With distinct log URLs and pages within the batch, the hits of each log
      come in strictly increasing index order, so no (log, index) pair is
      reported twice. */
  lemma {:induction false} ScanLogsLogOrdered(found: string -> set<string>, logs: seq<Log>)
    requires ScanLogs(found, logs).Success? && DistinctUrls(logs) && AllPagesWithinBatch(logs)
    ensures LogOrdered(ScanLogs(found, logs).value.hits)
    decreases |logs|
  {
    if logs != [] {
      ScanLogsStep(found, logs);
      var first := ScanLog(found, logs[0]).value.hits;
      var rest := ScanLogs(found, logs[1..]).value.hits;
      var hits := first + rest;
      DistinctUrlsTail(logs);
      assert AllPagesWithinBatch(logs[1..]) by {
        forall i | 0 <= i < |logs[1..]| ensures PagesWithinBatch(logs[1..][i].responses) {
          assert logs[1..][i] == logs[i + 1];
        }
      }
      ScanLogsLogOrdered(found, logs[1..]);
      ScanPagesOrdered(found, logs[0].url, logs[0].responses, 0);
      forall k, l | 0 <= k < l < |hits| ensures hits[k].log != hits[l].log || hits[k].index < hits[l].index {
        LogOrderedStep(found, logs, k, l);
      }
    }
  }

  lemma {:induction false} LogOrderedStep(found: string -> set<string>, logs: seq<Log>, k: nat, l: nat)
    requires logs != [] && ScanLogs(found, logs).Success? && DistinctUrls(logs)
    requires IndicesIncrease(ScanLog(found, logs[0]).value.hits)
    requires LogOrdered(ScanLogs(found, logs[1..]).value.hits)
    requires k < l < |ScanLogs(found, logs).value.hits|
    ensures var hits := ScanLogs(found, logs).value.hits;
      hits[k].log != hits[l].log || hits[k].index < hits[l].index
  {
    ScanLogsStep(found, logs);
    var first := ScanLog(found, logs[0]).value.hits;
    var rest := ScanLogs(found, logs[1..]).value.hits;
    var hits := first + rest;
    if l < |first| {
      AppendLeft(first, rest, k);
      AppendLeft(first, rest, l);
    } else if k < |first| {
      var q, e := HitSource(found, logs[0].url, logs[0].responses, 0, k);
      AppendLeft(first, rest, k);
      var lr := l - |first|;
      var il, _ := HitLog(found, logs[1..], lr);
      AppendRight(first, rest, lr);
      assert logs[1..][il] == logs[il + 1];
      assert hits[k].log == logs[0].url && hits[l].log == logs[il + 1].url;
    } else {
      AppendRight(first, rest, k - |first|);
      AppendRight(first, rest, l - |first|);
      assert hits[k] == rest[k - |first|] && hits[l] == rest[l - |first|];
    }
  }

  /** Every entry with hits on a page a log read is reported in the whole
      scan, at its index in that log. */
  lemma ScanLogsComplete(found: string -> set<string>, logs: seq<Log>, i: nat, q: nat, j: nat) returns (k: nat)
    requires ScanLogs(found, logs).Success? && i < |logs|
    requires q < FirstStop(logs[i].responses) && logs[i].responses[q].Entries?
    requires j < |logs[i].responses[q].entries| && EntryHits(logs[i].responses[q].entries[j], found)
    ensures k < |ScanLogs(found, logs).value.hits|
    ensures ReportsEntry(ScanLogs(found, logs).value.hits[k], found, logs[i].url, logs[i].responses, 0, q, j)
  {
    var url, rs := logs[i].url, logs[i].responses;
    var o, _ := LogKept(found, logs, i);
    var own := ScanPages(found, url, rs, 0).value.hits;
    var k' := ScanPagesComplete(found, url, rs, 0, q, j);
    BlockAtIndex(ScanLogs(found, logs).value.hits, o, own, k');
    k := o + k';
  }
}
