/**
  The decisions the Flask handlers of the relay make between receiving a
  request and answering it: `scan_url` checks the request, and maps the
  Web Risk `uris.search` answer onto three fixed scores or onto an error
  status; `submit_url` checks the request and builds the `uris:submit`
  body; `check_submission_status` derives a status from an operation.

  The request body, the environment variables and the upstream answers are
  parameters; the HTTP calls, credentials and logging are not modelled.
 */
module Relay {
  import opened Text
  import opened Results
  import opened JsonValues
  import Utils
  import Decimal

  /** What a handler answers: `jsonify(body), status`, or the 500 of a Python
      exception whose text (Flask's own page, or `str(e)`) the model does not track. */
  datatype Reply =
    | Respond(status: nat, body: Json)
    | ServerError

  // ---------------------------------------------------------------------
  // scan_url

  /** The threat types every scan asks about, in the order the scores list them. */
  const ThreatTypes: seq<string> := ["MALWARE", "SOCIAL_ENGINEERING", "UNWANTED_SOFTWARE"]

  /** The `uris.search` lookup the handler sends: API key, normalised URI and threat types. */
  datatype Lookup = Lookup(key: string, uri: string, threatTypes: seq<string>)

  /** How the lookup went: `requests` raised before any answer (`reason` is
      `str(e)`), or the service answered with a status, a body text and that
      text's JSON decoding or the decoder's message. */
  datatype Upstream =
    | Unreachable(reason: string)
    | Answered(status: nat, text: string, json: Result<Json, string>)

  /** The part of `scan_url` before the lookup: the reply that ends the
      request early, or the lookup to send. */
  function ScanRequest(data: Json, apiKey: Option<string>): (r: Result<Lookup, Reply>)
    ensures r.Failure? && r.error.Respond? ==> r.error.status in {400, 500}
    ensures (r.Failure? && r.error.Respond? && r.error.status == 400) <==> data.Obj? && !Truthy(Get(data.fields, "url", Null))
    ensures r.Success? ==>
      && data.Obj? && Get(data.fields, "url", Null).Str?
      && apiKey == Some(r.value.key) && r.value.key != []
      && r.value.uri == Utils.FormatUrl(Get(data.fields, "url", Null).s)
      && r.value.threatTypes == ThreatTypes
  {
    if !data.Obj? then Failure(ServerError)
    else
      var raw := Get(data.fields, "url", Null);
      if !Truthy(raw) then Failure(Respond(400, ErrorBody("URL is required")))
      else if !raw.Str? then Failure(ServerError)
      else if apiKey.None? || apiKey.value == [] then
        Failure(Respond(500, ErrorBody("Server configuration error: API key missing")))
      else Success(Lookup(apiKey.value, Utils.FormatUrl(raw.s), ThreatTypes))
  }

  /** `raise_for_status()`: 4xx and 5xx answers raise `HTTPError`. */
  predicate IsHttpError(status: nat) {
    400 <= status < 600
  }

  /** `response.json() if response.text else {}` for an answer that did not
      raise; `None` when the text is not JSON. */
  function Payload(up: Upstream): Option<Json>
    requires up.Answered?
  {
    if up.text == [] then Some(Obj(map[]))
    else if up.json.Failure? then None
    else Some(up.json.value)
  }

  /** Python's `t in container` for a string `t`: list membership, substring
      of a string, key of a dict; any other container raises `TypeError` (`None`). */
  function PyIn(t: string, container: Json): Option<bool> {
    match container
    case Arr(items) => Some(Str(t) in items)
    case Str(s) => Some(Contains(s, t))
    case Obj(fields) => Some(t in fields)
    case _ => None
  }

  /** The threat types among the three that the decoded answer flags, or
      `None` when reading it raises. */
  function Flagged(data: Json): (r: Option<set<string>>)
    ensures r.Some? ==> forall t :: t in r.value ==> t in ThreatTypes
  {
    if !data.Obj? then None
    else
      var threat := Get(data.fields, "threat", Null);
      if !Truthy(threat) then Some({})
      else if !threat.Obj? then None
      else
        var types := Get(threat.fields, "threatTypes", Arr([]));
        if PyIn("", types).None? then None
        else Some(set t | t in ThreatTypes && PyIn(t, types) == Some(true))
  }

  function Score(threatType: string, high: bool): Json {
    Obj(map["threatType" := Str(threatType), "confidenceLevel" := Str(if high then "HIGH" else "SAFE")])
  }

  /** The `scores` list: one entry per threat type, in the fixed order. */
  function Scores(flagged: set<string>): (ss: seq<Json>)
    ensures |ss| == |ThreatTypes|
  {
    seq(|ThreatTypes|, i requires 0 <= i < |ThreatTypes| => Score(ThreatTypes[i], ThreatTypes[i] in flagged))
  }

  function ScoresBody(flagged: set<string>): Json {
    Obj(map["scores" := Arr(Scores(flagged))])
  }

  /** The part of `scan_url` after the lookup, inside its `try`. Every
      exception is caught, so the handler always answers with JSON, and the
      status classifies the failure: 502 for an HTTP error status, 504 when
      no answer arrived or its body is not JSON, 500 when the body cannot be
      read as a verdict, and 200 otherwise. */
  function ScanReply(up: Upstream): (r: Reply)
    ensures r.Respond? && r.status in {200, 500, 502, 504}
    ensures r.status == 502 <==> up.Answered? && IsHttpError(up.status)
    ensures r.status == 504 <==> up.Unreachable? || (!IsHttpError(up.status) && Payload(up).None?)
    ensures r.status == 500 <==>
      up.Answered? && !IsHttpError(up.status) && Payload(up).Some? && Flagged(Payload(up).value).None?
  {
    match up
    case Unreachable(reason) => Respond(504, ErrorBody("Could not connect to Web Risk API: " + reason))
    case Answered(status, text, json) =>
      if IsHttpError(status) then
        Respond(502, Obj(map["error" := Str("Web Risk API request failed: " + Decimal.Show(status)),
                             "details" := Str(text)]))
      else if Payload(up).None? then
        Respond(504, ErrorBody("Could not connect to Web Risk API: " + json.error))
      else
        match Flagged(Payload(up).value)
        case None => Respond(500, ErrorBody("Internal server error"))
        case Some(flagged) => Respond(200, ScoresBody(flagged))
  }

  /** `scan_url`, the lookup answering with `up` if it is sent at all. */
  function ScanUrl(data: Json, apiKey: Option<string>, up: Upstream): (r: Reply)
    ensures r.Respond? && r.status == 400 <==> data.Obj? && !Truthy(Get(data.fields, "url", Null))
  {
    match ScanRequest(data, apiKey)
    case Failure(reply) => reply
    case Success(_) => ScanReply(up)
  }

  /** A request without a truthy `url` is refused with 400 whatever the
      configuration and whatever the lookup would have answered: it is never sent. */
  lemma ScanNeedsUrl(data: Json, key1: Option<string>, key2: Option<string>, up1: Upstream, up2: Upstream)
    requires data.Obj? && !Truthy(Get(data.fields, "url", Null))
    ensures ScanUrl(data, key1, up1) == ScanUrl(data, key2, up2) == Respond(400, ErrorBody("URL is required"))
  {
  }

  /** The lookup carries the configured key and the normalised URL. */
  lemma ScanLooksUpFormattedUrl(data: Json, apiKey: Option<string>)
    requires ScanRequest(data, apiKey).Success?
    ensures data.Obj? && Get(data.fields, "url", Null).Str?
    ensures var l := ScanRequest(data, apiKey).value;
      Some(l.key) == apiKey && l.key != []
      && l.uri == Utils.FormatUrl(Get(data.fields, "url", Null).s)
      && l.threatTypes == ThreatTypes
  {
  }

  /** The answer names threat `t`: it did not raise, and its decoded body has
      a truthy `threat` object whose `threatTypes` (default `[]`) contains `t`. */
  ghost predicate Listed(up: Upstream, t: string) {
    && up.Answered? && !IsHttpError(up.status) && Payload(up).Some?
    && Payload(up).value.Obj?
    && var threat := Get(Payload(up).value.fields, "threat", Null);
    && Truthy(threat) && threat.Obj?
    && PyIn(t, Get(threat.fields, "threatTypes", Arr([]))) == Some(true)
  }

  /** A successful scan answers exactly three scores, one per threat type in
      the fixed order, each `HIGH` exactly when the answer names that type
      and `SAFE` otherwise; other types the answer names change nothing. */
  lemma ScanScores(up: Upstream) returns (flagged: set<string>)
    requires ScanReply(up).status == 200
    ensures ScanReply(up).body == ScoresBody(flagged)
    ensures forall i :: 0 <= i < |ThreatTypes| ==> (ThreatTypes[i] in flagged <==> Listed(up, ThreatTypes[i]))
  {
    flagged := Flagged(Payload(up).value).value;
  }

  lemma ScoresInOrder(flagged: set<string>, i: nat)
    requires i < |ThreatTypes|
    ensures Scores(flagged)[i].Obj?
    ensures Scores(flagged)[i].fields["threatType"] == Str(ThreatTypes[i])
    ensures Scores(flagged)[i].fields["confidenceLevel"] == Str("HIGH") <==> ThreatTypes[i] in flagged
    ensures Scores(flagged)[i].fields["confidenceLevel"] == Str("SAFE") <==> ThreatTypes[i] !in flagged
  {
  }

  /** An empty answer body means no threat: all three scores are `SAFE`. */
  lemma EmptyBodyAllSafe(status: nat, json: Result<Json, string>)
    requires !IsHttpError(status)
    ensures ScanReply(Answered(status, [], json)) == Respond(200, ScoresBody({}))
  {
  }

  /** So does a decoded object without `threat`. */
  lemma NoThreatAllSafe(status: nat, text: string, fields: map<string, Json>)
    requires !IsHttpError(status) && text != [] && "threat" !in fields
    ensures ScanReply(Answered(status, text, Success(Obj(fields)))) == Respond(200, ScoresBody({}))
  {
  }

  /** The 502 answer reports the upstream status in decimal and passes its text on. */
  lemma HttpErrorDetails(status: nat, text: string, json: Result<Json, string>)
    requires IsHttpError(status)
    ensures var r := ScanReply(Answered(status, text, json));
      r.body.Obj? && "error" in r.body.fields && "details" in r.body.fields
      && r.body.fields["details"] == Str(text)
      && r.body.fields["error"] == Str("Web Risk API request failed: " + Decimal.Show(status))
  {
  }

  // ---------------------------------------------------------------------
  // submit_url

  const DefaultPlatform := "PLATFORM_UNSPECIFIED"
  const DefaultRegionCodes: Json := Arr([Str("US")])

  /** What a submission reports: the normalised URI and the caller's
      abuse type, evidence, platform and region codes, passed on as given. */
  datatype Report = Report(uri: string, abuseType: Json, evidence: Json, platform: Json, regionCodes: Json)

  /** The `uris:submit` request to send. */
  datatype Submission = Submission(endpoint: string, body: Json)

  /** The `submission_request` body: confidence always `HIGH`, the one label
      `MANUAL_VERIFICATION`, and the evidence as the one comment. */
  function SubmissionBody(r: Report): (body: Json)
    ensures body.Obj? && body.fields.Keys == {"submission", "threatInfo", "threatDiscovery"}
    ensures ReadSubmission(body) == Some(r)
  {
    Obj(map[
      "submission" := Obj(map["uri" := Str(r.uri)]),
      "threatInfo" := Obj(map[
        "abuseType" := r.abuseType,
        "threatConfidence" := Obj(map["level" := Str("HIGH")]),
        "threatJustification" := Obj(map[
          "labels" := Arr([Str("MANUAL_VERIFICATION")]),
          "comments" := Arr([r.evidence])])]),
      "threatDiscovery" := Obj(map["platform" := r.platform, "regionCodes" := r.regionCodes])])
  }

  /** Reads a submission body back, checking the parts every submission shares. */
  function ReadSubmission(body: Json): Option<Report> {
    if !body.Obj? || !("submission" in body.fields && "threatInfo" in body.fields && "threatDiscovery" in body.fields)
    then None
    else
      var sub, info, disc := body.fields["submission"], body.fields["threatInfo"], body.fields["threatDiscovery"];
      if !(sub.Obj? && info.Obj? && disc.Obj?) then None
      else if !("uri" in sub.fields && sub.fields["uri"].Str?) then None
      else if !("abuseType" in info.fields && "threatConfidence" in info.fields && "threatJustification" in info.fields) then None
      else if info.fields["threatConfidence"] != Obj(map["level" := Str("HIGH")]) then None
      else
        var just := info.fields["threatJustification"];
        if !(just.Obj? && "labels" in just.fields && "comments" in just.fields) then None
        else if just.fields["labels"] != Arr([Str("MANUAL_VERIFICATION")]) then None
        else if !(just.fields["comments"].Arr? && |just.fields["comments"].items| == 1) then None
        else if !("platform" in disc.fields && "regionCodes" in disc.fields) then None
        else Some(Report(sub.fields["uri"].s, info.fields["abuseType"], just.fields["comments"].items[0],
                         disc.fields["platform"], disc.fields["regionCodes"]))
  }

  /** The body keeps everything the submission reports, and has the shared parts. */
  lemma SubmissionRoundTrip(r: Report)
    ensures ReadSubmission(SubmissionBody(r)) == Some(r)
  {
  }

  /** Endpoint of `uris:submit` for a project. */
  function SubmitEndpoint(project: string): string {
    "https://webrisk.googleapis.com/v1/projects/" + project + "/uris:submit"
  }

  /** The part of `submit_url` before the call: the reply that ends the
      request early, or the submission to send. */
  function PrepareSubmission(data: Json, project: Option<string>): (r: Result<Submission, Reply>)
    ensures (r.Failure? && r.error.Respond? && r.error.status == 400)
      <==> data.Obj? && !(Truthy(Get(data.fields, "url", Null)) && Truthy(Get(data.fields, "evidence", Null))
                          && Truthy(Get(data.fields, "abuseType", Null)))
  {
    if !data.Obj? then Failure(ServerError)
    else
      var url := Get(data.fields, "url", Null);
      var evidence := Get(data.fields, "evidence", Null);
      var abuseType := Get(data.fields, "abuseType", Null);
      var platform := Get(data.fields, "platform", Str(DefaultPlatform));
      var regionCodes := Get(data.fields, "regionCodes", DefaultRegionCodes);
      if !(Truthy(url) && Truthy(evidence) && Truthy(abuseType)) then
        Failure(Respond(400, ErrorBody("Missing required fields")))
      else if !url.Str? then Failure(ServerError)
      else if project.None? || project.value == [] then
        Failure(Respond(500, ErrorBody("Project configuration missing")))
      else
        var report := Report(Utils.FormatUrl(url.s), abuseType, evidence, platform, regionCodes);
        Success(Submission(SubmitEndpoint(project.value), SubmissionBody(report)))
  }

  /** The three required fields are checked before anything else is looked
      at, the project configuration included. */
  lemma SubmitNeedsFields(data: Json, project1: Option<string>, project2: Option<string>)
    requires data.Obj?
    requires !Truthy(Get(data.fields, "url", Null)) || !Truthy(Get(data.fields, "evidence", Null))
      || !Truthy(Get(data.fields, "abuseType", Null))
    ensures PrepareSubmission(data, project1) == PrepareSubmission(data, project2)
      == Failure(Respond(400, ErrorBody("Missing required fields")))
  {
  }

  /** A submission is sent to the configured project and reports the
      normalised URL and the caller's fields, `platform` and `regionCodes`
      defaulting to `PLATFORM_UNSPECIFIED` and `['US']` when absent. */
  lemma SubmissionContents(data: Json, project: Option<string>)
    requires PrepareSubmission(data, project).Success?
    ensures data.Obj? && project.Some? && project.value != []
    ensures var s := PrepareSubmission(data, project).value;
      var url := Get(data.fields, "url", Null);
      && s.endpoint == SubmitEndpoint(project.value)
      && url.Str?
      && ReadSubmission(s.body) == Some(Report(Utils.FormatUrl(url.s),
           data.fields["abuseType"], data.fields["evidence"],
           Get(data.fields, "platform", Str(DefaultPlatform)),
           Get(data.fields, "regionCodes", DefaultRegionCodes)))
  {
    var url := Get(data.fields, "url", Null);
    SubmissionRoundTrip(Report(Utils.FormatUrl(url.s), data.fields["abuseType"], data.fields["evidence"],
      Get(data.fields, "platform", Str(DefaultPlatform)), Get(data.fields, "regionCodes", DefaultRegionCodes)));
  }

  /** Absent `platform` and `regionCodes` become `PLATFORM_UNSPECIFIED` and `['US']`. */
  lemma SubmissionDefaults(data: Json, project: Option<string>)
    requires PrepareSubmission(data, project).Success?
    requires data.Obj? && "platform" !in data.fields && "regionCodes" !in data.fields
    ensures var r := ReadSubmission(PrepareSubmission(data, project).value.body);
      r.Some? && r.value.platform == Str(DefaultPlatform) && r.value.regionCodes == Arr([Str("US")])
  {
    SubmissionContents(data, project);
  }

  /** A non-string `url` makes `format_url` raise before the project is read. */
  lemma SubmitUrlMustBeText(data: Json, project: Option<string>)
    requires data.Obj? && Truthy(Get(data.fields, "url", Null)) && !Get(data.fields, "url", Null).Str?
    requires Truthy(Get(data.fields, "evidence", Null)) && Truthy(Get(data.fields, "abuseType", Null))
    ensures PrepareSubmission(data, project) == Failure(ServerError)
  {
  }

  // ---------------------------------------------------------------------
  // check_submission_status

  /** The status of an operation answered by the service: `PENDING` until
      `done` is truthy; then the `state` of a dict `metadata` (missing
      `metadata` counts as `{}`), `SUCCEEDED` when it has none, and
      `PENDING` when `metadata` is not a dict. `None` when `op` is not a dict. */
  function OperationStatus(op: Json): (r: Option<Json>)
    ensures r.None? <==> !op.Obj?
    ensures r.Some? ==> var md := Get(op.fields, "metadata", Obj(map[]));
      r.value == Str("PENDING") || r.value == Str("SUCCEEDED") || (md.Obj? && "state" in md.fields && r.value == md.fields["state"])
    ensures r == Some(Str("SUCCEEDED")) ==> Truthy(Get(op.fields, "done", Null))
  {
    if !op.Obj? then None
    else if !Truthy(Get(op.fields, "done", Null)) then Some(Str("PENDING"))
    else
      var metadata := Get(op.fields, "metadata", Obj(map[]));
      if !metadata.Obj? then Some(Str("PENDING"))
      else Some(Get(metadata.fields, "state", Str("SUCCEEDED")))
  }

  /** `check_submission_status`'s answer to an operation it fetched. */
  function StatusReply(op: Json): (r: Reply)
    ensures r.ServerError? <==> !op.Obj?
    ensures r.Respond? ==>
      && r.status == 200 && r.body.Obj?
      && r.body.fields.Keys == {"operation", "status", "details"}
      && r.body.fields["operation"] == Get(op.fields, "name", Null)
      && Some(r.body.fields["status"]) == OperationStatus(op)
      && r.body.fields["details"] == op
  {
    match OperationStatus(op)
    case None => ServerError
    case Some(status) =>
      Respond(200, Obj(map["operation" := Get(op.fields, "name", Null), "status" := status, "details" := op]))
  }

  /** Without a truthy `done` the status is `PENDING`, whatever the metadata says. */
  lemma PendingUntilDone(op: Json)
    requires op.Obj? && !Truthy(Get(op.fields, "done", Null))
    ensures OperationStatus(op) == Some(Str("PENDING"))
  {
  }

  /** `SUCCEEDED` is reported by default only for a finished operation whose
      metadata is a dict without `state`. */
  lemma SucceededByDefault(op: Json)
    requires op.Obj?
    ensures var md := Get(op.fields, "metadata", Obj(map[]));
      (Truthy(Get(op.fields, "done", Null)) && md.Obj? && "state" !in md.fields)
      ==> OperationStatus(op) == Some(Str("SUCCEEDED"))
  {
  }

  /** A finished operation with a dict `metadata` reports its `state` unchanged. */
  lemma StateWhenDone(op: Json)
    requires op.Obj? && Truthy(Get(op.fields, "done", Null))
    requires "metadata" in op.fields && op.fields["metadata"].Obj? && "state" in op.fields["metadata"].fields
    ensures OperationStatus(op) == Some(op.fields["metadata"].fields["state"])
  {
  }

  /** A finished operation whose `metadata` is present but not a dict (for
      instance `null`) still reads as `PENDING`. */
  lemma NonDictMetadataPending(op: Json)
    requires op.Obj? && Truthy(Get(op.fields, "done", Null))
    requires "metadata" in op.fields && !op.fields["metadata"].Obj?
    ensures OperationStatus(op) == Some(Str("PENDING"))
  {
  }

  /** The status depends on `done` and `metadata` alone. */
  lemma StatusReadsDoneAndMetadata(op1: Json, op2: Json)
    requires op1.Obj? && op2.Obj?
    requires Get(op1.fields, "done", Null) == Get(op2.fields, "done", Null)
    requires Get(op1.fields, "metadata", Obj(map[])) == Get(op2.fields, "metadata", Obj(map[]))
    ensures OperationStatus(op1) == OperationStatus(op2)
  {
  }
}
