/**
  The relay's input helpers: URL normalisation before a reputation lookup or an
  abuse submission, and the evidence check for abuse submissions.
 */
module Utils {
  import opened Text
  import opened Results
  import opened Seqs

  const Http := "http://"
  const Https := "https://"

  /** Python's `s.startswith(('http://', 'https://'))`: case-sensitive. */
  predicate HasScheme(s: string) {
    Http <= s || Https <= s
  }

  predicate OnlySlashes(s: string) {
    forall k :: 0 <= k < |s| ==> s[k] == '/'
  }

  /** Python's `s.rstrip('/')`: the longest prefix of `s` not ending in `/`,
      all of whose removed characters are slashes. */
  function StripTrailingSlashes(s: string): (r: string)
    ensures r <= s
    ensures OnlySlashes(s[|r|..])
    ensures r == [] || r[|r| - 1] != '/'
  {
    if |s| > 0 && s[|s| - 1] == '/' then StripTrailingSlashes(s[..|s| - 1]) else s
  }

  /** The trimmed input with `https://` put in front unless it already names a scheme. */
  function WithScheme(trimmed: string): string {
    if HasScheme(trimmed) then trimmed else Https + trimmed
  }

  /** Whatever the input, the string handed to slash-stripping begins with a scheme. */
  lemma WithSchemeHasScheme(t: string)
    ensures HasScheme(WithScheme(t))
  {
    if !HasScheme(t) {
      assert WithScheme(t) == Https + t;
    }
  }

  /** `format_url`: trim whitespace, add `https://` when no scheme is given, drop
      every trailing slash. The result is never empty: it always begins with
      the scheme name and colon, which no slash-stripping can reach. */
  function FormatUrl(url: string): (r: string)
    ensures "http:" <= r || "https:" <= r
    ensures r[|r| - 1] != '/'
    ensures r <= WithScheme(Strip(url))
    ensures OnlySlashes(WithScheme(Strip(url))[|r|..])
  {
    var p := WithScheme(Strip(url));
    WithSchemeHasScheme(Strip(url));
    if Http <= p then
      assert "http:" <= Http;
      StripKeepsPrefix(p, "http:");
      StripTrailingSlashes(p)
    else
      assert "https:" <= Https;
      StripKeepsPrefix(p, "https:");
      StripTrailingSlashes(p)
  }

  /** Slash-stripping never reaches into a prefix that does not end in a slash. */
  lemma {:induction false} StripKeepsPrefix(p: string, pre: string)
    requires pre <= p && |pre| > 0 && pre[|pre| - 1] != '/'
    ensures pre <= StripTrailingSlashes(p)
    decreases |p|
  {
    if p[|p| - 1] == '/' {
      assert p[|pre| - 1] == pre[|pre| - 1];
      assert pre <= p[..|p| - 1];
      StripKeepsPrefix(p[..|p| - 1], pre);
    }
  }

  /** Removing trailing slashes from `a + b` only touches `b` when `b` holds
      something other than slashes. */
  lemma {:induction false} StripTrailingSlashesAppend(a: string, b: string)
    requires !OnlySlashes(b)
    ensures StripTrailingSlashes(a + b) == a + StripTrailingSlashes(b)
    decreases |b|
  {
    if b[|b| - 1] == '/' {
      var b' := b[..|b| - 1];
      assert !OnlySlashes(b') by {
        var k :| 0 <= k < |b| && b[k] != '/';
        assert b'[k] == b[k];
      }
      assert (a + b)[..|a + b| - 1] == a + b';
      StripTrailingSlashesAppend(a, b');
    }
  }

  /** A trimmed input that already names a scheme keeps that scheme, and
      whatever follows it loses only its trailing slashes, provided something
      other than slashes follows. */
  lemma KeepsGivenScheme(url: string, scheme: string, rest: string)
    requires scheme == Http || scheme == Https
    requires Strip(url) == scheme + rest
    requires !OnlySlashes(rest)
    ensures FormatUrl(url) == scheme + StripTrailingSlashes(rest)
  {
    assert scheme <= Strip(url);
    StripTrailingSlashesAppend(scheme, rest);
  }

  /** A trimmed input without a scheme gets `https://`, and its own text loses
      only its trailing slashes. */
  lemma AddsHttps(url: string)
    requires !HasScheme(Strip(url))
    requires !OnlySlashes(Strip(url))
    ensures FormatUrl(url) == Https + StripTrailingSlashes(Strip(url))
  {
    StripTrailingSlashesAppend(Https, Strip(url));
  }

  /** A URL that already has a scheme and ends in neither a slash nor
      whitespace is left exactly as it is. */
  lemma FormattedIsFixedPoint(u: string)
    requires HasScheme(u)
    requires u[|u| - 1] != '/' && !IsSpace(u[|u| - 1])
    ensures FormatUrl(u) == u
  {
    assert u[0] == 'h';
    AlreadyTrimmed(u);
    assert WithScheme(Strip(u)) == u;
  }

  lemma AlreadyTrimmed(u: string)
    requires u == [] || (!IsSpace(u[0]) && !IsSpace(u[|u| - 1]))
    ensures Strip(u) == u
  {
    StripUnique(u, "", u, "");
  }

  lemma NoSchemeWithoutH(u: string)
    requires |u| > 0 && u[0] != 'h' && u[0] != '/'
    ensures !HasScheme(u) && !OnlySlashes(u)
  {
    assert u[0] != Http[0] && u[0] != Https[0];
  }

  lemma DropSlash(u: string)
    ensures StripTrailingSlashes(u + "/") == StripTrailingSlashes(u)
  {
    assert (u + "/")[..|u|] == u;
  }

  /** An input that is empty once trimmed becomes the bare scheme `https:`:
      the slashes of the added `https://` are trailing slashes too. */
  lemma BlankBecomesScheme(url: string)
    requires Strip(url) == ""
    ensures FormatUrl(url) == "https:"
  {
    EmptyGetsHttps();
    HttpsParts();
    DropSlash("https:" + "/");
    DropSlash("https:");
    KeptWithoutSlash("https:");
  }

  lemma EmptyGetsHttps()
    ensures WithScheme("") == Https
  {
    assert !HasScheme("");
  }

  lemma HttpsParts()
    ensures Https == "https:" + "/" + "/"
  {
  }

  lemma KeptWithoutSlash(u: string)
    requires |u| > 0 && u[|u| - 1] != '/'
    ensures StripTrailingSlashes(u) == u
  {
  }

  /** Normalisation is not idempotent: a blank input becomes `https:`, which
      has no `//` and so gets a second scheme on the next pass. */
  lemma NotIdempotent(url: string)
    requires Strip(url) == ""
    ensures FormatUrl(FormatUrl(url)) == "https://https:"
  {
    BlankBecomesScheme(url);
    var once := FormatUrl(url);
    BareSchemeFacts();
    AlreadyTrimmed(once);
    AddsHttps(once);
    KeptWithoutSlash(once);
  }

  lemma BareSchemeFacts()
    ensures !HasScheme("https:") && !OnlySlashes("https:")
    ensures Https + "https:" == "https://https:"
  {
    assert |"https:"| < |Http| < |Https|;
    assert "https:"[0] != '/';
  }

  /** A bare host with a trailing slash: it gets `https://` and loses the slash. */
  lemma ExampleBareHost()
    ensures FormatUrl("example.com/") == "https://example.com"
  {
    var host := "example.com";
    BareHostSpelling();
    AlreadyTrimmed(host + "/");
    NoSchemeWithoutH(host + "/");
    AddsHttps(host + "/");
    DropSlash(host);
    KeptWithoutSlash(host);
  }

  lemma BareHostSpelling()
    ensures "example.com" + "/" == "example.com/"
    ensures Https + "example.com" == "https://example.com"
  {
  }

  /** A URL with a scheme and one trailing slash loses just that slash. */
  lemma OneTrailingSlashDropped(u: string)
    requires HasScheme(u)
    requires u[|u| - 1] != '/' && !IsSpace(u[|u| - 1])
    ensures FormatUrl(u + "/") == u
  {
    var v := u + "/";
    assert u <= v;
    assert v[0] == 'h';
    AlreadyTrimmed(v);
    assert WithScheme(Strip(v)) == v;
    DropSlash(u);
    FormattedIsFixedPoint(u);
  }

  /** An `http://` URL with a trailing slash keeps its scheme and loses the slash. */
  lemma ExampleHttp()
    ensures FormatUrl("http://example.com/") == "http://example.com"
  {
    var u := "http://example.com";
    assert Http <= u;
    assert u + "/" == "http://example.com/";
    OneTrailingSlashDropped(u);
  }

  /** An input that is a scheme followed by slashes only loses the slashes of
      the scheme as well. */
  lemma SchemeSlashesStripped()
    ensures FormatUrl("http://") == "http:"
  {
    AlreadyTrimmed("http://");
    assert Http <= "http://";
    DropSlash("http:/");
    DropSlash("http:");
  }

  // ---------------------------------------------------------------------
  // Evidence validation

  const MinEvidenceLength: nat := 10
  const PhishingKeywords: seq<string> := ["brand", "impersonating", "legitimate", "credentials"]
  const MalwareKeywords: seq<string> := ["executable", "malware", "infection", "behavior"]

  const TooShortMessage := "Evidence must be detailed enough to show clear policy violation"
  const SufficientMessage := "Evidence is sufficient"

  /** The keyword list for a submission type; any other type, including `None`, has none. */
  function Keywords(submissionType: Option<string>): seq<string> {
    if submissionType == Some("phishing") then PhishingKeywords
    else if submissionType == Some("malware") then MalwareKeywords
    else []
  }

  /** Python's rendering of the submission type inside an f-string. */
  function TypeName(submissionType: Option<string>): string {
    match submissionType
    case None => "None"
    case Some(s) => s
  }

  function MissingKeywordsMessage(submissionType: Option<string>): string {
    "Evidence should describe how this violates " + TypeName(submissionType) + " policies"
  }

  /** `sum(1 for word in keywords if word.lower() in text)`. */
  function CountFound(keywords: seq<string>, text: string): (n: nat)
    ensures n <= |keywords|
    ensures n == 0 <==> forall k :: 0 <= k < |keywords| ==> !Contains(text, Lower(keywords[k]))
    ensures n == |keywords| <==> forall k :: 0 <= k < |keywords| ==> Contains(text, Lower(keywords[k]))
  {
    if keywords == [] then 0
    else (if Contains(text, Lower(keywords[0])) then 1 else 0) + CountFound(keywords[1..], text)
  }

  /** The distinct words of `keywords` whose lower-case form occurs in `text`. */
  function FoundIn(keywords: seq<string>, text: string): (found: set<string>)
    ensures forall w :: w in found <==> w in keywords && Contains(text, Lower(w))
  {
    if keywords == [] then {}
    else (if Contains(text, Lower(keywords[0])) then {keywords[0]} else {}) + FoundIn(keywords[1..], text)
  }

  /** The distinct keywords of a submission type that occur in the evidence, ignoring case. */
  function FoundKeywords(evidence: string, submissionType: Option<string>): set<string> {
    FoundIn(Keywords(submissionType), Lower(evidence))
  }

  /** Over a list without repetitions, the count of listed words found equals
      the number of distinct words found: no keyword is counted twice. */
  lemma {:induction false} CountFoundIsSetSize(keywords: seq<string>, text: string)
    requires Distinct(keywords)
    ensures CountFound(keywords, text) == |FoundIn(keywords, text)|
  {
    if keywords != [] {
      var rest := keywords[1..];
      assert Distinct(rest);
      CountFoundIsSetSize(rest, text);
      assert keywords[0] !in rest;
      assert keywords[0] !in FoundIn(rest, text);
    }
  }

  lemma KeywordListsDistinct(submissionType: Option<string>)
    ensures Distinct(Keywords(submissionType))
  {
    var ws := Keywords(submissionType);
    forall i, j | 0 <= i < j < |ws| ensures ws[i] != ws[j] {
      assert |ws[i]| != |ws[j]|;
    }
  }

  /** The count the source computes is the number of distinct keywords found. */
  lemma FoundKeywordsCounted(evidence: string, submissionType: Option<string>)
    ensures CountFound(Keywords(submissionType), Lower(evidence)) == |FoundKeywords(evidence, submissionType)|
  {
    KeywordListsDistinct(submissionType);
    CountFoundIsSetSize(Keywords(submissionType), Lower(evidence));
  }

  datatype Verdict = Verdict(accepted: bool, message: string)

  /** `validate_submission_evidence`: accepted exactly when the trimmed evidence
      has at least ten characters and at least two distinct keywords of the
      submission type occur in it, ignoring case. */
  function ValidateEvidence(evidence: Option<string>, submissionType: Option<string>): (v: Verdict)
    ensures v.accepted <==>
      evidence.Some? && |Strip(evidence.value)| >= MinEvidenceLength
      && |FoundKeywords(evidence.value, submissionType)| >= 2
    ensures evidence.None? || |Strip(evidence.value)| < MinEvidenceLength ==> v == Verdict(false, TooShortMessage)
    ensures evidence.Some? && |Strip(evidence.value)| >= MinEvidenceLength && !v.accepted ==>
      v.message == MissingKeywordsMessage(submissionType)
    ensures v.accepted ==> v.message == SufficientMessage
  {
    if evidence.None? || evidence.value == "" || |Strip(evidence.value)| < MinEvidenceLength then
      Verdict(false, TooShortMessage)
    else
      FoundKeywordsCounted(evidence.value, submissionType);
      if CountFound(Keywords(submissionType), Lower(evidence.value)) < 2 then
        Verdict(false, MissingKeywordsMessage(submissionType))
      else
        Verdict(true, SufficientMessage)
  }

  /** A submission type without a keyword list never passes. */
  lemma UnknownTypeRejected(evidence: Option<string>, submissionType: Option<string>)
    requires submissionType != Some("phishing") && submissionType != Some("malware")
    ensures !ValidateEvidence(evidence, submissionType).accepted
  {
    assert FoundKeywords(evidence.GetOr(""), submissionType) == {};
  }

  /** The verdict does not change when the evidence changes only in ASCII case. */
  lemma VerdictIgnoresCase(e1: string, e2: string, submissionType: Option<string>)
    requires Lower(e1) == Lower(e2)
    ensures ValidateEvidence(Some(e1), submissionType) == ValidateEvidence(Some(e2), submissionType)
  {
    forall k | 0 <= k < |e1| ensures IsSpace(e1[k]) == IsSpace(e2[k]) {
      LowerKeepsSpace(e1[k]);
      LowerKeepsSpace(e2[k]);
      assert LowerChar(e1[k]) == Lower(e1)[k] == Lower(e2)[k] == LowerChar(e2[k]);
    }
    StripLengthFollowsSpaces(e1, e2);
  }
}
