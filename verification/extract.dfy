/**
  Host-name extraction from a decoded log entry: Python's
  `re.findall(tag + r"([^,\n]+)", text)` for a literal tag such as `CN=` or
  `DNS:`. The regular-expression engine scans left to right; where the tag
  occurs and is followed by at least one character other than `,` and
  newline, it captures the longest such run and resumes after it;
  otherwise it moves one character on.
 */
module Extract {
  import opened Text

  predicate IsDelimiter(c: char) {
    c == ',' || c == '\n'
  }

  /** A candidate host name: a non-empty run of characters other than `,` and newline. */
  predicate IsCandidate(s: string) {
    |s| > 0 && forall k :: 0 <= k < |s| ==> !IsDelimiter(s[k])
  }

  /** End of the longest run of non-delimiters starting at `i`. */
  function RunEnd(s: string, i: nat): (j: nat)
    requires i <= |s|
    ensures i <= j <= |s|
    ensures forall k :: i <= k < j ==> !IsDelimiter(s[k])
    ensures j == |s| || IsDelimiter(s[j])
    decreases |s| - i
  {
    if i == |s| || IsDelimiter(s[i]) then i else RunEnd(s, i + 1)
  }

  /** The pattern matches at `p`: the tag is there and at least one captured character follows. */
  predicate MatchesAt(s: string, tag: string, p: nat) {
    p + |tag| < |s| && s[p..p + |tag|] == tag && !IsDelimiter(s[p + |tag|])
  }

  /** Where a match starting at `p` ends: the greedy run stops at a delimiter or the end of the text. */
  function MatchEnd(s: string, tag: string, p: nat): (e: nat)
    requires MatchesAt(s, tag, p)
    ensures p + |tag| < e <= |s|
  {
    RunEnd(s, p + |tag|)
  }

  /** Start positions of the matches the scan reports from position `i` on.
      They are matches, they do not overlap, and every match start that the
      scan skips lies inside an earlier reported match. */
  function MatchStarts(s: string, tag: string, i: nat): (ps: seq<nat>)
    requires 0 < |tag| && i <= |s|
    ensures forall k :: 0 <= k < |ps| ==> i <= ps[k] && MatchesAt(s, tag, ps[k])
    ensures forall k :: 0 < k < |ps| ==> MatchEnd(s, tag, ps[k - 1]) <= ps[k]
    decreases |s| - i
  {
    if i == |s| then []
    else if MatchesAt(s, tag, i) then
      var rest := MatchStarts(s, tag, MatchEnd(s, tag, i));
      assert forall k :: 0 < k < |[i] + rest| ==> ([i] + rest)[k] == rest[k - 1];
      [i] + rest
    else MatchStarts(s, tag, i + 1)
  }

  /** No match start is lost: the scan from `i` reports every match start at
      or after `i` except those lying inside a match it reported. */
  lemma {:induction false} MatchStartsComplete(s: string, tag: string, i: nat, q: nat)
    requires 0 < |tag| && i <= q && MatchesAt(s, tag, q)
    ensures var ps := MatchStarts(s, tag, i);
      q in ps || exists k :: 0 <= k < |ps| && ps[k] < q < MatchEnd(s, tag, ps[k])
    decreases |s| - i
  {
    var ps := MatchStarts(s, tag, i);
    if i == q {
      assert ps[0] == q;
    } else if MatchesAt(s, tag, i) {
      var e := MatchEnd(s, tag, i);
      var rest := MatchStarts(s, tag, e);
      assert ps == [i] + rest;
      if q >= e {
        MatchStartsComplete(s, tag, e, q);
        if q !in rest {
          var k :| 0 <= k < |rest| && rest[k] < q < MatchEnd(s, tag, rest[k]);
          assert ps[k + 1] == rest[k];
        }
      } else {
        assert ps[0] < q < MatchEnd(s, tag, ps[0]);
      }
    } else {
      MatchStartsComplete(s, tag, i + 1, q);
    }
  }

  /** The text captured by the match starting at `p`. */
  function Capture(s: string, tag: string, p: nat): (c: string)
    requires MatchesAt(s, tag, p)
    ensures IsCandidate(c)
    ensures Contains(s, tag + c)
  {
    var c := s[p + |tag|..MatchEnd(s, tag, p)];
    assert s[p..][..|tag + c|] == tag + c;
    ContainsAt(s, p, tag + c);
    c
  }

  /** `re.findall`: the captures of the reported matches, in text order. */
  function FindAll(s: string, tag: string): (caps: seq<string>)
    requires 0 < |tag|
    ensures |caps| == |MatchStarts(s, tag, 0)|
    ensures forall k :: 0 <= k < |caps| ==> caps[k] == Capture(s, tag, MatchStarts(s, tag, 0)[k])
    ensures forall c :: c in caps ==> IsCandidate(c) && Contains(s, tag + c)
  {
    var ps := MatchStarts(s, tag, 0);
    seq(|ps|, k requires 0 <= k < |ps| => Capture(s, tag, ps[k]))
  }
}
