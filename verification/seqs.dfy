/** Facts about sequences shared by the scanner and the relay helpers. */
module Seqs {

  /** No element occurs twice. */
  ghost predicate Distinct<T>(s: seq<T>) {
    forall a, b :: 0 <= a < b < |s| ==> s[a] != s[b]
  }

  lemma AppendLeft<T>(a: seq<T>, b: seq<T>, k: nat)
    requires k < |a|
    ensures (a + b)[k] == a[k]
  {
  }

  lemma AppendRight<T>(a: seq<T>, b: seq<T>, k: nat)
    requires k < |b|
    ensures (a + b)[|a| + k] == b[k]
  {
  }

  /** `part` appears unchanged in `whole`, starting at position `o`. */
  ghost predicate BlockAt<T>(whole: seq<T>, o: nat, part: seq<T>) {
    o + |part| <= |whole| && whole[o..o + |part|] == part
  }

  lemma BlockAtStart<T>(a: seq<T>, b: seq<T>)
    ensures BlockAt(a + b, 0, a)
  {
    assert (a + b)[0..|a|] == a;
  }

  lemma BlockShift<T>(a: seq<T>, b: seq<T>, o: nat, part: seq<T>)
    requires BlockAt(b, o, part)
    ensures BlockAt(a + b, |a| + o, part)
  {
    assert (a + b)[|a| + o..|a| + o + |part|] == b[o..o + |part|];
  }

  lemma BlockAtIndex<T>(whole: seq<T>, o: nat, part: seq<T>, k: nat)
    requires BlockAt(whole, o, part) && k < |part|
    ensures o + k < |whole| && whole[o + k] == part[k]
  {
    assert whole[o..o + |part|][k] == part[k];
  }
}
