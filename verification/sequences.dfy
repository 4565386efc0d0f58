/** Facts about sequences that several modules need. */
module Sequences {

  predicate Distinct<T(==)>(s: seq<T>) {
    forall i, j :: 0 <= i < j < |s| ==> s[i] != s[j]
  }

  lemma Associative<T>(a: seq<T>, b: seq<T>, c: seq<T>)
    ensures (a + b) + c == a + (b + c)
  {
  }

  /** A part of a part of a sequence is a part of it. */
  lemma PartOfPart<T>(a: seq<T>, b: seq<T>, c: seq<T>, part: seq<T>, d: seq<T>, e: seq<T>, f: seq<T>)
    ensures a + (b + (c + part + d) + e) + f == (a + b + c) + part + (d + e + f)
  {
  }

  lemma Halves<T>(s: seq<T>, k: nat)
    requires k <= |s|
    ensures s == s[..k] + s[k..]
  {
  }

  lemma AroundElement<T>(s: seq<T>, k: nat)
    requires k < |s|
    ensures s == s[..k] + ([s[k]] + s[k + 1..])
  {
  }

  /** Cutting a concatenation in its second part. */
  lemma CutAppended<T>(a: seq<T>, b: seq<T>, k: nat)
    requires k <= |b|
    ensures (a + b)[..|a| + k] == a + b[..k] && (a + b)[|a| + k..] == b[k..]
  {
  }
}
