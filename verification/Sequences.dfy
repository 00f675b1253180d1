// What several modules need of sequences.
module Sequences {

  /** s without its element at position k. */
  ghost function Without<A>(s: seq<A>, k: nat): (r: seq<A>)
    requires k < |s|
    ensures |r| == |s| - 1
    ensures forall i :: 0 <= i < k ==> r[i] == s[i]
    ensures forall i :: k <= i < |r| ==> r[i] == s[i + 1]
  {
    s[..k] + s[k + 1..]
  }

  ghost predicate Distinct<A>(s: seq<A>) {
    forall i, j :: 0 <= i < j < |s| ==> s[i] != s[j]
  }

  lemma Regroup<A>(a: seq<A>, b: seq<A>, c: seq<A>)
    ensures (a + b) + c == a + (b + c)
  {
  }

  /** s without its k-th element, position by position. */
  lemma RestAt<A>(s: seq<A>, k: nat, rest: seq<A>)
    requires k < |s| && rest == s[..k] + s[k + 1..]
    ensures |rest| == |s| - 1 && forall i :: 0 <= i < |rest| ==> rest[i] == s[if i < k then i else i + 1]
  {
  }

  lemma RestDistinct<A>(s: seq<A>, k: nat, rest: seq<A>)
    requires Distinct(s) && k < |s| && |rest| == |s| - 1
    requires forall i :: 0 <= i < |rest| ==> rest[i] == s[if i < k then i else i + 1]
    ensures Distinct(rest) && s[k] !in rest
  {
    forall i, j | 0 <= i < j < |rest| ensures rest[i] != rest[j] {
      var a, b := if i < k then i else i + 1, if j < k then j else j + 1;
      assert a < b && rest[i] == s[a] && rest[j] == s[b];
    }
    forall i | 0 <= i < |rest| ensures rest[i] != s[k] {
      var a := if i < k then i else i + 1;
      assert a != k && rest[i] == s[a];
    }
  }
}
