/** The description lookup shared by the `OptionConvertible` and
    `LabelConvertible` protocols: `init?(_ description:)` returns the first
    case, in `allCases` order, whose `description` equals the argument.
 */
module Lookup {
  import opened Results

  /** The position of the first element of `cases` whose description is
      `s`, or -1 when there is none. */
  function FirstIndex<T>(cases: seq<T>, describe: T -> string, s: string): (k: int)
    ensures -1 <= k < |cases|
    ensures k == -1 <==> forall j :: 0 <= j < |cases| ==> describe(cases[j]) != s
    ensures k >= 0 ==> describe(cases[k]) == s
    ensures k >= 0 ==> forall j :: 0 <= j < k ==> describe(cases[j]) != s
  {
    if |cases| == 0 then -1
    else if describe(cases[0]) == s then 0
    else
      var k := FirstIndex(cases[1..], describe, s);
      if k < 0 then -1 else k + 1
  }

  /** `init?(_ description:)`: the first case whose description is `s`. */
  function FirstWhere<T>(cases: seq<T>, describe: T -> string, s: string): (r: Option<T>)
    ensures r.None? <==> forall j :: 0 <= j < |cases| ==> describe(cases[j]) != s
    ensures r.Some? ==> r.value in cases && describe(r.value) == s
    ensures r.Some? ==> r.value == cases[FirstIndex(cases, describe, s)]
  {
    var k := FirstIndex(cases, describe, s);
    if k < 0 then None else Some(cases[k])
  }

  /** No two listed cases share a description. */
  predicate DistinctDescriptions<T>(cases: seq<T>, describe: T -> string)
  {
    forall i, j :: 0 <= i < j < |cases| ==> describe(cases[i]) != describe(cases[j])
  }

  /** With pairwise distinct descriptions, looking up a case's own
      description gives back that case. */
  lemma FirstWhereRoundTrip<T>(cases: seq<T>, describe: T -> string, k: nat)
    requires k < |cases|
    requires DistinctDescriptions(cases, describe)
    ensures FirstWhere(cases, describe, describe(cases[k])) == Some(cases[k])
  {
  }
}
