/**
 * JavaScript truthiness of optional strings. Every field the feed code reads
 * is either absent (`null`/`undefined`) or a string, and the code chains them
 * with `||`, which skips absent values and empty strings alike.
 */
module Truthiness {
  import opened Wrappers

  /** `!!v` for a value that is absent or a string */
  predicate Truthy(v: Option<string>) {
    v.Some? && v.value != ""
  }

  /** `a || b` */
  function Or(a: Option<string>, b: Option<string>): Option<string> {
    if Truthy(a) then a else b
  }

  /** `a || ""` */
  function OrEmpty(a: Option<string>): string {
    if Truthy(a) then a.value else ""
  }

  /** `c0 || c1 || ... || cn` (right-nested, which `||` is equal to) */
  function OrAll(cands: seq<Option<string>>): Option<string>
    decreases |cands|
  {
    if |cands| == 0 then None
    else if |cands| == 1 then cands[0]
    else Or(cands[0], OrAll(cands[1..]))
  }

  /** Index of the first truthy candidate, or `|cands|` when there is none */
  function FirstTruthyIndex(cands: seq<Option<string>>): (i: nat)
    ensures i <= |cands|
    ensures forall j :: 0 <= j < i ==> !Truthy(cands[j])
    ensures i < |cands| ==> Truthy(cands[i])
    decreases |cands|
  {
    if |cands| == 0 then 0
    else if Truthy(cands[0]) then 0
    else 1 + FirstTruthyIndex(cands[1..])
  }

  /** An `||` chain yields the first truthy candidate, and is falsy when there is none. */
  lemma {:induction false} OrAllIsFirstTruthy(cands: seq<Option<string>>)
    ensures FirstTruthyIndex(cands) < |cands| ==> OrAll(cands) == cands[FirstTruthyIndex(cands)]
    ensures FirstTruthyIndex(cands) == |cands| <==> !Truthy(OrAll(cands))
    decreases |cands|
  {
    if |cands| > 1 {
      OrAllIsFirstTruthy(cands[1..]);
    }
  }

  /** Reference definition: the text of the first truthy candidate, or empty when there is none */
  function FirstTruthyText(cands: seq<Option<string>>): (r: string)
    ensures r == "" <==> forall j :: 0 <= j < |cands| ==> !Truthy(cands[j])
  {
    var i := FirstTruthyIndex(cands);
    if i < |cands| then cands[i].value else ""
  }

  /** `c0 || ... || cn || ""` is the first truthy candidate's text, or empty when there is none. */
  lemma OrEmptyIsFirstTruthy(cands: seq<Option<string>>)
    ensures OrEmpty(OrAll(cands)) == FirstTruthyText(cands)
  {
    OrAllIsFirstTruthy(cands);
  }
}
