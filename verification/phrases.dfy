/** The record every stage of the pipeline passes along (`TranslateData` in main.go). */
module Phrases {

  /** One phrase of a request: the client-supplied cache key, the source
      text, and the translation ("" means not yet translated). */
  datatype TranslateData = TranslateData(srcMd5: string, src: string, dst: string)

  /** The zero value Go puts in an unwritten slot of a fresh backing array. */
  const Zero := TranslateData("", "", "")

  /** The source texts of a batch, in order. */
  function Srcs(ps: seq<TranslateData>): (r: seq<string>)
    ensures |r| == |ps|
    ensures forall i :: 0 <= i < |ps| ==> r[i] == ps[i].src
  {
    seq(|ps|, i requires 0 <= i < |ps| => ps[i].src)
  }

  /** The cache keys of a batch, in order. */
  function Md5s(ps: seq<TranslateData>): (r: seq<string>)
    ensures |r| == |ps|
    ensures forall i :: 0 <= i < |ps| ==> r[i] == ps[i].srcMd5
  {
    seq(|ps|, i requires 0 <= i < |ps| => ps[i].srcMd5)
  }

  /** `b` is `a` with only translations possibly changed: same length, same
      keys and source texts at every position. */
  predicate SameKeys(a: seq<TranslateData>, b: seq<TranslateData>) {
    && |a| == |b|
    && forall i :: 0 <= i < |a| ==> a[i].srcMd5 == b[i].srcMd5 && a[i].src == b[i].src
  }
}
