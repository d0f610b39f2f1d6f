/** The pure body of `jp2cnHander` between the cache lookup and the reply
    (main.go:242-305): split the batch into translated and untranslated
    records, build the provider query, and merge the provider's items back
    into the untranslated records. */
module Reconcile {
  import opened Wrappers
  import opened Phrases
  import opened Text
  import opened Provider

  /** A record counts as translated when its translation is non-empty. */
  predicate IsTranslated(p: TranslateData) {
    |p.dst| > 0
  }

  /** `translatedPhrases` after the loop of main.go:249-256. */
  function Translated(ps: seq<TranslateData>): (t: seq<TranslateData>)
    ensures |t| <= |ps|
    ensures forall i :: 0 <= i < |t| ==> IsTranslated(t[i])
    decreases |ps|
  {
    if |ps| == 0 then []
    else (if IsTranslated(ps[0]) then [ps[0]] else []) + Translated(ps[1..])
  }

  /** `untranslatedPhrases` after the loop of main.go:249-256. */
  function Untranslated(ps: seq<TranslateData>): (u: seq<TranslateData>)
    ensures |u| <= |ps|
    ensures forall i :: 0 <= i < |u| ==> u[i].dst == ""
    decreases |ps|
  {
    if |ps| == 0 then []
    else (if IsTranslated(ps[0]) then [] else [ps[0]]) + Untranslated(ps[1..])
  }

  /** Both filters keep the input order: filtering a concatenation is
      concatenating the filtered parts. */
  lemma {:induction false} PartitionConcat(a: seq<TranslateData>, b: seq<TranslateData>)
    ensures Translated(a + b) == Translated(a) + Translated(b)
    ensures Untranslated(a + b) == Untranslated(a) + Untranslated(b)
    decreases |a|
  {
    if |a| > 0 {
      assert (a + b)[0] == a[0];
      assert (a + b)[1..] == a[1..] + b;
      PartitionConcat(a[1..], b);
      var h := if IsTranslated(a[0]) then [a[0]] else [];
      var g := if IsTranslated(a[0]) then [] else [a[0]];
      assert Translated(a + b) == h + (Translated(a[1..]) + Translated(b));
      assert Untranslated(a + b) == g + (Untranslated(a[1..]) + Untranslated(b));
    } else {
      assert a + b == b;
    }
  }

  /** A record is in `Translated` exactly when it is in the batch with a
      non-empty translation, and in `Untranslated` exactly when it is in the
      batch with an empty one. */
  lemma {:induction false} PartitionMembers(ps: seq<TranslateData>, p: TranslateData)
    ensures p in Translated(ps) <==> p in ps && IsTranslated(p)
    ensures p in Untranslated(ps) <==> p in ps && !IsTranslated(p)
    decreases |ps|
  {
    if |ps| > 0 {
      PartitionMembers(ps[1..], p);
      assert ps == [ps[0]] + ps[1..];
    }
  }

  /** Together the two filters hold every record exactly once. */
  lemma {:induction false} PartitionMultiset(ps: seq<TranslateData>)
    ensures multiset(Translated(ps)) + multiset(Untranslated(ps)) == multiset(ps)
    ensures |Translated(ps)| + |Untranslated(ps)| == |ps|
    decreases |ps|
  {
    if |ps| > 0 {
      var p, rest := ps[0], ps[1..];
      PartitionMultiset(rest);
      assert ps == [p] + rest;
      MultisetCons(p, Translated(rest), Untranslated(rest), rest);
      if IsTranslated(p) {
        assert Translated(ps) == [p] + Translated(rest);
        assert Untranslated(ps) == Untranslated(rest);
      } else {
        assert Translated(ps) == Translated(rest);
        assert Untranslated(ps) == [p] + Untranslated(rest);
      }
    }
  }

  /** Adding a record to either side of a split adds it to the whole. */
  lemma MultisetCons(p: TranslateData, t: seq<TranslateData>, u: seq<TranslateData>, rest: seq<TranslateData>)
    requires multiset(t) + multiset(u) == multiset(rest)
    ensures multiset([p] + t) + multiset(u) == multiset([p] + rest)
    ensures multiset(t) + multiset([p] + u) == multiset([p] + rest)
  {
  }

  /** The same holds for the source texts alone. */
  lemma {:induction false} PartitionSrcs(ps: seq<TranslateData>)
    ensures multiset(Srcs(Translated(ps))) + multiset(Srcs(Untranslated(ps))) == multiset(Srcs(ps))
    decreases |ps|
  {
    if |ps| > 0 {
      var p, rest := ps[0], ps[1..];
      PartitionSrcs(rest);
      SrcsCons(p, rest);
      assert ps == [p] + rest;
      if IsTranslated(p) {
        assert Translated(ps) == [p] + Translated(rest);
        assert Untranslated(ps) == Untranslated(rest);
        SrcsCons(p, Translated(rest));
      } else {
        assert Translated(ps) == Translated(rest);
        assert Untranslated(ps) == [p] + Untranslated(rest);
        SrcsCons(p, Untranslated(rest));
      }
    }
  }

  lemma SrcsCons(p: TranslateData, ps: seq<TranslateData>)
    ensures Srcs([p] + ps) == [p.src] + Srcs(ps)
  {
    assert |Srcs([p] + ps)| == |[p.src] + Srcs(ps)|;
  }

  // ---------------------------------------------------------------------------
  // The query

  /** The `query` accumulator of main.go:248-256: every untranslated
      record's source text followed by a newline. */
  function QueryText(ps: seq<TranslateData>): (q: string)
    ensures |q| > 0 ==> q[|q| - 1] == '\n'
    decreases |ps|
  {
    if |ps| == 0 then ""
    else (if IsTranslated(ps[0]) then "" else ps[0].src + "\n") + QueryText(ps[1..])
  }

  /** The query is empty exactly when nothing is untranslated; otherwise it
      is the untranslated source texts joined by newlines, plus one final
      newline. */
  lemma {:induction false} QueryTextJoin(ps: seq<TranslateData>)
    ensures |QueryText(ps)| > 0 <==> |Untranslated(ps)| > 0
    ensures |Untranslated(ps)| > 0 ==> QueryText(ps) == Join(Srcs(Untranslated(ps)), '\n') + "\n"
    decreases |ps|
  {
    if |ps| > 0 {
      QueryTextJoin(ps[1..]);
      var rest := Untranslated(ps[1..]);
      if IsTranslated(ps[0]) {
        assert QueryText(ps) == QueryText(ps[1..]);
        assert Untranslated(ps) == rest;
      } else {
        assert QueryText(ps) == ps[0].src + "\n" + QueryText(ps[1..]);
        assert Untranslated(ps) == [ps[0]] + rest;
        SrcsCons(ps[0], rest);
        var parts := [ps[0].src] + Srcs(rest);
        if |rest| > 0 {
          assert parts[1..] == Srcs(rest);
          assert Join(parts, '\n') == ps[0].src + "\n" + Join(Srcs(rest), '\n');
        } else {
          assert QueryText(ps[1..]) == "";
          assert parts == [ps[0].src];
        }
      }
    }
  }

  /** The query of main.go:262-269: the accumulator without its last
      newline, or nothing when there is no untranslated record. */
  function Query(ps: seq<TranslateData>): (q: Option<string>)
    ensures q.Some? <==> |Untranslated(ps)| > 0
    ensures q.Some? ==> q.value == Join(Srcs(Untranslated(ps)), '\n')
  {
    var raw := QueryText(ps);
    QueryTextJoin(ps);
    if |raw| > 0 then Some(raw[..|raw| - 1]) else None
  }

  // ---------------------------------------------------------------------------
  // Merging the provider's items

  /** main.go:276-284: when the counts match, item `i` translates record `i`. */
  function MergeByPosition(u: seq<TranslateData>, items: seq<ResultItem>): (r: seq<TranslateData>)
    requires |items| == |u|
    ensures SameKeys(u, r)
    ensures forall i :: 0 <= i < |r| ==> r[i].dst == items[i].dst
  {
    seq(|u|, i requires 0 <= i < |u| => u[i].(dst := items[i].dst))
  }

  /** The state the fallback of main.go:286-299 works on: the slice
      `untranslatedPhrases` and the one range variable `v` of the loop at
      main.go:288, whose address is what the map stores. */
  datatype FallbackState = FallbackState(slice: seq<TranslateData>, v: TranslateData)

  /** The keys of `tmpMd5PhrasesMap` (main.go:287-290); every one of them
      maps to `&v`. */
  function PointerKeys(u: seq<TranslateData>): (keys: set<string>)
    ensures forall i :: 0 <= i < |u| ==> u[i].srcMd5 in keys
    ensures forall k :: k in keys ==> exists i :: 0 <= i < |u| && u[i].srcMd5 == k
  {
    set i | 0 <= i < |u| :: u[i].srcMd5
  }

  /** The loop of main.go:292-298: each item whose fingerprint is a key
      writes its translation through `&v`. */
  function WriteThrough(st: FallbackState, keys: set<string>, items: seq<ResultItem>, md5: string -> string): (r: FallbackState)
    ensures r.slice == st.slice
    ensures r.v.srcMd5 == st.v.srcMd5 && r.v.src == st.v.src
    ensures r.v.dst == match LastDstIn(items, md5, keys) case Some(d) => d case None => st.v.dst
    decreases |items|
  {
    if |items| == 0 then st
    else
      var n := |items| - 1;
      var before := WriteThrough(st, keys, items[..n], md5);
      if md5(items[n].src) in keys then before.(v := before.v.(dst := items[n].dst)) else before
  }

  /** The fallback as written: after the range loop `v` holds a copy of the
      last record, every write lands in that copy, and the slice is never
      written. */
  function FallbackAsWritten(u: seq<TranslateData>, items: seq<ResultItem>, md5: string -> string): (st: FallbackState)
    ensures st.slice == u
  {
    var v := if |u| > 0 then u[|u| - 1] else Zero;
    WriteThrough(FallbackState(u, v), PointerKeys(u), items, md5)
  }

  /** The translation of the last item whose fingerprint lies in `keys`. */
  function LastDstIn(items: seq<ResultItem>, md5: string -> string, keys: set<string>): (d: Option<string>)
    ensures d.None? <==> forall j :: 0 <= j < |items| ==> md5(items[j].src) !in keys
    ensures d.Some? ==> exists j ::
      && 0 <= j < |items| && md5(items[j].src) in keys && d.value == items[j].dst
      && forall j' :: j < j' < |items| ==> md5(items[j'].src) !in keys
    decreases |items|
  {
    if |items| == 0 then None
    else if md5(items[|items| - 1].src) in keys then Some(items[|items| - 1].dst)
    else LastDstIn(items[..|items| - 1], md5, keys)
  }

  // ---------------------------------------------------------------------------
  // The fallback as intended

  /** The position of the last item whose fingerprint is `key`. */
  function LastIndex(items: seq<ResultItem>, md5: string -> string, key: string): (k: Option<nat>)
    ensures k.None? <==> forall j :: 0 <= j < |items| ==> md5(items[j].src) != key
    ensures k.Some? ==> k.value < |items| && md5(items[k.value].src) == key
    ensures k.Some? ==> forall j :: k.value < j < |items| ==> md5(items[j].src) != key
    decreases |items|
  {
    if |items| == 0 then None
    else if md5(items[|items| - 1].src) == key then Some(|items| - 1)
    else LastIndex(items[..|items| - 1], md5, key)
  }

  /** The translation of the last item whose fingerprint is `key`. */
  function LastDst(items: seq<ResultItem>, md5: string -> string, key: string): Option<string> {
    match LastIndex(items, md5, key)
    case Some(j) => Some(items[j].dst)
    case None => None
  }

  /** The fingerprint-to-translation map the loop of main.go:292-298 was
      meant to apply: later items override earlier ones. */
  function Dict(items: seq<ResultItem>, md5: string -> string): (m: map<string, string>)
    decreases |items|
  {
    if |items| == 0 then map[]
    else Dict(items[..|items| - 1], md5)[md5(items[|items| - 1].src) := items[|items| - 1].dst]
  }

  /** The map holds a key exactly when some item has that fingerprint, and
      then the last such item's translation. */
  lemma {:induction false} DictIsLastDst(items: seq<ResultItem>, md5: string -> string, key: string)
    ensures key in Dict(items, md5) <==> LastDst(items, md5, key).Some?
    ensures key in Dict(items, md5) ==> Dict(items, md5)[key] == LastDst(items, md5, key).value
    decreases |items|
  {
    if |items| > 0 {
      DictIsLastDst(items[..|items| - 1], md5, key);
    }
  }

  /** The fallback as intended: every untranslated record whose key is the
      fingerprint of some item takes the translation of the last such item. */
  function FallbackByFingerprint(u: seq<TranslateData>, items: seq<ResultItem>, md5: string -> string): (r: seq<TranslateData>)
    ensures SameKeys(u, r)
  {
    var dict := Dict(items, md5);
    seq(|u|, i requires 0 <= i < |u| =>
      if u[i].srcMd5 in dict then u[i].(dst := dict[u[i].srcMd5]) else u[i])
  }

  /** Record by record: the last matching item's translation, and the record
      itself where no item matches. */
  lemma FallbackByFingerprintSpec(u: seq<TranslateData>, items: seq<ResultItem>, md5: string -> string)
    ensures var r := FallbackByFingerprint(u, items, md5);
      forall i :: 0 <= i < |u| ==>
        r[i] == match LastDst(items, md5, u[i].srcMd5) case Some(d) => u[i].(dst := d) case None => u[i]
  {
    forall i | 0 <= i < |u| {
      DictIsLastDst(items, md5, u[i].srcMd5);
    }
  }

  /** When the provider answers every record once, in order, and the keys are
      distinct, the intended fallback and the positional merge agree. */
  lemma PositionAgreesWithFingerprint(u: seq<TranslateData>, items: seq<ResultItem>, md5: string -> string)
    requires |items| == |u|
    requires forall i :: 0 <= i < |u| ==> md5(items[i].src) == u[i].srcMd5
    requires forall i, j :: 0 <= i < j < |u| ==> u[i].srcMd5 != u[j].srcMd5
    ensures FallbackByFingerprint(u, items, md5) == MergeByPosition(u, items)
  {
    FallbackByFingerprintSpec(u, items, md5);
    forall i | 0 <= i < |u|
      ensures LastDst(items, md5, u[i].srcMd5) == Some(items[i].dst)
    {
      assert md5(items[i].src) == u[i].srcMd5;
      var j := LastIndex(items, md5, u[i].srcMd5).value;
      assert j >= i;
      assert u[j].srcMd5 == u[i].srcMd5;
    }
  }

  /** One untranslated record and two items, the first of which carries its
      translation: the code as written leaves the record untranslated and
      only the loop copy `v` receives the translation, while the intended
      fallback translates the record. */
  lemma FallbackDropsMatches(p: TranslateData, item: ResultItem, extra: ResultItem, md5: string -> string)
    requires p.dst == "" && item.dst != ""
    requires md5(item.src) == p.srcMd5 && md5(extra.src) != p.srcMd5
    ensures var st := FallbackAsWritten([p], [item, extra], md5);
      && st.slice == [p]
      && st.slice[0].dst == ""
      && st.v.dst == item.dst
    ensures FallbackByFingerprint([p], [item, extra], md5) == [p.(dst := item.dst)]
  {
    var items := [item, extra];
    assert items[..1] == [item];
    var keys := PointerKeys([p]);
    assert [p][0].srcMd5 in keys;
    assert md5(extra.src) !in keys;
    assert LastDstIn(items, md5, keys) == LastDstIn([item], md5, keys);
    assert LastDstIn(items, md5, keys) == Some(item.dst);
    assert LastDst(items, md5, p.srcMd5) == Some(item.dst);
    FallbackByFingerprintSpec([p], items, md5);
  }

  // ---------------------------------------------------------------------------
  // The merge step of the handler

  /** main.go:276-299 as written: positional when the counts match, the
      fallback otherwise, which leaves the records as they were. */
  function Merge(u: seq<TranslateData>, items: seq<ResultItem>, md5: string -> string): (r: seq<TranslateData>)
    ensures SameKeys(u, r)
    ensures |items| == |u| ==> forall i :: 0 <= i < |r| ==> r[i].dst == items[i].dst
    ensures |items| != |u| ==> r == u
  {
    if |items| == |u| then MergeByPosition(u, items) else FallbackAsWritten(u, items, md5).slice
  }

  /** main.go:276-299 with the fallback writing into the records. */
  function MergeFixed(u: seq<TranslateData>, items: seq<ResultItem>, md5: string -> string): (r: seq<TranslateData>)
    ensures SameKeys(u, r)
    ensures |items| == |u| ==> forall i :: 0 <= i < |r| ==> r[i].dst == items[i].dst
    ensures |items| != |u| ==> forall i :: 0 <= i < |r| ==>
      r[i] == match LastDst(items, md5, u[i].srcMd5) case Some(d) => u[i].(dst := d) case None => u[i]
  {
    if |items| == |u| then MergeByPosition(u, items)
    else
      FallbackByFingerprintSpec(u, items, md5);
      FallbackByFingerprint(u, items, md5)
  }
}
