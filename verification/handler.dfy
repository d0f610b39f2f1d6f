/** `jp2cnHander` (main.go:231-307) with its I/O taken out: the decoded
    request body (None when `BindJSON` fails), the Redis store with the set
    of segments whose MGET fails, the salt, MD5 and the HTTP transport come
    in as parameters; the reply envelope, the query sent to the provider (if
    any) and the batch handed to the cache channel (if any) come out. */
module Handler {
  import opened Wrappers
  import opened Phrases
  import opened Text
  import opened Cache
  import opened Results
  import opened Provider
  import opened Reconcile

  /** What one request produces. */
  datatype Outcome = Outcome(reply: ResultMessage, query: Option<string>, enqueued: Option<seq<TranslateData>>)

  /** The part of the handler after the cache lookup (main.go:242-306), over
      the looked-up batch `ps`.  `translate` is the provider call;
      `fixedMerge` picks the intended fallback instead of the written one. */
  function Respond(ps: seq<TranslateData>, translate: string -> Option<seq<ResultItem>>,
                   md5: string -> string, fixedMerge: bool): (o: Outcome)
    ensures o.query == Query(ps)
    ensures o.enqueued.Some? ==> o.reply.code == ErrorOK && o.query.Some?
    ensures o.reply.data.Some? <==> o.reply.code == ErrorOK
  {
    var t, u := Translated(ps), Untranslated(ps);
    match Query(ps)
    case None => Outcome(MakeResult(ErrorOK, "", Some(t + u)), None, None)
    case Some(q) =>
      match translate(q)
      case None => Outcome(MakeResult(Error, "翻译出错", None), Some(q), None)
      case Some(items) =>
        var merged := if fixedMerge then MergeFixed(u, items, md5) else Merge(u, items, md5);
        Outcome(MakeResult(ErrorOK, "", Some(t + merged)), Some(q), Some(merged))
  }

  /** The handler as written. */
  function Jp2Cn(body: Option<seq<TranslateData>>, store: Store, failed: set<nat>, salt: string,
                 md5: string -> string, transport: Request -> Option<seq<ResultItem>>): (o: Outcome)
    ensures body.None? ==> o.query.None? && o.enqueued.None? && o.reply.code == Error
    ensures o.enqueued.Some? ==> o.reply.code == ErrorOK && o.query.Some?
  {
    match body
    case None => Outcome(MakeResult(Error, "参数错误", None), None, None)
    case Some(phrases) =>
      Respond(GetPhraseCache(phrases, store, failed), q => DoBaiduTranslate(q, salt, md5, transport), md5, false)
  }

  /** The handler with the three corrections: the intended chunked lookup,
      a form-encoded request and a fallback that writes into the records. */
  function Jp2CnFixed(body: Option<seq<TranslateData>>, store: Store, failed: set<nat>, salt: string,
                      md5: string -> string, transport: Request -> Option<seq<ResultItem>>): (o: Outcome)
    ensures body.None? ==> o.query.None? && o.enqueued.None? && o.reply.code == Error
    ensures o.enqueued.Some? ==> o.reply.code == ErrorOK && o.query.Some?
  {
    match body
    case None => Outcome(MakeResult(Error, "参数错误", None), None, None)
    case Some(phrases) =>
      Respond(BulkGet(phrases, store, failed), q => transport(BuildRequestEscaped(q, salt, md5)), md5, true)
  }

  // ---------------------------------------------------------------------------
  // Properties of the handler as written

  /** An unreadable body is answered with code 999 and "参数错误", and
      neither the provider nor the cache is touched. */
  lemma BadRequest(store: Store, failed: set<nat>, salt: string, md5: string -> string,
                   transport: Request -> Option<seq<ResultItem>>)
    ensures Jp2Cn(None, store, failed, salt, md5, transport)
      == Outcome(ResultMessage(999, "参数错误", None), None, None)
  {
  }

  /** The provider is asked exactly when some record is still untranslated
      after the lookup, and then with those records' source texts joined by
      newlines, in batch order, with no trailing newline. */
  lemma ProviderCalledIffUntranslated(phrases: seq<TranslateData>, store: Store, failed: set<nat>, salt: string,
                                      md5: string -> string, transport: Request -> Option<seq<ResultItem>>)
    ensures var ps := GetPhraseCache(phrases, store, failed);
      var o := Jp2Cn(Some(phrases), store, failed, salt, md5, transport);
      && (o.query.Some? <==> exists i :: 0 <= i < |ps| && ps[i].dst == "")
      && (o.query.Some? ==> o.query.value == Join(Srcs(Untranslated(ps)), '\n'))
  {
    var ps := GetPhraseCache(phrases, store, failed);
    if exists i :: 0 <= i < |ps| && ps[i].dst == "" {
      var i :| 0 <= i < |ps| && ps[i].dst == "";
      PartitionMembers(ps, ps[i]);
    } else if |Untranslated(ps)| > 0 {
      var p := Untranslated(ps)[0];
      PartitionMembers(ps, p);
    }
  }

  /** A failing provider call is answered with code 999 and "翻译出错", no
      data, and nothing goes to the cache. */
  lemma ProviderFailure(phrases: seq<TranslateData>, store: Store, failed: set<nat>, salt: string,
                        md5: string -> string, transport: Request -> Option<seq<ResultItem>>)
    requires var q := Query(GetPhraseCache(phrases, store, failed));
      q.Some? && transport(BuildRequest(q.value, salt, md5)).None?
    ensures var o := Jp2Cn(Some(phrases), store, failed, salt, md5, transport);
      && o.reply == ResultMessage(999, "翻译出错", None)
      && o.enqueued.None?
  {
  }

  /** A successful reply carries every record once: the translated ones
      first, then the merged ones, as many as were sent and with the same
      source texts counted with multiplicity. */
  lemma SuccessKeepsBatch(phrases: seq<TranslateData>, store: Store, failed: set<nat>, salt: string,
                          md5: string -> string, transport: Request -> Option<seq<ResultItem>>)
    ensures var o := Jp2Cn(Some(phrases), store, failed, salt, md5, transport);
      o.reply.code == ErrorOK ==>
        && o.reply.message == "ok"
        && o.reply.data.Some?
        && |o.reply.data.value| == |phrases|
        && multiset(Srcs(o.reply.data.value)) == multiset(Srcs(phrases))
  {
    var ps := GetPhraseCache(phrases, store, failed);
    RespondKeepsBatch(ps, q => DoBaiduTranslate(q, salt, md5, transport), md5, false);
    SameKeysSrcs(phrases, ps);
  }

  lemma RespondKeepsBatch(ps: seq<TranslateData>, translate: string -> Option<seq<ResultItem>>,
                          md5: string -> string, fixedMerge: bool)
    ensures var o := Respond(ps, translate, md5, fixedMerge);
      o.reply.code == ErrorOK ==>
        && o.reply.message == "ok"
        && o.reply.data.Some?
        && |o.reply.data.value| == |ps|
        && multiset(Srcs(o.reply.data.value)) == multiset(Srcs(ps))
  {
    var o := Respond(ps, translate, md5, fixedMerge);
    var t, u := Translated(ps), Untranslated(ps);
    PartitionMultiset(ps);
    PartitionSrcs(ps);
    if o.reply.code == ErrorOK {
      var d := o.reply.data.value;
      var m := if o.enqueued.Some? then o.enqueued.value else u;
      assert d == t + m;
      SameKeysSrcs(u, m);
      SrcsConcat(t, m);
    }
  }

  /** When the provider answers as many items as there are untranslated
      records, item `i` becomes the translation of untranslated record `i`,
      and exactly those records are cached. */
  lemma PositionalMerge(phrases: seq<TranslateData>, store: Store, failed: set<nat>, salt: string,
                        md5: string -> string, transport: Request -> Option<seq<ResultItem>>)
    requires var q := Query(GetPhraseCache(phrases, store, failed));
      && q.Some?
      && var r := transport(BuildRequest(q.value, salt, md5));
         r.Some? && |r.value| == |Untranslated(GetPhraseCache(phrases, store, failed))|
    ensures var ps := GetPhraseCache(phrases, store, failed);
      var u := Untranslated(ps);
      var items := transport(BuildRequest(Query(ps).value, salt, md5)).value;
      var o := Jp2Cn(Some(phrases), store, failed, salt, md5, transport);
      && o.enqueued.Some?
      && SameKeys(u, o.enqueued.value)
      && (forall i :: 0 <= i < |u| ==> o.enqueued.value[i].dst == items[i].dst)
      && o.reply.data == Some(Translated(ps) + o.enqueued.value)
  {
  }

  /** When the counts differ, the fallback changes nothing: the untranslated
      records are cached and returned with empty translations. */
  lemma FallbackChangesNothing(phrases: seq<TranslateData>, store: Store, failed: set<nat>, salt: string,
                               md5: string -> string, transport: Request -> Option<seq<ResultItem>>)
    requires var q := Query(GetPhraseCache(phrases, store, failed));
      && q.Some?
      && var r := transport(BuildRequest(q.value, salt, md5));
         r.Some? && |r.value| != |Untranslated(GetPhraseCache(phrases, store, failed))|
    ensures var ps := GetPhraseCache(phrases, store, failed);
      var o := Jp2Cn(Some(phrases), store, failed, salt, md5, transport);
      && o.enqueued == Some(Untranslated(ps))
      && o.reply.data == Some(Translated(ps) + Untranslated(ps))
      && forall i :: 0 <= i < |o.enqueued.value| ==> o.enqueued.value[i].dst == ""
  {
  }

  /** A record the cache misses followed by one it hits comes back in the
      opposite order: translated records always lead the reply. */
  lemma ReplyReorders(a: TranslateData, b: TranslateData, store: Store, salt: string,
                      md5: string -> string, transport: Request -> Option<seq<ResultItem>>, x: ResultItem)
    requires Get(store, a.srcMd5) == "" && Get(store, b.srcMd5) != ""
    requires transport(BuildRequest(a.src, salt, md5)) == Some([x])
    ensures var o := Jp2Cn(Some([a, b]), store, {}, salt, md5, transport);
      && o.reply.data.Some?
      && Srcs(o.reply.data.value) == [b.src, a.src]
  {
    var ps := GetPhraseCache([a, b], store, {});
    GetPhraseCacheSmall([a, b], store, {});
    RespondTwo(ps, q => DoBaiduTranslate(q, salt, md5, transport), md5, x);
  }

  /** The reordering on a batch of two after the lookup. */
  lemma RespondTwo(ps: seq<TranslateData>, translate: string -> Option<seq<ResultItem>>,
                   md5: string -> string, x: ResultItem)
    requires |ps| == 2 && ps[0].dst == "" && ps[1].dst != ""
    requires translate(ps[0].src) == Some([x])
    ensures var o := Respond(ps, translate, md5, false);
      && o.reply.data.Some?
      && Srcs(o.reply.data.value) == [ps[1].src, ps[0].src]
  {
    assert ps[1..][1..] == [];
    assert Translated(ps) == [ps[1]];
    assert Untranslated(ps) == [ps[0]];
    assert Join(Srcs([ps[0]]), '\n') == ps[0].src;
  }

  /** A batch of at most 300 records that the cache answers in full: the
      provider is not asked, nothing is cached, and the reply is the batch in
      its order with the cached translations. */
  lemma AllCached(phrases: seq<TranslateData>, store: Store, salt: string,
                  md5: string -> string, transport: Request -> Option<seq<ResultItem>>)
    requires |phrases| <= SegmentSize
    requires forall i :: 0 <= i < |phrases| ==> Get(store, phrases[i].srcMd5) != ""
    ensures var o := Jp2Cn(Some(phrases), store, {}, salt, md5, transport);
      && o.query.None?
      && o.enqueued.None?
      && o.reply.data.Some?
      && SameKeys(phrases, o.reply.data.value)
      && forall i :: 0 <= i < |phrases| ==> o.reply.data.value[i].dst == Get(store, phrases[i].srcMd5)
  {
    var ps := GetPhraseCache(phrases, store, {});
    GetPhraseCacheSmall(phrases, store, {});
    FilterAll(ps);
    RespondAllTranslated(ps, q => DoBaiduTranslate(q, salt, md5, transport), md5);
  }

  lemma RespondAllTranslated(ps: seq<TranslateData>, translate: string -> Option<seq<ResultItem>>, md5: string -> string)
    requires Translated(ps) == ps && Untranslated(ps) == []
    ensures Respond(ps, translate, md5, false) == Outcome(MakeResult(ErrorOK, "", Some(ps)), None, None)
  {
    assert Query(ps).None?;
    assert ps + [] == ps;
  }

  /** A batch of at most 300 records the cache knows nothing about: the
      provider gets every source text, and an answer of the right length is
      returned in the batch order. */
  lemma AllMissed(phrases: seq<TranslateData>, store: Store, salt: string,
                  md5: string -> string, transport: Request -> Option<seq<ResultItem>>, items: seq<ResultItem>)
    requires 0 < |phrases| <= SegmentSize
    requires forall i :: 0 <= i < |phrases| ==> Get(store, phrases[i].srcMd5) == ""
    requires transport(BuildRequest(Join(Srcs(phrases), '\n'), salt, md5)) == Some(items)
    requires |items| == |phrases|
    ensures var o := Jp2Cn(Some(phrases), store, {}, salt, md5, transport);
      && o.query == Some(Join(Srcs(phrases), '\n'))
      && o.reply.data.Some?
      && SameKeys(phrases, o.reply.data.value)
      && forall i :: 0 <= i < |phrases| ==> o.reply.data.value[i].dst == items[i].dst
  {
    var ps := GetPhraseCache(phrases, store, {});
    GetPhraseCacheSmall(phrases, store, {});
    FilterNone(ps);
    SameKeysSrcs(phrases, ps);
    assert [] + MergeByPosition(ps, items) == MergeByPosition(ps, items);
  }

  /** When every record is translated, the partition keeps all of them. */
  lemma {:induction false} FilterAll(ps: seq<TranslateData>)
    requires forall i :: 0 <= i < |ps| ==> ps[i].dst != ""
    ensures Translated(ps) == ps && Untranslated(ps) == []
    decreases |ps|
  {
    if |ps| > 0 {
      FilterAll(ps[1..]);
      assert ps == [ps[0]] + ps[1..];
    }
  }

  /** When no record is translated, the partition sends all of them on. */
  lemma {:induction false} FilterNone(ps: seq<TranslateData>)
    requires forall i :: 0 <= i < |ps| ==> ps[i].dst == ""
    ensures Translated(ps) == [] && Untranslated(ps) == ps
    decreases |ps|
  {
    if |ps| > 0 {
      FilterNone(ps[1..]);
      assert ps == [ps[0]] + ps[1..];
    }
  }

  lemma SameKeysSrcs(a: seq<TranslateData>, b: seq<TranslateData>)
    requires SameKeys(a, b)
    ensures Srcs(a) == Srcs(b)
  {
  }

  lemma SrcsConcat(a: seq<TranslateData>, b: seq<TranslateData>)
    ensures Srcs(a + b) == Srcs(a) + Srcs(b)
  {
  }

  // ---------------------------------------------------------------------------
  // Properties of the corrected handler

  /** With the corrections, a reply still carries every record once. */
  lemma FixedSuccessKeepsBatch(phrases: seq<TranslateData>, store: Store, failed: set<nat>, salt: string,
                               md5: string -> string, transport: Request -> Option<seq<ResultItem>>)
    ensures var o := Jp2CnFixed(Some(phrases), store, failed, salt, md5, transport);
      o.reply.code == ErrorOK ==>
        && o.reply.data.Some?
        && |o.reply.data.value| == |phrases|
        && multiset(Srcs(o.reply.data.value)) == multiset(Srcs(phrases))
  {
    var ps := BulkGet(phrases, store, failed);
    RespondKeepsBatch(ps, q => transport(BuildRequestEscaped(q, salt, md5)), md5, true);
    SameKeysSrcs(phrases, ps);
  }

  /** With the corrections, a provider answer of the wrong length still
      translates every record some item's fingerprint points at. */
  lemma FixedFallbackTranslates(phrases: seq<TranslateData>, store: Store, failed: set<nat>, salt: string,
                                md5: string -> string, transport: Request -> Option<seq<ResultItem>>,
                                q: string, items: seq<ResultItem>)
    requires Query(BulkGet(phrases, store, failed)) == Some(q)
    requires transport(BuildRequestEscaped(q, salt, md5)) == Some(items)
    requires |items| != |Untranslated(BulkGet(phrases, store, failed))|
    ensures var u := Untranslated(BulkGet(phrases, store, failed));
      var o := Jp2CnFixed(Some(phrases), store, failed, salt, md5, transport);
      && o.enqueued.Some?
      && |o.enqueued.value| == |u|
      && forall i :: 0 <= i < |u| ==>
           o.enqueued.value[i] == match LastDst(items, md5, u[i].srcMd5) case Some(d) => u[i].(dst := d) case None => u[i]
  {
  }
}
