/** The Redis side of the pipeline: the bulk lookup of getPhraseCacheFromRedis
    (main.go:163-188) and the bulk write of runRedisCachePhrase (main.go:133-151),
    both over segments of at most 300 records.  The store is a map; a key it
    lacks reads back as "" because `redis.Strings` turns MGET's nil replies
    into empty strings.  A segment whose command fails is named in `failed`. */
module Cache {
  import opened Phrases
  import opened Chunking

  type Store = map<string, string>

  /** The segment size both bulk operations use (main.go:147, main.go:184). */
  const SegmentSize: nat := 300

  /** One MGET reply entry after `redis.Strings`. */
  function Get(store: Store, key: string): string {
    if key in store then store[key] else ""
  }

  /** The MGET reply for a list of keys, in key order. */
  function Mget(store: Store, keys: seq<string>): (vals: seq<string>)
    ensures |vals| == |keys|
    ensures forall i :: 0 <= i < |keys| ==> vals[i] == Get(store, keys[i])
  {
    seq(|keys|, i requires 0 <= i < |keys| => Get(store, keys[i]))
  }

  /** `phrases[off + i].Dst = vals[i]` for every i. */
  function SetDsts(phrases: seq<TranslateData>, off: nat, vals: seq<string>): (r: seq<TranslateData>)
    requires off + |vals| <= |phrases|
    ensures SameKeys(phrases, r)
    ensures forall i :: 0 <= i < |r| ==>
      r[i].dst == if off <= i < off + |vals| then vals[i - off] else phrases[i].dst
  {
    phrases[..off]
      + seq(|vals|, i requires 0 <= i < |vals| => phrases[off + i].(dst := vals[i]))
      + phrases[off + |vals|..]
  }

  // ---------------------------------------------------------------------------
  // Lookup as written

  /** `doRedisCommand(phraseList, k)` of main.go:167-182: one MGET over the
      segment's keys; when it fails `res` is nil and nothing is written,
      otherwise the replies are written back from index `k * len(segment)`,
      the product written `Start(k, len(segment))`. */
  function LookupSegment(phrases: seq<TranslateData>, seg: seq<TranslateData>, k: nat,
                         store: Store, failed: set<nat>): (r: seq<TranslateData>)
    requires Start(k, |seg|) + |seg| <= |phrases|
    ensures SameKeys(phrases, r)
    ensures k in failed ==> r == phrases
  {
    if k in failed then phrases else WriteBack(phrases, seg, Start(k, |seg|), store)
  }

  /** The replies of one successful MGET: reply `i` lands in
      `phrases[off + i]` and every record outside the window is kept. */
  function WriteBack(phrases: seq<TranslateData>, seg: seq<TranslateData>, off: nat, store: Store): (r: seq<TranslateData>)
    requires off + |seg| <= |phrases|
    ensures SameKeys(phrases, r)
    ensures forall i :: 0 <= i < |seg| ==> r[off + i].dst == Get(store, seg[i].srcMd5)
    ensures forall i :: 0 <= i < |r| && !(off <= i < off + |seg|) ==> r[i] == phrases[i]
  {
    SetDsts(phrases, off, Mget(store, Md5s(seg)))
  }

  /** Every segment's write window `[k*c, k*c + c)` lies inside the batch. */
  ghost predicate Fits(segs: seq<seq<TranslateData>>, from: nat, n: nat) {
    forall j :: 0 <= j < |segs| ==> Start(from + j, |segs[j]|) + |segs[j]| <= n
  }

  /** The loop of main.go:185-187 from segment number `from` on. */
  function LookupSegments(phrases: seq<TranslateData>, segs: seq<seq<TranslateData>>, from: nat,
                          store: Store, failed: set<nat>): (r: seq<TranslateData>)
    requires Fits(segs, from, |phrases|)
    ensures SameKeys(phrases, r)
    ensures (forall k :: from <= k < from + |segs| ==> k in failed) ==> r == phrases
    decreases |segs|
  {
    if |segs| == 0 then phrases
    else
      assert Fits(segs[1..], from + 1, |phrases|) by {
        forall j | 0 <= j < |segs| - 1
          ensures Start(from + 1 + j, |segs[1..][j]|) + |segs[1..][j]| <= |phrases|
        {
          assert segs[1..][j] == segs[j + 1];
        }
      }
      LookupSegments(LookupSegment(phrases, segs[0], from, store, failed), segs[1..], from + 1, store, failed)
  }

  /** The segments of the Go split never write outside the batch, so the
      lookup never indexes out of range. */
  lemma SplitFits(arr: seq<TranslateData>, num: nat)
    requires num > 0
    ensures Fits(Segments(SplitLayout(arr, num)), 0, |arr|)
  {
    var s := SplitLayout(arr, num);
    var q, r := |arr| / num, |arr| % num;
    assert |arr| == q * num + r;
    forall j | 0 <= j < |s.lens|
      ensures Start(j, s.lens[j]) + s.lens[j] <= |arr|
    {
      StartIsProduct(j, s.lens[j]);
      if j < q {
        MulLe(j + 1, q, num);
        assert (j + 1) * num == j * num + num;
      } else {
        assert j == q && s.lens[j] == r;
        MulLe(r, num, q);
      }
    }
  }

  /** getPhraseCacheFromRedis with the segment size as a parameter. */
  function GetPhraseCacheWith(phrases: seq<TranslateData>, num: nat, store: Store, failed: set<nat>): (r: seq<TranslateData>)
    requires num > 0
    ensures SameKeys(phrases, r)
  {
    SplitFits(phrases, num);
    LookupSegments(phrases, Segments(SplitLayout(phrases, num)), 0, store, failed)
  }

  /** getPhraseCacheFromRedis (main.go:163-188): the segment size is 300. */
  function GetPhraseCache(phrases: seq<TranslateData>, store: Store, failed: set<nat>): (r: seq<TranslateData>)
    ensures SameKeys(phrases, r)
  {
    GetPhraseCacheWith(phrases, SegmentSize, store, failed)
  }

  /** A batch of at most 300 records: each translation becomes the store's
      value for the record's key, or "" on a miss, so whatever translation the
      client sent is discarded; if the MGET fails nothing changes. */
  lemma GetPhraseCacheSmall(phrases: seq<TranslateData>, store: Store, failed: set<nat>)
    requires |phrases| <= SegmentSize
    ensures var r := GetPhraseCache(phrases, store, failed);
      && SameKeys(phrases, r)
      && (0 in failed ==> r == phrases)
      && (0 !in failed ==> forall i :: 0 <= i < |r| ==> r[i].dst == Get(store, phrases[i].srcMd5))
  {
    SplitSingle(phrases, SegmentSize);
    SplitFits(phrases, SegmentSize);
    var segs := Segments(SplitLayout(phrases, SegmentSize));
    if |phrases| > 0 {
      assert segs == [phrases];
      var r0 := LookupSegment(phrases, phrases, 0, store, failed);
      assert segs[1..] == [];
      assert GetPhraseCache(phrases, store, failed) == r0;
    }
  }

  /** When every segment's MGET fails, no record changes. */
  lemma GetPhraseCacheAllFailed(phrases: seq<TranslateData>, store: Store, failed: set<nat>)
    requires forall k :: 0 <= k < |phrases| ==> k in failed
    ensures GetPhraseCache(phrases, store, failed) == phrases
  {
    var s := SplitLayout(phrases, SegmentSize);
    SplitShape(phrases, SegmentSize);
    SplitFits(phrases, SegmentSize);
    if |s.lens| > 0 {
      assert |s.lens| <= |phrases| by {
        SplitShapeCount(s.lens);
      }
    }
  }

  /** A list of positive lengths is no longer than their sum. */
  lemma {:induction false} SplitShapeCount(lens: seq<nat>)
    requires forall k :: 0 <= k < |lens| ==> 0 < lens[k]
    ensures |lens| <= Sum(lens)
  {
    if |lens| > 0 {
      SplitShapeCount(lens[1..]);
    }
  }

  /** 301 records, every MGET succeeding: the first segment reads the keys of
      the reused buffer, whose slot 0 already holds record 300, and the short
      second segment writes at index `1 * 1 + 0`.  Records 0 and 1 both get
      record 300's cached translation and record 300 keeps the client's. */
  lemma LookupOf301Phrases(phrases: seq<TranslateData>, store: Store)
    requires |phrases| == 301
    ensures var r := GetPhraseCache(phrases, store, {});
      && r[0].dst == Get(store, phrases[300].srcMd5)
      && r[1].dst == Get(store, phrases[300].srcMd5)
      && r[300] == phrases[300]
  {
    var segs := LayoutOf301(phrases);
    SplitFits(phrases, 300);
    var r0 := WriteBack(phrases, segs[0], 0, store);
    var r1 := WriteBack(r0, segs[1], 1, store);
    TwoSegments(phrases, segs, store);
    assert r1[0] == r0[0];
  }

  /** The Go split of 301 records: a full segment whose first slot holds
      record 300, then the one-record segment `[record 300]`. */
  lemma LayoutOf301(phrases: seq<TranslateData>) returns (segs: seq<seq<TranslateData>>)
    requires |phrases| == 301
    ensures segs == Segments(SplitLayout(phrases, 300))
    ensures |segs| == 2 && |segs[0]| == 300 && segs[0][0] == phrases[300] && segs[1] == [phrases[300]]
  {
    DivModUnique(301, 300, 1, 1);
    var s := SplitLayout(phrases, 300);
    assert s.lens == [300, 1];
    assert s.buffer[0] == Slot(phrases, 300, 1, 1, 0) == phrases[300];
    segs := Segments(s);
  }

  /** The lookup over two segments, each MGET succeeding, is two write-backs:
      from index 0 and from index `1 * len(segs[1])`. */
  lemma TwoSegments(phrases: seq<TranslateData>, segs: seq<seq<TranslateData>>, store: Store)
    requires |segs| == 2 && |segs[1]| == 1 && Fits(segs, 0, |phrases|)
    ensures var r0 := WriteBack(phrases, segs[0], 0, store);
      && 1 + 1 <= |r0|
      && LookupSegments(phrases, segs, 0, store, {}) == WriteBack(r0, segs[1], 1, store)
  {
    var r0 := LookupSegment(phrases, segs[0], 0, store, {});
    assert Start(1, 1) == 1;
    assert segs[1..][1..] == [];
  }

  /** The offset alone is also wrong: even over correctly chunked segments
      `[[p0, p1], [p2]]`, the short last segment (number 1, length 1) writes
      record 2's translation into index 1 and leaves index 2 alone. */
  lemma OffsetMisplacesTail(a: TranslateData, b: TranslateData, c: TranslateData, store: Store)
    ensures Fits(Chunk([a, b, c], 2), 0, 3)
    ensures var r := LookupSegments([a, b, c], Chunk([a, b, c], 2), 0, store, {});
      && r[1].dst == Get(store, c.srcMd5)
      && r[2] == c
  {
    var segs := ChunkOfThree(a, b, c);
    var r0 := LookupSegment([a, b, c], [a, b], 0, store, {});
    var r1 := LookupSegment(r0, [c], 1, store, {});
    assert LookupSegments(r0, segs[1..], 1, store, {}) == r1 by {
      assert segs[1..] == [[c]];
      assert segs[1..][1..] == [];
    }
  }

  /** Three records cut into segments of two: `[[a, b], [c]]`. */
  lemma ChunkOfThree(a: TranslateData, b: TranslateData, c: TranslateData) returns (segs: seq<seq<TranslateData>>)
    ensures segs == Chunk([a, b, c], 2) == [[a, b], [c]]
    ensures Fits(segs, 0, 3)
  {
    segs := Chunk([a, b, c], 2);
    assert [a, b, c][2..] == [c];
    assert [a, b, c][..2] == [a, b];
    assert Chunk([c], 2) == [[c]];
  }

  // ---------------------------------------------------------------------------
  // Lookup as intended

  /** The corrected loop: chunk `k` writes from offset `k * num` (spelt
      `Start(k, num)`, which `StartIsProduct` equates with the product). */
  function LookupChunks(phrases: seq<TranslateData>, segs: seq<seq<TranslateData>>, from: nat, num: nat,
                        store: Store, failed: set<nat>): (r: seq<TranslateData>)
    requires FitsAt(segs, from, num, |phrases|)
    ensures SameKeys(phrases, r)
    decreases |segs|
  {
    if |segs| == 0 then phrases
    else
      assert FitsAt(segs[1..], from + 1, num, |phrases|) by {
        forall j | 0 <= j < |segs| - 1
          ensures Start(from + 1 + j, num) + |segs[1..][j]| <= |phrases|
        {
          assert segs[1..][j] == segs[j + 1];
        }
      }
      LookupChunks(LookupChunk(phrases, segs[0], from, num, store, failed), segs[1..], from + 1, num, store, failed)
  }

  /** One corrected MGET: chunk `k` writes its replies from `k * num` on. */
  function LookupChunk(phrases: seq<TranslateData>, seg: seq<TranslateData>, k: nat, num: nat,
                       store: Store, failed: set<nat>): (r: seq<TranslateData>)
    requires Start(k, num) + |seg| <= |phrases|
    ensures SameKeys(phrases, r)
  {
    if k in failed then phrases
    else SetDsts(phrases, Start(k, num), Mget(store, Md5s(seg)))
  }

  /** Every chunk's window `[k*num, k*num + c)` lies inside the batch. */
  ghost predicate FitsAt(segs: seq<seq<TranslateData>>, from: nat, num: nat, n: nat) {
    forall j :: 0 <= j < |segs| ==> Start(from + j, num) + |segs[j]| <= n
  }

  /** The intended chunks fit their windows. */
  lemma ChunksFit(arr: seq<TranslateData>, num: nat, from: nat)
    requires num > 0 && from <= |Chunk(arr, num)|
    ensures FitsAt(Chunk(arr, num)[from..], from, num, |arr|)
  {
    var segs := Chunk(arr, num)[from..];
    forall j | 0 <= j < |segs|
      ensures Start(from + j, num) + |segs[j]| <= |arr|
    {
      ChunkAt(arr, num, from + j);
    }
  }

  /** The last intended chunk reaches the end of the input. */
  lemma {:induction false} ChunkCover(arr: seq<TranslateData>, num: nat)
    requires num > 0
    ensures Start(|Chunk(arr, num)|, num) >= |arr|
    decreases |arr|
  {
    if |arr| > num {
      var rest := ChunkUnfold(arr, num);
      ChunkCover(rest, num);
    }
  }

  /** One corrected MGET over chunk `from` of `orig`: exactly that chunk's
      window changes, each record taking the store's value for its key. */
  lemma LookupChunkSpec(orig: seq<TranslateData>, cur: seq<TranslateData>, from: nat, num: nat,
                        store: Store, failed: set<nat>)
    requires num > 0 && from < |Chunk(orig, num)| && SameKeys(orig, cur)
    ensures Start(from, num) + |Chunk(orig, num)[from]| <= |cur|
    ensures var lo, seg := Start(from, num), Chunk(orig, num)[from];
      var next := LookupChunk(cur, seg, from, num, store, failed);
      && (forall i :: 0 <= i < |cur| && !(lo <= i < lo + |seg|) ==> next[i] == cur[i])
      && (forall i :: lo <= i < lo + |seg| ==>
            next[i].dst == if from in failed then cur[i].dst else Get(store, orig[i].srcMd5))
      && lo + |seg| == Min(lo + num, |cur|)
  {
    ChunkAt(orig, num, from);
    var lo, seg := Start(from, num), Chunk(orig, num)[from];
    forall i | lo <= i < lo + |seg|
      ensures seg[i - lo] == orig[i]
    {
      ChunkElem(orig, num, from, i);
    }
  }

  /** What the corrected loop computes from chunk `from` on: records before the
      chunk are untouched; a later record gets the store's value for its own
      key unless its chunk `ChunkOf(i, num)`, that is `i / num`, failed. */
  lemma {:induction false} LookupChunksSpec(orig: seq<TranslateData>, cur: seq<TranslateData>, from: nat, num: nat,
                                           store: Store, failed: set<nat>) returns (r: seq<TranslateData>)
    requires num > 0 && from <= |Chunk(orig, num)| && SameKeys(orig, cur)
    requires FitsAt(Chunk(orig, num)[from..], from, num, |cur|)
    ensures r == LookupChunks(cur, Chunk(orig, num)[from..], from, num, store, failed)
    ensures SameKeys(cur, r)
    ensures forall i :: 0 <= i < |r| && i < Start(from, num) ==> r[i] == cur[i]
    ensures forall i :: 0 <= i < |r| && i >= Start(from, num) ==>
      r[i].dst == if ChunkOf(i, num) in failed then cur[i].dst else Get(store, orig[i].srcMd5)
    decreases |Chunk(orig, num)| - from
  {
    var segs := Chunk(orig, num)[from..];
    r := LookupChunks(cur, segs, from, num, store, failed);
    if |segs| == 0 {
      LookupChunksDone(orig, cur, from, num, store, failed);
    } else {
      LookupChunksUnfold(orig, cur, from, num, store, failed);
      LookupChunkSpec(orig, cur, from, num, store, failed);
      var lo, seg := Start(from, num), Chunk(orig, num)[from];
      var next := LookupChunk(cur, seg, from, num, store, failed);
      var r' := LookupChunksSpec(orig, next, from + 1, num, store, failed);
      assert Start(from + 1, num) == lo + num;
      forall i: nat | lo <= i < lo + num
        ensures ChunkOf(i, num) == from
      {
        ChunkOfWindow(i, num, from);
      }
      ComposeStep(orig, cur, next, r, lo, |seg|, num, from, store, failed);
    }
  }

  /** The corrected loop over chunks `from..` is its first step followed by
      the loop over chunks `from + 1..`. */
  lemma LookupChunksUnfold(orig: seq<TranslateData>, cur: seq<TranslateData>, from: nat, num: nat,
                           store: Store, failed: set<nat>)
    requires num > 0 && from < |Chunk(orig, num)|
    requires FitsAt(Chunk(orig, num)[from..], from, num, |cur|)
    ensures Start(from, num) + |Chunk(orig, num)[from]| <= |cur|
    ensures FitsAt(Chunk(orig, num)[from + 1..], from + 1, num, |cur|)
    ensures LookupChunks(cur, Chunk(orig, num)[from..], from, num, store, failed)
      == LookupChunks(LookupChunk(cur, Chunk(orig, num)[from], from, num, store, failed),
                      Chunk(orig, num)[from + 1..], from + 1, num, store, failed)
  {
    var segs := Chunk(orig, num)[from..];
    assert segs[0] == Chunk(orig, num)[from];
    assert segs[1..] == Chunk(orig, num)[from + 1..];
  }

  /** Past the last chunk nothing is left to write. */
  lemma LookupChunksDone(orig: seq<TranslateData>, cur: seq<TranslateData>, from: nat, num: nat,
                         store: Store, failed: set<nat>)
    requires num > 0 && from == |Chunk(orig, num)| && |orig| == |cur|
    ensures FitsAt(Chunk(orig, num)[from..], from, num, |cur|)
    ensures LookupChunks(cur, Chunk(orig, num)[from..], from, num, store, failed) == cur
    ensures Start(from, num) >= |cur|
  {
    ChunkCover(orig, num);
    assert Chunk(orig, num)[from..] == [];
  }

  /** One step of the corrected loop followed by the rest of it, stated over
      plain sequences: `next` is the batch after chunk `from`, `r` after all
      later chunks. */
  lemma ComposeStep(orig: seq<TranslateData>, cur: seq<TranslateData>, next: seq<TranslateData>,
                    r: seq<TranslateData>, lo: nat, len: nat, num: nat, from: nat,
                    store: Store, failed: set<nat>)
    requires num > 0 && SameKeys(orig, cur) && SameKeys(cur, next) && SameKeys(next, r)
    requires lo + len == Min(lo + num, |cur|)
    requires forall i :: 0 <= i < |cur| && !(lo <= i < lo + len) ==> next[i] == cur[i]
    requires forall i :: lo <= i < lo + len ==>
      next[i].dst == if from in failed then cur[i].dst else Get(store, orig[i].srcMd5)
    requires forall i :: 0 <= i < |r| && i < lo + num ==> r[i] == next[i]
    requires forall i :: 0 <= i < |r| && i >= lo + num ==>
      r[i].dst == if ChunkOf(i, num) in failed then next[i].dst else Get(store, orig[i].srcMd5)
    requires forall i: nat :: lo <= i < lo + num ==> ChunkOf(i, num) == from
    ensures SameKeys(cur, r)
    ensures forall i :: 0 <= i < |r| && i < lo ==> r[i] == cur[i]
    ensures forall i :: 0 <= i < |r| && i >= lo ==>
      r[i].dst == if ChunkOf(i, num) in failed then cur[i].dst else Get(store, orig[i].srcMd5)
  {
  }

  /** Index `i` of chunk `from` is input element `Start(from) + i`. */
  lemma ChunkElem(orig: seq<TranslateData>, num: nat, from: nat, i: nat)
    requires num > 0 && from < |Chunk(orig, num)|
    requires Start(from, num) <= i < Start(from, num) + |Chunk(orig, num)[from]|
    ensures i < |orig| && Chunk(orig, num)[from][i - Start(from, num)] == orig[i]
  {
    ChunkAt(orig, num, from);
  }

  /** The corrected lookup: one MGET per intended chunk, written at `k * 300`. */
  function BulkGet(phrases: seq<TranslateData>, store: Store, failed: set<nat>): (r: seq<TranslateData>)
    ensures SameKeys(phrases, r)
  {
    ChunksFit(phrases, SegmentSize, 0);
    LookupChunks(phrases, Chunk(phrases, SegmentSize), 0, SegmentSize, store, failed)
  }

  /** What the corrected lookup promises for every batch length: record `i`
      takes the store's value for its own key (or "" on a miss) unless the
      MGET of its chunk `i / 300` failed, in which case it is unchanged. */
  lemma BulkGetSpec(phrases: seq<TranslateData>, store: Store, failed: set<nat>)
    ensures var r := BulkGet(phrases, store, failed);
      && SameKeys(phrases, r)
      && forall i :: 0 <= i < |r| ==>
           r[i].dst == if i / SegmentSize in failed then phrases[i].dst else Get(store, phrases[i].srcMd5)
  {
    ChunksFit(phrases, SegmentSize, 0);
    var r := LookupChunksSpec(phrases, phrases, 0, SegmentSize, store, failed);
    forall i: nat { ChunkOfIsDiv(i, SegmentSize); }
  }

  // ---------------------------------------------------------------------------
  // Write-back

  /** The MSET arguments of main.go:134-137: key, translation, key, … */
  function MsetArgs(ps: seq<TranslateData>): (args: seq<string>)
    ensures |args| == 2 * |ps| && |args| % 2 == 0
    ensures forall i :: 0 <= i < |ps| ==> args[2 * i] == ps[i].srcMd5 && args[2 * i + 1] == ps[i].dst
  {
    if |ps| == 0 then [] else [ps[0].srcMd5, ps[0].dst] + MsetArgs(ps[1..])
  }

  /** The keys an MSET names: its arguments in even positions. */
  function MsetKeys(args: seq<string>): set<string>
    requires |args| % 2 == 0
    decreases |args|
  {
    if |args| == 0 then {} else {args[0]} + MsetKeys(args[2..])
  }

  /** Redis MSET: the pairs are applied left to right, so the last value
      given for a key wins, and a key the command does not name keeps its
      value. */
  function Mset(store: Store, args: seq<string>): (r: Store)
    requires |args| % 2 == 0
    ensures forall key {:trigger key in MsetKeys(args)} :: key !in MsetKeys(args) ==> Get(r, key) == Get(store, key)
    ensures |args| > 0 ==> Get(r, args[|args| - 2]) == args[|args| - 1]
    decreases |args|
  {
    if |args| == 0 then store else Mset(store[args[0] := args[1]], args[2..])
  }

  /** The keys an MSET of a batch names are the batch's keys. */
  lemma {:induction false} MsetKeysOf(ps: seq<TranslateData>, key: string)
    ensures key in MsetKeys(MsetArgs(ps)) <==> key in Md5s(ps)
    decreases |ps|
  {
    if |ps| > 0 {
      assert MsetArgs(ps)[2..] == MsetArgs(ps[1..]);
      MsetKeysOf(ps[1..], key);
      Md5sCons(ps, key);
    }
  }

  /** Two records with the same key carry the same translation. */
  predicate Consistent(ps: seq<TranslateData>) {
    forall i, j :: 0 <= i < |ps| && 0 <= j < |ps| && ps[i].srcMd5 == ps[j].srcMd5 ==> ps[i].dst == ps[j].dst
  }

  /** One MSET of a batch stores every record's translation under its key
      (when the batch agrees with itself) and leaves every other key alone. */
  lemma {:induction false} MsetStoresEach(store: Store, ps: seq<TranslateData>)
    requires Consistent(ps)
    decreases |ps|
    ensures var r := Mset(store, MsetArgs(ps));
      && (forall i :: 0 <= i < |ps| ==> Get(r, ps[i].srcMd5) == ps[i].dst)
      && (forall key :: key !in Md5s(ps) ==> Get(r, key) == Get(store, key))
  {
    if |ps| > 0 {
      var store' := store[ps[0].srcMd5 := ps[0].dst];
      assert Consistent(ps[1..]);
      MsetStoresEach(store', ps[1..]);
      MsetStep(store, ps);
      var r := Mset(store', MsetArgs(ps[1..]));
      forall i | 1 <= i < |ps|
        ensures Get(r, ps[i].srcMd5) == ps[i].dst
      {
        assert ps[1..][i - 1] == ps[i];
      }
      StoresEachStep(store, ps, r);
    }
  }

  /** The induction step of `MsetStoresEach`, over any store `r` that the
      rest of the batch was written into after the first pair. */
  lemma StoresEachStep(store: Store, ps: seq<TranslateData>, r: Store)
    requires |ps| > 0 && Consistent(ps)
    requires forall i :: 1 <= i < |ps| ==> Get(r, ps[i].srcMd5) == ps[i].dst
    requires forall key :: key !in Md5s(ps[1..]) ==> Get(r, key) == Get(store[ps[0].srcMd5 := ps[0].dst], key)
    ensures forall i :: 0 <= i < |ps| ==> Get(r, ps[i].srcMd5) == ps[i].dst
    ensures forall key :: key !in Md5s(ps) ==> Get(r, key) == Get(store, key)
  {
    if ps[0].srcMd5 in Md5s(ps[1..]) {
      var j :| 0 <= j < |ps| - 1 && Md5s(ps[1..])[j] == ps[0].srcMd5;
      assert ps[1..][j] == ps[j + 1];
    }
    forall key | key !in Md5s(ps)
      ensures Get(r, key) == Get(store, key)
    {
      Md5sCons(ps, key);
    }
  }

  /** An MSET's first pair is applied before the rest. */
  lemma MsetStep(store: Store, ps: seq<TranslateData>)
    requires |ps| > 0
    ensures Mset(store, MsetArgs(ps)) == Mset(store[ps[0].srcMd5 := ps[0].dst], MsetArgs(ps[1..]))
  {
    assert MsetArgs(ps)[2..] == MsetArgs(ps[1..]);
  }

  /** A key is among a batch's keys when it is the first one or a later one. */
  lemma Md5sCons(ps: seq<TranslateData>, key: string)
    requires |ps| > 0
    ensures key in Md5s(ps) <==> key == ps[0].srcMd5 || key in Md5s(ps[1..])
  {
    assert Md5s(ps) == [ps[0].srcMd5] + Md5s(ps[1..]);
  }

  /** `saveToRedis` (main.go:146-151): one MSET per segment, a failed one
      silently dropped. */
  function SaveSegments(store: Store, segs: seq<seq<TranslateData>>, k: nat, failed: set<nat>): (r: Store)
    ensures (forall i :: k <= i < k + |segs| ==> i in failed) ==> r == store
    ensures forall key :: (forall j :: 0 <= j < |segs| ==> key !in Md5s(segs[j])) ==> Get(r, key) == Get(store, key)
    decreases |segs|
  {
    if |segs| == 0 then store
    else
      var next := if k in failed then store else Mset(store, MsetArgs(segs[0]));
      assert forall key :: key !in Md5s(segs[0]) ==> Get(next, key) == Get(store, key) by {
        forall key | key !in Md5s(segs[0]) {
          MsetKeysOf(segs[0], key);
        }
      }
      assert forall j :: 0 <= j < |segs| - 1 ==> segs[1..][j] == segs[j + 1];
      SaveSegments(next, segs[1..], k + 1, failed)
  }

  /** saveToRedis as written, with the segment size as a parameter. */
  function SaveToRedisWith(store: Store, phrases: seq<TranslateData>, num: nat, failed: set<nat>): Store {
    SaveSegments(store, Segments(SplitLayout(phrases, num)), 0, failed)
  }

  /** saveToRedis as written (segments of 300): when every MSET fails the
      store is untouched. */
  function SaveToRedis(store: Store, phrases: seq<TranslateData>, failed: set<nat>): (r: Store)
    ensures (forall k :: 0 <= k < |phrases| ==> k in failed) ==> r == store
  {
    var s := SplitLayout(phrases, SegmentSize);
    assert |s.lens| <= |phrases| by {
      SplitShape(phrases, SegmentSize);
      if |s.lens| > 0 {
        SplitShapeCount(s.lens);
      }
    }
    SaveToRedisWith(store, phrases, SegmentSize, failed)
  }

  /** A batch that fits one segment is written by a single MSET, so every
      record's translation lands under its key. */
  lemma SaveToRedisSmall(store: Store, phrases: seq<TranslateData>)
    requires |phrases| <= SegmentSize && Consistent(phrases)
    ensures var r := SaveToRedis(store, phrases, {});
      && (forall i :: 0 <= i < |phrases| ==> Get(r, phrases[i].srcMd5) == phrases[i].dst)
      && (forall key :: key !in Md5s(phrases) ==> Get(r, key) == Get(store, key))
  {
    SplitSingle(phrases, SegmentSize);
    MsetStoresEach(store, phrases);
    if |phrases| > 0 {
      var segs := Segments(SplitLayout(phrases, SegmentSize));
      assert segs == [phrases] && segs[1..] == [];
      var once := Mset(store, MsetArgs(phrases));
      assert SaveSegments(once, [], 1, {}) == once;
      assert SaveToRedis(store, phrases, {}) == SaveSegments(once, segs[1..], 1, {});
    } else {
      assert Md5s(phrases) == [];
    }
  }

  /** The aliasing drops writes: saving `[a, b]` in segments of one issues
      MSET b twice, so a's key never reaches the store. */
  lemma SaveSkipsAliasedRecords(store: Store, a: TranslateData, b: TranslateData)
    requires a.srcMd5 != b.srcMd5 && a.srcMd5 !in store
    ensures a.srcMd5 !in SaveToRedisWith(store, [a, b], 1, {})
  {
    SplitAliasesSegments(a, b);
    var segs := Segments(SplitLayout([a, b], 1));
    MsetOne(store, b);
    var s1 := Mset(store, MsetArgs([b]));
    MsetOne(s1, b);
    var s2 := Mset(s1, MsetArgs([b]));
    assert segs[1..] == [[b]] && segs[1..][1..] == [];
    assert SaveToRedisWith(store, [a, b], 1, {}) == SaveSegments(s1, [[b]], 1, {});
    assert SaveSegments(s1, [[b]], 1, {}) == SaveSegments(s2, [], 2, {});
  }

  /** The same aliasing at the real segment size: saving 301 records issues
      one MSET over the reused buffer, whose slot 0 already holds record 300,
      and one MSET of record 300.  Record 0's key, shared with no other
      record, is never written. */
  lemma SaveOf301Phrases(store: Store, phrases: seq<TranslateData>)
    requires |phrases| == 301
    requires forall i :: 1 <= i < 301 ==> phrases[i].srcMd5 != phrases[0].srcMd5
    ensures Get(SaveToRedis(store, phrases, {}), phrases[0].srcMd5) == Get(store, phrases[0].srcMd5)
  {
    var segs := LayoutOf301(phrases);
    var key := phrases[0].srcMd5;
    forall j | 1 <= j < 300
      ensures segs[0][j] == phrases[j]
    {
      assert SplitLayout(phrases, 300).buffer[j] == Slot(phrases, 300, 1, 1, j);
    }
    forall j | 0 <= j < |segs|
      ensures key !in Md5s(segs[j])
    {
      assert forall i :: 0 <= i < |segs[j]| ==> Md5s(segs[j])[i] != key;
    }
  }

  /** MSET of a single record sets its key alone. */
  lemma MsetOne(store: Store, b: TranslateData)
    ensures Mset(store, MsetArgs([b])) == store[b.srcMd5 := b.dst]
  {
    assert [b][1..] == [];
    assert MsetArgs([b]) == [b.srcMd5, b.dst];
    assert [b.srcMd5, b.dst][2..] == [];
    assert Mset(store[b.srcMd5 := b.dst], []) == store[b.srcMd5 := b.dst];
  }

  /** The corrected write-back: one MSET per intended chunk. */
  function BulkSet(store: Store, phrases: seq<TranslateData>, failed: set<nat>): Store {
    SaveSegments(store, Chunk(phrases, SegmentSize), 0, failed)
  }

  lemma {:induction false} MsetArgsConcat(a: seq<TranslateData>, b: seq<TranslateData>)
    ensures MsetArgs(a + b) == MsetArgs(a) + MsetArgs(b)
  {
    if |a| > 0 {
      assert (a + b)[1..] == a[1..] + b;
      MsetArgsConcat(a[1..], b);
    } else {
      assert a + b == b;
    }
  }

  lemma {:induction false} MsetConcat(store: Store, x: seq<string>, y: seq<string>)
    requires |x| % 2 == 0 && |y| % 2 == 0
    ensures Mset(store, x + y) == Mset(Mset(store, x), y)
    decreases |x|
  {
    if |x| > 0 {
      assert (x + y)[2..] == x[2..] + y;
      MsetConcat(store[x[0] := x[1]], x[2..], y);
    } else {
      assert x + y == y;
    }
  }

  /** With no failures, writing segment by segment is one MSET of the
      concatenated segments. */
  lemma {:induction false} SaveSegmentsIsOneMset(store: Store, segs: seq<seq<TranslateData>>, k: nat)
    ensures SaveSegments(store, segs, k, {}) == Mset(store, MsetArgs(Flatten(segs)))
    decreases |segs|
  {
    if |segs| > 0 {
      SaveSegmentsIsOneMset(Mset(store, MsetArgs(segs[0])), segs[1..], k + 1);
      MsetArgsConcat(segs[0], Flatten(segs[1..]));
      MsetConcat(store, MsetArgs(segs[0]), MsetArgs(Flatten(segs[1..])));
    }
  }

  /** Segmentation is invisible to the store: the corrected bulk write equals
      a single MSET of the whole batch. */
  lemma BulkSetIsOneMset(store: Store, phrases: seq<TranslateData>)
    ensures BulkSet(store, phrases, {}) == Mset(store, MsetArgs(phrases))
  {
    SaveSegmentsIsOneMset(store, Chunk(phrases, SegmentSize), 0);
    ChunkFlatten(phrases, SegmentSize);
  }

  /** The segmentation round trip: bulk-writing a self-consistent batch and
      bulk-reading the same keys gives back exactly the batch, whatever its
      length relative to the segment size. */
  lemma BulkRoundTrip(store: Store, phrases: seq<TranslateData>)
    requires Consistent(phrases)
    ensures BulkGet(phrases, BulkSet(store, phrases, {}), {}) == phrases
  {
    var written := BulkSet(store, phrases, {});
    BulkSetStoresEach(store, phrases);
    BulkGetSpec(phrases, written, {});
    ReadBackAll(phrases, written, BulkGet(phrases, written, {}));
  }

  /** The corrected write-back of a self-consistent batch stores every
      record's translation under its key. */
  lemma BulkSetStoresEach(store: Store, phrases: seq<TranslateData>)
    requires Consistent(phrases)
    ensures var w := BulkSet(store, phrases, {});
      forall i :: 0 <= i < |phrases| ==> Get(w, phrases[i].srcMd5) == phrases[i].dst
  {
    BulkSetIsOneMset(store, phrases);
    MsetStoresEach(store, phrases);
  }

  /** A read that returns each record's stored value, from a store holding
      each record's translation, returns the batch itself. */
  lemma ReadBackAll(phrases: seq<TranslateData>, written: Store, r: seq<TranslateData>)
    requires SameKeys(phrases, r)
    requires forall i :: 0 <= i < |phrases| ==> Get(written, phrases[i].srcMd5) == phrases[i].dst
    requires forall i :: 0 <= i < |r| ==> r[i].dst == Get(written, phrases[i].srcMd5)
    ensures r == phrases
  {
    assert forall i :: 0 <= i < |r| ==> r[i] == phrases[i];
  }
}
