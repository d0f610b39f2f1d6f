/** `splitArrayTranslateData` (main.go:108-126) and the chunker it was meant to be.

    Go's `tmp = tmp[0:0]` keeps the backing array of `tmp`, so every segment the
    function returns is a slice header over ONE buffer of capacity `num`.  The
    model makes that explicit: a `Split` is the final content of that buffer and
    the length of each header. */
module Chunking {
  import opened Phrases

  /** The result of the Go function as laid out in memory: segment `k` is the
      slice `buffer[0:lens[k]]`. */
  datatype Split = Split(buffer: seq<TranslateData>, lens: seq<nat>)
  {
    /** Every slice header stays within the backing array. */
    predicate Valid() {
      forall k :: 0 <= k < |lens| ==> lens[k] <= |buffer|
    }
  }

  /** The segments a caller reads back once the function has returned. */
  function Segments(s: Split): (segs: seq<seq<TranslateData>>)
    requires s.Valid()
    ensures |segs| == |s.lens|
    ensures forall k :: 0 <= k < |segs| ==> segs[k] == s.buffer[..s.lens[k]]
  {
    seq(|s.lens|, k requires 0 <= k < |s.lens| => s.buffer[..s.lens[k]])
  }

  function Sum(xs: seq<nat>): nat {
    if |xs| == 0 then 0 else xs[0] + Sum(xs[1..])
  }

  function Flatten(segs: seq<seq<TranslateData>>): seq<TranslateData> {
    if |segs| == 0 then [] else segs[0] + Flatten(segs[1..])
  }

  function Min(a: int, b: int): int { if a <= b then a else b }

  /** Arithmetic facts about Euclidean division used below. */
  lemma DivModUnique(n: int, d: int, q: int, r: int)
    requires d > 0 && 0 <= r < d && n == q * d + r
    ensures n / d == q && n % d == r
  {
    var q', r' := n / d, n % d;
    assert (q - q') * d == r' - r;
    MulAway(q - q', d);
  }

  /** A non-zero multiple of `d` is at least `d` away from zero. */
  lemma MulAway(x: int, d: int)
    requires d > 0
    ensures x >= 1 ==> x * d >= d
    ensures x <= -1 ==> x * d <= -d
  {
    if x >= 1 {
      MulLe(1, x, d);
    }
    if x <= -1 {
      MulLe(x, -1, d);
    }
  }

  lemma MulLe(a: int, b: int, c: int)
    requires a <= b && 0 <= c
    ensures a * c <= b * c
  {
    assert b * c - a * c == (b - a) * c;
  }

  /** What slot `j` of the shared buffer holds after `full` complete segments
      and `len` further elements have been appended: the latest element
      written at that position, or Go's zero value if none was. */
  function Slot(arr: seq<TranslateData>, num: nat, full: nat, len: nat, j: nat): TranslateData
    requires len <= num && full * num + len <= |arr| && j < num
  {
    if j < len then arr[full * num + j]
    else if full > 0 then
      assert (full - 1) * num + num == full * num;
      arr[(full - 1) * num + j]
    else Zero
  }

  /** The segment layout in closed form: `|arr| / num` full headers over the
      buffer, then one short header if elements remain.  With `num == 0` the
      length never equals `num`, so the whole input ends up in one segment. */
  function SplitLayout(arr: seq<TranslateData>, num: nat): (s: Split)
    ensures s.Valid()
  {
    if num == 0 then
      Split(arr, if |arr| == 0 then [] else [|arr|])
    else
      var q, r := |arr| / num, |arr| % num;
      assert q * num + r == |arr|;
      Split(seq(num, j requires 0 <= j < num => Slot(arr, num, q, r, j)),
            seq(q, _ => num) + (if r > 0 then [r] else []))
  }

  /** The Go loop of main.go:110-125, step by step over one backing array of
      capacity `num` (`make([]TranslateData, 0, num)`).  An append within
      capacity overwrites the next slot; beyond it (only when `num == 0`)
      Go moves to a larger array, which no earlier header can observe. */
  method SplitArrayTranslateData(arr: seq<TranslateData>, num: nat) returns (s: Split)
    ensures s == SplitLayout(arr, num)
  {
    var buffer: seq<TranslateData> := seq(num, _ => Zero);
    var len: nat := 0;
    var lens: seq<nat> := [];
    for i := 0 to |arr|
      invariant num == 0 ==> buffer == arr[..i] && len == i && lens == []
      invariant num > 0 ==> |buffer| == num && len < num
      invariant num > 0 ==> i == |lens| * num + len
      invariant forall k :: 0 <= k < |lens| ==> lens[k] == num
      invariant num > 0 ==> forall j :: 0 <= j < num ==> buffer[j] == Slot(arr, num, |lens|, len, j)
    {
      if len < |buffer| {
        buffer := buffer[len := arr[i]];
      } else {
        buffer := buffer + [arr[i]];
      }
      len := len + 1;
      if len == num {
        assert (|lens| + 1) * num == |lens| * num + num;
        lens := lens + [len];
        len := 0;
      }
    }
    if len > 0 {
      lens := lens + [len];
    }
    s := Split(buffer, lens);
    if num > 0 {
      var full := if len > 0 then |lens| - 1 else |lens|;
      DivModUnique(|arr|, num, full, len);
      assert buffer == seq(num, j requires 0 <= j < num => Slot(arr, num, |arr| / num, |arr| % num, j));
      assert lens == seq(|arr| / num, _ => num) + (if |arr| % num > 0 then [|arr| % num] else []);
    }
  }

  lemma {:induction false} SumConcat(a: seq<nat>, b: seq<nat>)
    ensures Sum(a + b) == Sum(a) + Sum(b)
  {
    if |a| == 0 {
      assert a + b == b;
    } else {
      assert (a + b)[1..] == a[1..] + b;
      SumConcat(a[1..], b);
    }
  }

  lemma {:induction false} SumConst(q: nat, num: nat)
    ensures Sum(seq(q, _ => num)) == q * num
  {
    if q > 0 {
      assert seq(q, _ => num)[1..] == seq(q - 1, _ => num);
      SumConst(q - 1, num);
    }
  }

  /** Segment count and lengths (main.go:113-123): ceil(n/num) segments, every
      one but the last of length `num`, none empty, lengths summing to n. */
  lemma SplitShape(arr: seq<TranslateData>, num: nat)
    ensures var s := SplitLayout(arr, num);
      && Sum(s.lens) == |arr|
      && (forall k :: 0 <= k < |s.lens| ==> 0 < s.lens[k])
      && (forall k :: 0 <= k < |s.lens| - 1 ==> s.lens[k] == num)
      && (num > 0 ==> |s.lens| == (|arr| + num - 1) / num)
      && (num > 0 ==> forall k :: 0 <= k < |s.lens| ==> s.lens[k] <= num)
  {
    if num > 0 {
      var lens := Runs(|arr| / num, |arr| % num, num);
      assert SplitLayout(arr, num).lens == lens;
    }
  }

  /** `q` full runs of `num` followed by a remainder run of `r`, if any. */
  lemma Runs(q: nat, r: nat, num: nat) returns (lens: seq<nat>)
    requires r < num
    ensures lens == seq(q, _ => num) + (if r > 0 then [r] else [])
    ensures Sum(lens) == q * num + r
    ensures forall k :: 0 <= k < |lens| ==> 0 < lens[k] <= num
    ensures forall k :: 0 <= k < |lens| - 1 ==> lens[k] == num
    ensures |lens| == (q * num + r + num - 1) / num
  {
    var tail: seq<nat> := if r > 0 then [r] else [];
    lens := seq(q, _ => num) + tail;
    SumConcat(seq(q, _ => num), tail);
    SumConst(q, num);
    CeilDiv(q * num + r, num, q, r);
  }

  /** `(n + num - 1) / num` counts the full runs plus one for a remainder. */
  lemma CeilDiv(n: int, num: int, q: int, r: int)
    requires num > 0 && 0 <= r < num && n == q * num + r
    ensures (n + num - 1) / num == q + (if r > 0 then 1 else 0)
  {
    if r == 0 {
      DivModUnique(n + num - 1, num, q, num - 1);
    } else {
      assert (q + 1) * num == q * num + num;
      DivModUnique(n + num - 1, num, q + 1, r - 1);
    }
  }

  /** The last segment is always the correct tail of the input: it is
      written after every other segment and read back unchanged. */
  lemma SplitTail(arr: seq<TranslateData>, num: nat)
    requires |arr| > 0
    ensures var s := SplitLayout(arr, num);
      |s.lens| > 0 && Segments(s)[|s.lens| - 1] == arr[(|s.lens| - 1) * num..]
  {
    var s := SplitLayout(arr, num);
    if num > 0 {
      var q, r := |arr| / num, |arr| % num;
      assert |arr| == q * num + r;
      if r > 0 {
        assert |s.lens| - 1 == q;
        assert Segments(s)[q] == arr[q * num..];
      } else {
        assert q > 0;
        assert (q - 1) * num + num == q * num;
        assert Segments(s)[q - 1] == arr[(q - 1) * num..];
      }
    }
  }

  /** Only a one-segment input comes back as itself (main.go:112-125 with
      n <= num): `[arr]`, or `[]` for the empty input. */
  lemma SplitSingle(arr: seq<TranslateData>, num: nat)
    requires |arr| <= num || num == 0
    ensures Segments(SplitLayout(arr, num)) == if |arr| == 0 then [] else [arr]
  {
    var s := SplitLayout(arr, num);
    if num > 0 && |arr| > 0 {
      if |arr| == num {
        DivModUnique(|arr|, num, 1, 0);
        assert s.lens == [num];
        assert forall j :: 0 <= j < num ==> s.buffer[j] == arr[j];
        assert s.buffer == arr;
        assert Segments(s)[0] == arr;
      } else {
        DivModUnique(|arr|, num, 0, |arr|);
        assert s.lens == [|arr|];
        assert forall j :: 0 <= j < |arr| ==> s.buffer[j] == arr[j];
        assert s.buffer[..|arr|] == arr;
        assert Segments(s)[0] == arr;
      }
    } else if num > 0 {
      DivModUnique(0, num, 0, 0);
      assert s.lens == [];
      assert Segments(s) == [];
    } else if |arr| > 0 {
      assert s.lens == [|arr|] && s.buffer == arr;
      assert Segments(s)[0] == arr;
    }
  }

  /** Where the input element at index `i` of the last `num` ends up in the
      shared buffer. */
  lemma BufferSlot(arr: seq<TranslateData>, num: nat, q: nat, r: nat, i: int)
    requires 0 <= r < num && |arr| == q * num + r
    requires 0 <= i && |arr| - num <= i < |arr|
    ensures 0 <= i % num < num && Slot(arr, num, q, r, i % num) == arr[i]
  {
    var m := q * num;
    if q == 0 || i >= m {
      DivModUnique(i, num, q, i - m);
    } else {
      assert (q - 1) * num == m - num;
      DivModUnique(i, num, q - 1, i - (m - num));
    }
  }

  /** With more than one segment, every full segment is the same view of the
      one reused buffer (main.go:116-117), and slot `j` of that buffer holds
      the last input element whose index is `j` modulo `num`. */
  lemma SplitSharedBuffer(arr: seq<TranslateData>, num: nat)
    requires 0 < num < |arr|
    ensures var s := SplitLayout(arr, num);
      && |s.buffer| == num
      && (forall k :: 0 <= k < |s.lens| && s.lens[k] == num ==> Segments(s)[k] == s.buffer)
      && (forall i :: |arr| - num <= i < |arr| ==> s.buffer[i % num] == arr[i])
  {
    var s := SplitLayout(arr, num);
    var q, r := |arr| / num, |arr| % num;
    forall i | |arr| - num <= i < |arr|
      ensures s.buffer[i % num] == arr[i]
    {
      BufferSlot(arr, num, q, r, i);
    }
  }

  /** The chunker the code evidently intends: a fresh buffer per segment, so
      segment `k` is the `k`-th run of `num` input elements. */
  function Chunk(arr: seq<TranslateData>, num: nat): (segs: seq<seq<TranslateData>>)
    decreases |arr|
    ensures forall k :: 0 <= k < |segs| ==> 0 < |segs[k]|
    ensures num > 0 ==> forall k :: 0 <= k < |segs| ==> |segs[k]| <= num
    ensures forall k :: 0 <= k < |segs| - 1 ==> |segs[k]| == num
  {
    if |arr| == 0 then []
    else if num == 0 || |arr| <= num then [arr]
    else [arr[..num]] + Chunk(arr[num..], num)
  }

  /** Where segment `k` of a chunking by `num` starts: `k * num`, spelt out
      by recursion so that the chunk lemmas stay linear. */
  function Start(k: nat, num: nat): nat {
    if k == 0 then 0 else Start(k - 1, num) + num
  }

  /** The chunk an index falls in: `i / num`, spelt out by recursion. */
  function ChunkOf(i: nat, num: nat): nat
    requires num > 0
  {
    if i < num then 0 else 1 + ChunkOf(i - num, num)
  }

  /** Every index of the window starting at `Start(k)` belongs to chunk `k`. */
  lemma {:induction false} ChunkOfWindow(i: nat, num: nat, k: nat)
    requires num > 0 && Start(k, num) <= i < Start(k, num) + num
    ensures ChunkOf(i, num) == k
  {
    if k > 0 {
      ChunkOfWindow(i - num, num, k - 1);
    }
  }

  lemma {:induction false} ChunkOfIsDiv(i: nat, num: nat)
    requires num > 0
    ensures ChunkOf(i, num) == i / num
  {
    var k := i / num;
    DivModUnique(i, num, k, i % num);
    StartIsProduct(k, num);
    ChunkOfWindow(i, num, k);
  }

  lemma {:induction false} StartIsProduct(k: nat, num: nat)
    ensures Start(k, num) == k * num
  {
    if k > 0 {
      StartIsProduct(k - 1, num);
      assert (k - 1) * num + num == k * num;
    }
  }

  /** The intended chunker loses and reorders nothing: concatenating its
      segments gives back the input. */
  lemma {:induction false} ChunkFlatten(arr: seq<TranslateData>, num: nat)
    ensures Flatten(Chunk(arr, num)) == arr
    decreases |arr|
  {
    if |arr| > 0 && num > 0 && |arr| > num {
      ChunkFlatten(arr[num..], num);
      assert Chunk(arr, num)[1..] == Chunk(arr[num..], num);
      assert arr[..num] + arr[num..] == arr;
    } else if |arr| > 0 {
      assert Flatten(Chunk(arr, num)) == arr + [];
    }
  }

  /** Segment `k` of the intended chunker is `arr[k*num .. min((k+1)*num, n)]`. */
  lemma {:induction false} ChunkAt(arr: seq<TranslateData>, num: nat, k: nat)
    requires num > 0 && k < |Chunk(arr, num)|
    ensures Start(k, num) < |arr|
    ensures Chunk(arr, num)[k] == arr[Start(k, num) .. Min(Start(k, num) + num, |arr|)]
    decreases |arr|
  {
    if k > 0 {
      var rest := ChunkUnfold(arr, num);
      ChunkAt(rest, num, k - 1);
      var m := Start(k - 1, num);
      assert Start(k, num) == m + num;
      var hi := Min(m + num, |rest|);
      assert hi + num == Min(m + num + num, |arr|);
      SliceOfSuffix(arr, num, m, hi);
      calc {
        Chunk(arr, num)[k];
        Chunk(rest, num)[k - 1];
        rest[m..hi];
        arr[num + m .. num + hi];
      }
    } else {
      ChunkHead(arr, num);
    }
  }

  lemma ChunkHead(arr: seq<TranslateData>, num: nat)
    requires num > 0 && 0 < |Chunk(arr, num)|
    ensures 0 < |arr| && Chunk(arr, num)[0] == arr[..Min(num, |arr|)]
  {
  }

  lemma SliceOfSuffix(arr: seq<TranslateData>, d: nat, a: nat, b: nat)
    requires d <= |arr| && a <= b <= |arr| - d
    ensures arr[d..][a..b] == arr[d + a .. d + b]
  {
  }

  lemma ChunkUnfold(arr: seq<TranslateData>, num: nat) returns (rest: seq<TranslateData>)
    requires num > 0 && |Chunk(arr, num)| > 1
    ensures |arr| > num && rest == arr[num..]
    ensures |Chunk(rest, num)| == |Chunk(arr, num)| - 1
    ensures forall k :: 0 < k < |Chunk(arr, num)| ==> Chunk(arr, num)[k] == Chunk(rest, num)[k - 1]
  {
    rest := arr[num..];
  }

  /** Where the input fits in one segment, the Go code and the intended
      chunker agree. */
  lemma SplitAgreesWithChunkWhenSingle(arr: seq<TranslateData>, num: nat)
    requires |arr| <= num || num == 0
    ensures Segments(SplitLayout(arr, num)) == Chunk(arr, num)
  {
    SplitSingle(arr, num);
  }

  /** The aliasing in action: splitting `[a, b]` into segments of one reads
      back `[[b], [b]]`, while the intended chunker gives `[[a], [b]]`. */
  lemma SplitAliasesSegments(a: TranslateData, b: TranslateData)
    requires a != b
    ensures Segments(SplitLayout([a, b], 1)) == [[b], [b]]
    ensures Chunk([a, b], 1) == [[a], [b]]
    ensures Segments(SplitLayout([a, b], 1)) != Chunk([a, b], 1)
  {
    DivModUnique(2, 1, 2, 0);
    var s := SplitLayout([a, b], 1);
    assert Slot([a, b], 1, 2, 0, 0) == b;
    assert s.buffer == [b];
    assert s.lens == [1, 1];
    assert s.buffer[..1] == [b];
    assert Segments(s)[0] == [b] && Segments(s)[1] == [b];
    assert [a, b][..1] == [a] && [a, b][1..] == [b];
    assert Chunk([b], 1) == [[b]];
  }
}
