/**
 * Partitioning rows into insert batches: full batches of `n` rows and a
 * shorter, non-empty last one.
 */
module Batching {


  /** `s` cut into consecutive batches of `n`, the last one possibly shorter. */
  function Chunks<T>(s: seq<T>, n: nat): (bs: seq<seq<T>>)
    requires n > 0
    ensures forall i :: 0 <= i < |bs| ==> 0 < |bs[i]| <= n
    ensures forall i :: 0 <= i < |bs| - 1 ==> |bs[i]| == n
    decreases |s|
  {
    if |s| <= n then (if s == [] then [] else [s])
    else [s[..n]] + Chunks(s[n..], n)
  }

  /** The concatenation of a sequence of batches. */
  function Flatten<T>(bs: seq<seq<T>>): seq<T>
    decreases |bs|
  {
    if bs == [] then [] else Flatten(bs[..|bs| - 1]) + bs[|bs| - 1]
  }

  lemma {:induction false} FlattenAppend<T>(a: seq<seq<T>>, b: seq<seq<T>>)
    ensures Flatten(a + b) == Flatten(a) + Flatten(b)
    decreases |b|
  {
    if b == [] {
      assert a + b == a;
    } else {
      var b', x := b[..|b| - 1], b[|b| - 1];
      assert (a + b)[..|a + b| - 1] == a + b';
      assert (a + b)[|a + b| - 1] == x;
      FlattenAppend(a, b');
      AppendAssoc(Flatten(a), Flatten(b'), x);
    }
  }

  lemma FlattenCons<T>(x: seq<T>, r: seq<seq<T>>)
    ensures Flatten([x] + r) == x + Flatten(r)
  {
    FlattenAppend([x], r);
    assert [x][..0] == [];
  }

  /** The batches, put back together, are the rows in their order. */
  lemma {:induction false} ChunksFlatten<T>(s: seq<T>, n: nat)
    requires n > 0
    ensures Flatten(Chunks(s, n)) == s
    decreases |s|
  {
    if |s| > n {
      ChunksFlatten(s[n..], n);
      FlattenCons(s[..n], Chunks(s[n..], n));
      assert s == s[..n] + s[n..];
    } else if s != [] {
      FlattenCons(s, []);
    }
  }

  /** There are ⌈|s| / n⌉ batches: all but the last full, the last one holding the rest. */
  lemma {:induction false} ChunksCount<T>(s: seq<T>, n: nat)
    requires n > 0
    ensures |Chunks(s, n)| == 0 <==> |s| == 0
    ensures (|Chunks(s, n)| - 1) * n < |s| <= |Chunks(s, n)| * n
    decreases |s|
  {
    if |s| > n {
      var m := |Chunks(s[n..], n)|;
      ChunksCount(s[n..], n);
      assert |Chunks(s, n)| == m + 1;
      assert (m + 1) * n == m * n + n;
      assert (m + 1 - 1) * n == m * n;
      assert (m - 1) * n == m * n - n;
    }
  }

  /** A full batch of rows made of the first `n` rows is the first batch. */
  lemma FirstChunk<T>(s: seq<T>, n: nat)
    requires n > 0 && |s| >= n
    ensures Chunks(s, n) == [s[..n]] + Chunks(s[n..], n)
  {
    if |s| == n {
      assert s[..n] == s && s[n..] == [];
    }
  }

  /**
   * The batches a scan emits when it reads `s` from position `i` on,
   * appending each row to a buffer that already holds `buf`, emitting the
   * buffer whenever it reaches `n` rows and, at the end, emitting what is
   * left, if anything.
   */
  function Scan<T>(s: seq<T>, i: nat, buf: seq<T>, n: nat): seq<seq<T>>
    requires n > 0 && i <= |s|
    decreases |s| - i
  {
    if i == |s| then (if buf == [] then [] else [buf])
    else if |buf| + 1 == n then [buf + [s[i]]] + Scan(s, i + 1, [], n)
    else Scan(s, i + 1, buf + [s[i]], n)
  }

  /** The scan emits exactly the batches of `Chunks`, whatever partial buffer it starts from. */
  lemma {:induction false} ScanChunks<T>(s: seq<T>, i: nat, buf: seq<T>, n: nat)
    requires n > 0 && i <= |s| && |buf| < n
    ensures Scan(s, i, buf, n) == Chunks(buf + s[i..], n)
    decreases |s| - i
  {
    if i == |s| {
      assert buf + s[i..] == buf;
    } else {
      var buf' := buf + [s[i]];
      assert buf + s[i..] == buf' + s[i + 1..];
      if |buf'| == n {
        ScanChunks(s, i + 1, [], n);
        assert [] + s[i + 1..] == s[i + 1..];
        FirstChunk(buf' + s[i + 1..], n);
        assert (buf' + s[i + 1..])[..n] == buf' && (buf' + s[i + 1..])[n..] == s[i + 1..];
      } else {
        ScanChunks(s, i + 1, buf', n);
      }
    }
  }

  /** Scanning from the start with an empty buffer cuts the rows as `Chunks` does. */
  lemma ScanIsChunks<T>(s: seq<T>, n: nat)
    requires n > 0
    ensures Scan(s, 0, [], n) == Chunks(s, n)
  {
    ScanChunks(s, 0, [], n);
    assert [] + s[0..] == s;
  }

  lemma AppendAssoc<T>(a: seq<T>, b: seq<T>, c: seq<T>)
    ensures a + (b + c) == (a + b) + c
  {
  }

  lemma TakeAppend<T>(a: seq<T>, b: seq<T>)
    ensures (a + b)[..|a|] == a
  {
  }

  /** Two ways of cutting the same sequence, the first cut falling no later than the second. */
  lemma SplitCommon<T>(a: seq<T>, b: seq<T>, c: seq<T>, d: seq<T>)
    requires a + b == c + d && |a| <= |c|
    ensures c == a + c[|a|..] && b == c[|a|..] + d
  {
    var e := c[|a|..];
    assert c == a + e by {
      forall k | 0 <= k < |c|
        ensures c[k] == (a + e)[k]
      {
        if k < |a| {
          assert c[k] == (c + d)[k] == (a + b)[k];
        }
      }
    }
    assert b == e + d by {
      forall k | 0 <= k < |b|
        ensures b[k] == (e + d)[k]
      {
        assert b[k] == (a + b)[|a| + k] == (c + d)[|a| + k];
      }
    }
  }

  /** 2500 rows in batches of 1000 are three batches of 1000, 1000 and 500 rows. */
  lemma ChunksOf2500<T>(s: seq<T>)
    requires |s| == 2500
    ensures |Chunks(s, 1000)| == 3
    ensures |Chunks(s, 1000)[0]| == 1000 && |Chunks(s, 1000)[1]| == 1000 && |Chunks(s, 1000)[2]| == 500
  {
    var bs := Chunks(s, 1000);
    assert bs == [s[..1000]] + Chunks(s[1000..], 1000);
    assert Chunks(s[1000..], 1000) == [s[1000..][..1000]] + Chunks(s[1000..][1000..], 1000);
    assert Chunks(s[1000..][1000..], 1000) == [s[1000..][1000..]];
  }
}
