/** Splitting the ordered entries into sitemap sections
    (Generator.php:78-79, 94-103). */
module Partition {
  import opened Sequences

  /** `ceil($n / $m)` for an integer count and a non-zero section size: the
      least r with r * m >= n when m is positive, and the least r with
      r * m <= n when m is negative. */
  function CeilDiv(n: nat, m: int): (r: int)
    requires m != 0
    ensures m > 0 ==> r >= 0 && (r - 1) * m < n <= r * m
    ensures m < 0 ==> r <= 0 && r * m <= n < (r - 1) * m
  {
    if m > 0 then
      var q := (n + m - 1) / m;
      assert q * m <= n + m - 1 < (q + 1) * m;
      q
    else
      var q := n / -m;
      assert q * -m <= n < (q + 1) * -m;
      -q
  }

  /** Section i (1-based) of `urls`: the entries from (i-1)*m up to i*m or the end. */
  function Section<T>(urls: seq<T>, m: int, i: int): (r: seq<T>)
    requires m > 0 && 1 <= i <= CeilDiv(|urls|, m)
  {
    SectionBounds(|urls|, m, i);
    urls[(i - 1) * m .. Min(i * m, |urls|)]
  }

  lemma SectionBounds(n: nat, m: int, i: int)
    requires m > 0 && 1 <= i <= CeilDiv(n, m)
    ensures 0 <= (i - 1) * m < Min(i * m, n) <= n
    ensures Min(i * m, n) - (i - 1) * m <= m
  {
    var parts := CeilDiv(n, m);
    assert (i - 1) * m <= (parts - 1) * m by {
      MulMonotone(i - 1, parts - 1, m);
    }
    assert i * m == (i - 1) * m + m;
  }

  lemma MulMonotone(a: int, b: int, m: int)
    requires a <= b && m > 0
    ensures a * m <= b * m
  {
    assert b * m - a * m == (b - a) * m;
  }

  /** The reference split: take m entries, then split the rest. */
  function Chunks<T>(urls: seq<T>, m: int): seq<seq<T>>
    requires m > 0
    decreases |urls|
  {
    if urls == [] then []
    else
      var size := Min(m, |urls|);
      [urls[..size]] + Chunks(urls[size..], m)
  }

  /** The reference chunks hold between 1 and m entries each and concatenate
      back to the list. */
  lemma {:induction false} ChunksProperties<T>(urls: seq<T>, m: int)
    requires m > 0
    ensures Flatten(Chunks(urls, m)) == urls
    ensures forall k :: 0 <= k < |Chunks(urls, m)| ==> 0 < |Chunks(urls, m)[k]| <= m
    decreases |urls|
  {
    if urls != [] {
      var size := Min(m, |urls|);
      var c := Chunks(urls, m);
      ChunksProperties(urls[size..], m);
      assert c == [urls[..size]] + Chunks(urls[size..], m);
      assert c[1..] == Chunks(urls[size..], m);
      assert urls == urls[..size] + urls[size..];
      forall k | 1 <= k < |c| ensures 0 < |c[k]| <= m {
        assert c[k] == Chunks(urls[size..], m)[k - 1];
      }
    }
  }

  /** The render loop's sections are the reference chunks: there are
      ceil(n/m) of them, the i-th is Section(urls, m, i). Together with the
      contract of Chunks, the sections hold at most m entries each and
      concatenate back to the whole list. */
  lemma SectionsAreChunks<T>(urls: seq<T>, m: int)
    requires m > 0
    ensures |Chunks(urls, m)| == CeilDiv(|urls|, m)
    ensures forall i :: 1 <= i <= CeilDiv(|urls|, m) ==> Chunks(urls, m)[i - 1] == Section(urls, m, i)
  {
    ChunksCount(urls, m);
    forall i | 1 <= i <= CeilDiv(|urls|, m)
      ensures Chunks(urls, m)[i - 1] == Section(urls, m, i)
    {
      ChunkAt(urls, m, i - 1);
      assert (i - 1 + 1) * m == i * m;
    }
  }

  lemma {:induction false} ChunksCount<T>(urls: seq<T>, m: int)
    requires m > 0
    ensures |Chunks(urls, m)| == CeilDiv(|urls|, m)
    decreases |urls|
  {
    var n := |urls|;
    if n == 0 {
      CeilDivUnique(0, m, 0);
    } else if n <= m {
      assert urls[..n] == urls && urls[n..] == [];
      assert Chunks(urls, m) == [urls];
      CeilDivUnique(n, m, 1);
    } else {
      var rest := urls[m..];
      assert Chunks(urls, m) == [urls[..m]] + Chunks(rest, m);
      ChunksCount(rest, m);
      CeilDivStep(n, m);
    }
  }

  /** One more section than for the list without its first m entries. */
  lemma CeilDivStep(n: nat, m: int)
    requires 0 < m < n
    ensures CeilDiv(n, m) == CeilDiv(n - m, m) + 1
  {
    var r := CeilDiv(n - m, m);
    assert (r - 1) * m < n - m <= r * m;
    assert (r + 1 - 1) * m == r * m;
    assert (r + 1) * m == r * m + m;
    CeilDivUnique(n, m, r + 1);
  }

  lemma ChunkAt<T>(urls: seq<T>, m: int, k: nat)
    requires m > 0 && k < |Chunks(urls, m)|
    ensures 0 <= k * m < Min((k + 1) * m, |urls|) <= |urls|
    ensures Chunks(urls, m)[k] == urls[k * m .. Min((k + 1) * m, |urls|)]
  {
    TimesIsMul(k, m);
    ChunkAtOffset(urls, m, k, k * m);
    assert (k + 1) * m == k * m + m;
  }

  /** Multiplication by repeated addition, so that the chunk proofs stay linear. */
  function Times(k: nat, m: int): int {
    if k == 0 then 0 else Times(k - 1, m) + m
  }

  lemma {:induction false} TimesIsMul(k: nat, m: int)
    ensures Times(k, m) == k * m
  {
    if k > 0 {
      TimesIsMul(k - 1, m);
      assert k * m == (k - 1) * m + m;
    }
  }

  /** Chunk k starts at offset lo = k*m and ends m entries later or at the end. */
  lemma {:induction false} ChunkAtOffset<T>(urls: seq<T>, m: int, k: nat, lo: int)
    requires m > 0 && k < |Chunks(urls, m)| && lo == Times(k, m)
    ensures 0 <= lo < Min(lo + m, |urls|) <= |urls|
    ensures Chunks(urls, m)[k] == urls[lo .. Min(lo + m, |urls|)]
    decreases k
  {
    var n := |urls|;
    var size := Min(m, n);
    var rest := urls[size..];
    var c := Chunks(urls, m);
    assert c == [urls[..size]] + Chunks(rest, m);
    if k > 0 {
      assert |c| == 1 + |Chunks(rest, m)|;
      assert rest != [];
      assert size == m;
      ChunkAtOffset(rest, m, k - 1, lo - m);
      assert c[k] == Chunks(rest, m)[k - 1];
      assert Min(lo, |rest|) + m == Min(lo + m, n);
      SliceShift(urls, m, lo - m, Min(lo, |rest|));
    }
  }

  lemma SliceShift<T>(s: seq<T>, d: nat, a: int, b: int)
    requires d <= |s| && 0 <= a <= b <= |s| - d
    ensures s[d..][a..b] == s[d + a .. d + b]
  {
  }

  lemma CeilDivUnique(n: nat, m: int, r: int)
    requires m > 0 && (r - 1) * m < n <= r * m
    ensures CeilDiv(n, m) == r
  {
    var c := CeilDiv(n, m);
    if c < r { MulMonotone(c, r - 1, m); }
    if c > r { MulMonotone(r, c - 1, m); }
  }

  /** Sections 1..ceil(n/m), in order. */
  function Sections<T>(urls: seq<T>, m: int): seq<seq<T>>
    requires m > 0
  {
    var parts := CeilDiv(|urls|, m);
    seq(parts, k requires 0 <= k < parts => Section(urls, m, k + 1))
  }

  /** The sections cover the entries exactly: each holds between 1 and m
      entries, and concatenating them in order gives back the whole list. */
  lemma SectionsCover<T>(urls: seq<T>, m: int)
    requires m > 0
    ensures |Sections(urls, m)| == CeilDiv(|urls|, m)
    ensures forall k :: 0 <= k < |Sections(urls, m)| ==> 0 < |Sections(urls, m)[k]| <= m
    ensures Flatten(Sections(urls, m)) == urls
  {
    SectionsAreChunks(urls, m);
    ChunksProperties(urls, m);
    assert Sections(urls, m) == Chunks(urls, m);
  }
}
