/** Bits of 64-bit words, and a run of words read as one long bitmap. Bit indexes inside a word are
    six bits wide, so every fact about a single word is a closed bit-vector statement. */
module Bitmap {

  predicate Bit(w: bv64, j: bv6) {
    (w >> j) & 1 == 1
  }

  function OneHot(j: bv6): bv64 {
    (1 as bv64) << j
  }

  /** A word with bits `lo..hi` set, both inclusive; no bit when `lo > hi`. */
  function WordMask(lo: bv6, hi: bv6): bv64 {
    if lo > hi then 0
    else if hi - lo == 63 then !(0 as bv64)
    else (((1 as bv64) << (hi - lo + 1)) - 1) << lo
  }

  lemma BitClear(w: bv64, m: bv64, j: bv6)
    ensures Bit(w & !m, j) <==> Bit(w, j) && !Bit(m, j)
  {
  }

  lemma BitUnion(w: bv64, m: bv64, j: bv6)
    ensures Bit(w | m, j) <==> Bit(w, j) || Bit(m, j)
  {
  }

  lemma BitOneHot(i: bv6, j: bv6)
    ensures Bit(OneHot(i), j) <==> i == j
  {
  }

  lemma BitTest(w: bv64, j: bv6)
    ensures w & OneHot(j) != 0 <==> Bit(w, j)
  {
  }

  lemma BitClearHigh(w: bv64, lo: bv6, j: bv6)
    ensures Bit(w & !(!(0 as bv64) << lo), j) <==> Bit(w, j) && !(lo <= j)
  {
  }

  lemma BitNone(j: bv6)
    ensures !Bit(0, j)
  {
  }

  /** The subtract-and-shift form of the mask is "at least `lo`" without "above `hi`". */
  lemma SpanForm(lo: bv6, hi: bv6)
    requires lo <= hi && hi - lo != 63
    ensures (((1 as bv64) << (hi - lo + 1)) - 1) << lo == (!(0 as bv64) << lo) & !((!(0 as bv64) << 1) << hi)
  {
  }

  lemma EdgeForm(lo: bv6, hi: bv6)
    requires lo > hi || hi - lo == 63
    ensures WordMask(lo, hi) == (!(0 as bv64) << lo) & !((!(0 as bv64) << 1) << hi)
  {
  }

  lemma MaskForm(lo: bv6, hi: bv6)
    ensures WordMask(lo, hi) == (!(0 as bv64) << lo) & !((!(0 as bv64) << 1) << hi)
  {
    if lo > hi || hi - lo == 63 { EdgeForm(lo, hi); } else { SpanForm(lo, hi); }
  }

  lemma BitSpan(lo: bv6, hi: bv6, j: bv6)
    ensures Bit((!(0 as bv64) << lo) & !((!(0 as bv64) << 1) << hi), j) <==> lo <= j <= hi
  {
  }

  lemma BitMask(lo: bv6, hi: bv6, j: bv6)
    ensures Bit(WordMask(lo, hi), j) <==> lo <= j <= hi
  {
    var w := WordMask(lo, hi);
    assert Bit(w, j) <==> lo <= j <= hi by {
      MaskForm(lo, hi);
      BitSpan(lo, hi, j);
    }
  }

  /** The place of position `p` inside its word. */
  function Index(p: nat): bv6 {
    (p % 64) as bv6
  }

  lemma IndexValue(p: nat)
    ensures Index(p) as nat == p % 64
  {
  }

  lemma ValueOrder(x: bv6, y: bv6)
    ensures x <= y <==> x as nat <= y as nat
  {
  }

  lemma IndexOrder(p: nat, q: nat)
    ensures Index(p) <= Index(q) <==> p % 64 <= q % 64
  {
    IndexValue(p);
    IndexValue(q);
    ValueOrder(Index(p), Index(q));
  }

  lemma IndexSame(p: nat, q: nat)
    ensures Index(p) == Index(q) <==> p % 64 == q % 64
  {
    IndexOrder(p, q);
    IndexOrder(q, p);
  }

  /** Position `p` of the long bitmap. */
  predicate Get(ws: seq<bv64>, p: nat)
    requires p < 64 * |ws|
  {
    Bit(ws[p / 64], Index(p))
  }

  /** `ws'` is `ws` with exactly the positions `lo..hi` cleared. */
  ghost predicate Cleared(ws: seq<bv64>, ws': seq<bv64>, lo: nat, hi: int) {
    |ws'| == |ws| &&
    forall q | 0 <= q < 64 * |ws| :: Get(ws', q) <==> Get(ws, q) && !(lo <= q <= hi)
  }

  lemma SetInWord(w: bv64, w': bv64, i: bv6, j: bv6)
    requires w' == w | OneHot(i)
    ensures Bit(w', j) <==> i == j || Bit(w, j)
  {
    BitUnion(w, OneHot(i), j);
    BitOneHot(i, j);
  }

  lemma SetOne(ws: seq<bv64>, w: bv64, p: nat, q: nat)
    requires p < 64 * |ws| && q < 64 * |ws| && w == ws[p / 64] | OneHot(Index(p))
    ensures Get(ws[p / 64 := w], q) <==> q == p || Get(ws, q)
  {
    if q / 64 == p / 64 {
      SetInWord(ws[p / 64], w, Index(p), Index(q));
      IndexSame(p, q);
    }
  }

  /** The test of a bit, with the word and the index it is made on. */
  lemma TestOne(ws: seq<bv64>, p: nat, w: bv64, j: bv6)
    requires p < 64 * |ws| && w == ws[p / 64] && j == Index(p)
    ensures w & OneHot(j) != 0 <==> Get(ws, p)
  {
    BitTest(w, j);
  }

  /** Replacing one word clears `lo..hi` when that word loses exactly the bits at `lo..hi`. */
  lemma ClearWord(ws: seq<bv64>, k: nat, w: bv64, lo: nat, hi: nat)
    requires k < |ws| && lo / 64 == k == hi / 64
    requires forall q: nat | q / 64 == k :: Bit(w, Index(q)) <==> Bit(ws[k], Index(q)) && !(lo <= q <= hi)
    ensures Cleared(ws, ws[k := w], lo, hi)
  {
  }

  lemma InsideAt(w: bv64, lo: nat, hi: nat, q: nat)
    requires q / 64 == lo / 64 == hi / 64
    ensures Bit(w & !WordMask(Index(lo), Index(hi)), Index(q)) <==> Bit(w, Index(q)) && !(lo <= q <= hi)
  {
    hide Bit, WordMask, Index;
    BitClear(w, WordMask(Index(lo), Index(hi)), Index(q));
    BitMask(Index(lo), Index(hi), Index(q));
    IndexOrder(lo, q);
    IndexOrder(q, hi);
  }

  lemma LowPartAt(w: bv64, lo: nat, q: nat)
    requires q / 64 == lo / 64
    ensures Bit(w & !(!(0 as bv64) << Index(lo)), Index(q)) <==> Bit(w, Index(q)) && !(lo <= q)
  {
    hide Bit, Index;
    BitClearHigh(w, Index(lo), Index(q));
    IndexOrder(lo, q);
  }

  lemma ClearInside(ws: seq<bv64>, lo: nat, hi: nat)
    requires lo <= hi < 64 * |ws| && lo / 64 == hi / 64
    ensures Cleared(ws, ws[lo / 64 := ws[lo / 64] & !WordMask(Index(lo), Index(hi))], lo, hi)
  {
    forall q: nat | q / 64 == lo / 64 { InsideAt(ws[lo / 64], lo, hi, q); }
    ClearWord(ws, lo / 64, ws[lo / 64] & !WordMask(Index(lo), Index(hi)), lo, hi);
  }

  lemma ClearLowPart(ws: seq<bv64>, lo: nat)
    requires lo < 64 * |ws|
    ensures Cleared(ws, ws[lo / 64 := ws[lo / 64] & !(!(0 as bv64) << Index(lo))], lo, lo / 64 * 64 + 63)
  {
    forall q: nat | q / 64 == lo / 64 { LowPartAt(ws[lo / 64], lo, q); }
    ClearWord(ws, lo / 64, ws[lo / 64] & !(!(0 as bv64) << Index(lo)), lo, lo / 64 * 64 + 63);
  }

  lemma ClearWhole(ws: seq<bv64>, k: nat)
    requires k < |ws|
    ensures Cleared(ws, ws[k := 0], 64 * k, 64 * k + 63)
  {
    forall q | 0 <= q < 64 * |ws|
      ensures Get(ws[k := 0], q) <==> Get(ws, q) && !(64 * k <= q <= 64 * k + 63)
    {
      BitNone(Index(q));
    }
  }

  /** Clearing two adjacent ranges clears their union. */
  lemma ClearTwice(a: seq<bv64>, b: seq<bv64>, c: seq<bv64>, lo: nat, mid: nat, hi: int)
    requires lo <= mid <= hi + 1
    requires Cleared(a, b, lo, mid - 1) && Cleared(b, c, mid, hi)
    ensures Cleared(a, c, lo, hi)
  {
    forall q | 0 <= q < 64 * |a|
      ensures Get(c, q) <==> Get(a, q) && !(lo <= q <= hi)
    {
    }
  }
}
