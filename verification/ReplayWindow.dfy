/** The RFC 6479 sliding window: a ring bitmap of 64-bit words updated in place, proved to decide
    and evolve exactly as the specification that remembers every accepted number. */
module ReplayWindows {
  import opened Basics
  import opened Bitmap
  import opened Modular
  import Spec = ReplaySpec

  // ---- Ring arithmetic -----------------------------------------------------------------------

  /** The ring position of packet number `n`. */
  function Pos(n: int, width: nat): nat
    requires width > 0
  {
    n % width
  }

  /** How two numbers less than one ring apart sit relative to each other on the ring. */
  lemma Ahead(p: int, q: int, w: nat)
    requires w > 0 && p <= q < p + w
    ensures (q / w == p / w && q % w - p % w == q - p) || (q / w == p / w + 1 && q % w - p % w == q - p - w)
  {
    Split(p, w);
    Split(q, w);
    var k := q / w - p / w;
    assert k * w == q / w * w - p / w * w;
    Multiple(k, w);
  }

  /** Position `x` lies on the arc that runs forward from `s` to `e`. */
  predicate OnArc(x: nat, s: nat, e: nat) {
    if s <= e then s <= x <= e else x >= s || x <= e
  }

  /** The arc from `last + 1` to `n` holds exactly the residues of the numbers ahead of `last`:
      clearing it touches no number that stays inside the window. */
  lemma ArcIsAhead(last: int, n: int, w: nat, p: int)
    requires w > 0 && last < n < last + w && n - w < p <= n
    ensures OnArc(Pos(p, w), Pos(last + 1, w), Pos(n, w)) <==> p > last
  {
    Ahead(last + 1, n, w);
    Ahead(p, n, w);
    if p > last {
      Ahead(last + 1, p, w);
    } else {
      Ahead(p, last + 1, w);
    }
  }

  lemma DistinctResidues(p: int, q: int, w: nat)
    requires w > 0 && p < q < p + w
    ensures Pos(p, w) != Pos(q, w)
  {
    Ahead(p, q, w);
  }

  // ---- The representation invariant ----------------------------------------------------------

  /** Ring bit `p mod width` is set exactly when `p`, the one number of `(last - width, last]` with
      that residue, was accepted. */
  ghost predicate Tracks(ws: seq<bv64>, width: nat, last: nat, accepted: set<int>) {
    width > 0 && 64 * |ws| == width &&
    forall p | last - width < p <= last :: Get(ws, Pos(p, width)) <==> p in accepted
  }

  ghost predicate AllClear(ws: seq<bv64>) {
    forall x | 0 <= x < 64 * |ws| :: !Get(ws, x)
  }

  lemma ZeroWordsClear(ws: seq<bv64>)
    requires forall i | 0 <= i < |ws| :: ws[i] == 0
    ensures AllClear(ws)
  {
    forall x | 0 <= x < 64 * |ws| ensures !Get(ws, x) {
      BitNone(Index(x));
    }
  }

  /** With nothing accepted no ring bit is set, at any position. */
  lemma NothingAccepted(ws: seq<bv64>, width: nat, last: nat)
    requires Tracks(ws, width, last, {})
    ensures AllClear(ws)
  {
    forall x | 0 <= x < 64 * |ws| ensures !Get(ws, x) {
      var p := last - Pos(last - x, width);
      Ahead(p, last, width);
      SamePos(last, x, width);
      assert Pos(p, width) == x;
    }
  }

  lemma SamePos(last: int, x: nat, width: nat)
    requires x < width
    ensures Pos(last - Pos(last - x, width), width) == x
  {
    var d := last - x;
    Split(d, width);
    var k := d / width;
    assert last - Pos(d, width) == k * width + x;
    Unique(last - Pos(d, width), width, k, x);
  }

  lemma SetTracks(ws: seq<bv64>, width: nat, last: nat, accepted: set<int>, n: nat)
    requires Tracks(ws, width, last, accepted) && last - width < n <= last
    ensures var x := Pos(n, width);
            Tracks(ws[x / 64 := ws[x / 64] | OneHot(Index(x))], width, last, accepted + {n})
  {
    var x := Pos(n, width);
    var ws' := ws[x / 64 := ws[x / 64] | OneHot(Index(x))];
    forall p | last - width < p <= last
      ensures Get(ws', Pos(p, width)) <==> p in accepted + {n}
    {
      SetOne(ws, ws'[x / 64], x, Pos(p, width));
      if p < n { DistinctResidues(p, n, width); }
      if n < p { DistinctResidues(n, p, width); }
    }
  }

  /** A jump of a whole ring or more: every bit is stale and has been cleared. */
  lemma JumpTracks(ws: seq<bv64>, width: nat, last: nat, accepted: set<int>, n: nat)
    requires width > 0 && 64 * |ws| == width && AllClear(ws)
    requires forall a | a in accepted :: a <= last
    requires n >= last + width || accepted == {}
    ensures Tracks(ws, width, n, accepted)
  {
  }

  /** A shorter advance: clearing the arc from `last + 1` to `n` leaves the bitmap tracking the
      window that ends at `n`. */
  lemma SlideTracks(ws: seq<bv64>, ws': seq<bv64>, width: nat, last: nat, accepted: set<int>, n: nat)
    requires Tracks(ws, width, last, accepted) && |ws'| == |ws|
    requires forall a | a in accepted :: a <= last
    requires last < n < last + width
    requires forall x | 0 <= x < width ::
               Get(ws', x) <==> Get(ws, x) && !OnArc(x, Pos(last + 1, width), Pos(n, width))
    ensures Tracks(ws', width, n, accepted)
  {
    forall p | n - width < p <= n
      ensures Get(ws', Pos(p, width)) <==> p in accepted
    {
      ArcIsAhead(last, n, width, p);
    }
  }

  // ---- The window ----------------------------------------------------------------------------

  class ReplayWindow {
    const width: nat
    const nw: nat
    const words: array<bv64>
    var last: U64
    /** Every number ever reported as a first copy. */
    ghost var accepted: set<int>

    ghost predicate Valid()
      reads this, words
    {
      Shape() &&
      (forall n | n in accepted :: 0 < n <= last) && (last == 0 ==> accepted == {}) &&
      Tracks(words[..], width, last, accepted)
    }

    ghost predicate Shape() {
      nw > 0 && width == 64 * nw && words.Length == nw
    }

    ghost function State(): Spec.Window
      reads this
    {
      Spec.Window(width, last, accepted)
    }

    constructor (size: int)
      requires size > 0
      ensures Valid() && fresh(words)
      ensures State() == Spec.Fresh(width)
      ensures size <= width < size + 64
    {
      var n := (size + 63) / 64;
      nw := n;
      width := n * 64;
      words := new bv64[n](_ => 0);
      last := 0;
      accepted := {};
      new;
      ZeroWordsClear(words[..]);
      JumpTracks(words[..], width, 0, {}, 0);
    }

    /** A window wide enough for `size` numbers, rounded up to whole words; refused when not positive. */
    static method New(size: int) returns (r: Result<ReplayWindow, string>)
      ensures r.Ok? <==> size > 0
      ensures r.Ok? ==> r.value.Valid() && fresh(r.value) && fresh(r.value.words)
      ensures r.Ok? ==> r.value.State() == Spec.Fresh(r.value.width) && size <= r.value.width < size + 64
    {
      if size <= 0 {
        return Err("dedup window capacity must be positive");
      }
      var w := new ReplayWindow(size);
      return Ok(w);
    }

    /** Classifies one packet number exactly as the remember-everything specification does. */
    method Observe(n: U64) returns (d: Spec.Decision)
      requires Valid()
      modifies this, words
      ensures Valid()
      ensures d == Spec.Decide(old(State()), n)
      ensures State() == Spec.Observe(old(State()), n)
    {
      if n == 0 {
        return Spec.Invalid;
      }
      if last == 0 {
        NothingAccepted(words[..], width, 0);
        JumpTracks(words[..], width, 0, {}, n);
        last := n;
        SetBit(n);
        return Spec.FirstCopy;
      }
      if n > last {
        Advance(n);
        return Spec.FirstCopy;
      }
      var diff := last - n;
      if diff >= width {
        return Spec.Stale;
      }
      var seen := TestBit(n);
      if seen {
        return Spec.Duplicate;
      }
      SetBit(n);
      return Spec.FirstCopy;
    }

    /** Slides the window forward so that `n` becomes its newest number. */
    method Advance(n: U64)
      requires Valid() && n > last
      modifies this, words
      ensures Valid() && last == n && accepted == old(accepted) + {n}
    {
      var diff := n - last;
      if diff >= width {
        ClearAll();
        JumpTracks(words[..], width, last, accepted, n);
      } else {
        ClearArc(Pos(last + 1, width), Pos(n, width));
        SlideTracks(old(words[..]), words[..], width, last, accepted, n);
      }
      last := n;
      SetBit(n);
    }

    method ClearAll()
      requires Shape()
      modifies words
      ensures AllClear(words[..])
    {
      for i := 0 to nw
        invariant forall k | 0 <= k < i :: words[k] == 0
      {
        words[i] := 0;
      }
      ZeroWordsClear(words[..]);
    }

    /** Clears the ring positions from `startPos` forward to `endPos`, around the end if need be. */
    method ClearArc(startPos: nat, endPos: nat)
      requires Shape() && startPos < width && endPos < width
      modifies words
      ensures forall x | 0 <= x < width ::
                Get(words[..], x) <==> old(Get(words[..], x)) && !OnArc(x, startPos, endPos)
    {
      if startPos <= endPos {
        ClearRange(startPos, endPos);
      } else {
        ClearRange(startPos, width - 1);
        ClearRange(0, endPos);
      }
    }

    /** Clears exactly the positions `lo..hi`: one partial word, or a partial low word, whole middle
        words and a partial high word. */
    method ClearRange(lo: nat, hi: nat)
      requires Shape() && lo <= hi < width
      modifies words
      ensures Cleared(old(words[..]), words[..], lo, hi)
    {
      var loWord := lo / 64;
      var hiWord := hi / 64;
      if loWord == hiWord {
        ClearWithin(lo, hi);
        return;
      }
      ghost var before := words[..];
      ClearFrom(lo);
      for wd := loWord + 1 to hiWord
        invariant Cleared(before, words[..], lo, 64 * wd - 1)
      {
        ghost var mid := words[..];
        words[wd] := 0;
        ClearWhole(mid, wd);
        assert words[..] == mid[wd := 0];
        ClearTwice(before, mid, words[..], lo, 64 * wd, 64 * wd + 63);
      }
      ghost var mid := words[..];
      ClearWithin(hiWord * 64, hi);
      ClearTwice(before, mid, words[..], lo, 64 * hiWord, hi);
    }

    method ClearWithin(lo: nat, hi: nat)
      requires Shape() && lo <= hi < width && lo / 64 == hi / 64
      modifies words
      ensures Cleared(old(words[..]), words[..], lo, hi)
    {
      ghost var before := words[..];
      words[lo / 64] := words[lo / 64] & !WordMask(Index(lo), Index(hi));
      assert words[..] == before[lo / 64 := words[lo / 64]];
      ClearInside(before, lo, hi);
    }

    method ClearFrom(lo: nat)
      requires Shape() && lo < width
      modifies words
      ensures Cleared(old(words[..]), words[..], lo, lo / 64 * 64 + 63)
    {
      ghost var before := words[..];
      words[lo / 64] := words[lo / 64] & !(!(0 as bv64) << Index(lo));
      assert words[..] == before[lo / 64 := words[lo / 64]];
      ClearLowPart(before, lo);
    }

    /** Marks `n`, which must lie in the window, as seen. */
    method SetBit(n: U64)
      requires Shape() && Tracks(words[..], width, last, accepted) && 0 < n
      requires last - width < n <= last
      modifies words, `accepted
      ensures Tracks(words[..], width, last, accepted) && accepted == old(accepted) + {n}
    {
      var pos := Pos(n, width);
      SetTracks(words[..], width, last, accepted, n);
      ghost var before := words[..];
      words[pos / 64] := words[pos / 64] | OneHot(Index(pos));
      assert words[..] == before[pos / 64 := words[pos / 64]];
      accepted := accepted + {n};
    }

    /** Whether `n`, which must lie in the window, was accepted before. */
    method TestBit(n: U64) returns (seen: bool)
      requires Valid() && last - width < n <= last
      ensures seen <==> n in accepted
    {
      var pos := Pos(n, width);
      var word, bit := words[pos / 64], Index(pos);
      TestOne(words[..], pos, word, bit);
      seen := word & OneHot(bit) != 0;
    }
  }
}
