/**
 * Images as numpy holds them after `np.asarray(Image.open(p))`, seen as a
 * height and a sequence of columns (a pixel is whatever a PNG stores), and
 * the two numpy operations the controllers apply to them: the column slice
 * `img[:, lo:hi, :]` and `np.concatenate(imgs, axis=1)`.
 */
module Raster {
  import opened Wrappers

  datatype Image<P> = Image(height: nat, columns: seq<seq<P>>)

  /** Every column of the image has `height` pixels. */
  predicate WellShaped<P>(img: Image<P>) {
    forall c :: 0 <= c < |img.columns| ==> |img.columns[c]| == img.height
  }

  function Min(a: nat, b: nat): nat {
    if a <= b then a else b
  }

  /**
   * `img[:, lo:hi, :]` for `0 <= lo <= hi`: numpy clamps both bounds to the
   * width, so a slice past the right edge is short or empty, never an error.
   */
  function SliceColumns<P>(img: Image<P>, lo: nat, hi: nat): (r: Image<P>)
    requires lo <= hi
    ensures r.height == img.height
    ensures |r.columns| == Min(hi, |img.columns|) - Min(lo, |img.columns|)
    ensures forall c :: 0 <= c < |r.columns| ==> r.columns[c] == img.columns[lo + c]
    ensures WellShaped(img) ==> WellShaped(r)
  {
    var w := |img.columns|;
    Image(img.height, img.columns[Min(lo, w)..Min(hi, w)])
  }

  /** The columns of `imgs`, left to right. */
  function Joined<P>(imgs: seq<Image<P>>): seq<seq<P>> {
    if imgs == [] then [] else Joined(imgs[..|imgs| - 1]) + imgs[|imgs| - 1].columns
  }

  /** Every image of `imgs` has the height of the first. */
  predicate SameHeight<P>(imgs: seq<Image<P>>)
    requires |imgs| >= 1
  {
    forall i :: 0 <= i < |imgs| ==> imgs[i].height == imgs[0].height
  }

  /**
   * `np.concatenate(imgs, axis=1)` of a non-empty list: the columns side by
   * side, or `None` for its ValueError when the heights differ.
   */
  function Concat<P>(imgs: seq<Image<P>>): Option<Image<P>>
    requires |imgs| >= 1
  {
    if SameHeight(imgs) then Some(Image(imgs[0].height, Joined(imgs))) else None
  }

  /**
   * The slices the reassembly loop collects from the first `n` tiles: tile
   * `i` gives its columns `[i * interval, (i + 1) * interval)`.
   */
  function Slices<P>(tiles: seq<Image<P>>, interval: nat, n: nat): (r: seq<Image<P>>)
    requires n <= |tiles|
    ensures |r| == n
  {
    if n == 0 then []
    else Slices(tiles, interval, n - 1) + [SliceColumns(tiles[n - 1], (n - 1) * interval, n * interval)]
  }

  /** Slice `i` is taken from tile `i`. */
  lemma {:induction false} SliceOf<P>(tiles: seq<Image<P>>, interval: nat, n: nat, i: nat)
    requires i < n <= |tiles|
    ensures Slices(tiles, interval, n)[i] == SliceColumns(tiles[i], i * interval, (i + 1) * interval)
  {
    if i < n - 1 {
      SliceOf(tiles, interval, n - 1, i);
    }
  }

  /** `np.asarray(Image.open(p))` for every path, in order; reading a file is the parameter `load`. */
  function LoadAll<P>(paths: seq<string>, load: string -> Image<P>): (tiles: seq<Image<P>>)
    ensures |tiles| == |paths|
    ensures forall i :: 0 <= i < |paths| ==> tiles[i] == load(paths[i])
  {
    seq(|paths|, i requires 0 <= i < |paths| => load(paths[i]))
  }

  /**
   * The loop both controllers run over the sorted names: load tile `i` and
   * keep its columns `[i * interval, (i + 1) * interval)`.
   */
  method SliceTiles<P>(paths: seq<string>, load: string -> Image<P>, interval: nat)
    returns (pieces: seq<Image<P>>)
    ensures pieces == Slices(LoadAll(paths, load), interval, |paths|)
  {
    ghost var tiles := LoadAll(paths, load);
    pieces := [];
    for i := 0 to |paths|
      invariant pieces == Slices(tiles, interval, i)
    {
      var img := load(paths[i]);
      var lo := i * interval;
      var hi := lo + interval;
      assert hi == (i + 1) * interval;
      pieces := pieces + [SliceColumns(img, lo, hi)];
    }
  }

  /** The image the reassembly produces from the tiles in sorted order. */
  function Reassemble<P>(tiles: seq<Image<P>>, interval: nat): Option<Image<P>>
    requires |tiles| >= 1
  {
    Concat(Slices(tiles, interval, |tiles|))
  }

  /** Multiplying by the same `c` keeps the order. */
  lemma MulMonotone(a: nat, b: nat, c: nat)
    requires a <= b
    ensures a * c <= b * c
  {
  }

  /** When every image has exactly `w` columns, the joined columns number `|imgs| * w`. */
  lemma {:induction false} JoinedLength<P>(imgs: seq<Image<P>>, w: nat)
    requires forall i :: 0 <= i < |imgs| ==> |imgs[i].columns| == w
    ensures |Joined(imgs)| == |imgs| * w
  {
    if imgs != [] {
      var n := |imgs|;
      JoinedLength(imgs[..n - 1], w);
      assert (n - 1) * w + w == n * w;
    }
  }

  /** When every image has exactly `w` columns, column `i * w + c` is column `c` of image `i`. */
  lemma {:induction false} JoinedAt<P>(imgs: seq<Image<P>>, w: nat, i: nat, c: nat)
    requires forall j :: 0 <= j < |imgs| ==> |imgs[j].columns| == w
    requires i < |imgs| && c < w
    ensures i * w + c < |Joined(imgs)| && Joined(imgs)[i * w + c] == imgs[i].columns[c]
  {
    var n := |imgs|;
    var init := imgs[..n - 1];
    JoinedLength(init, w);
    JoinedLength(imgs, w);
    if i < n - 1 {
      JoinedAt(init, w, i, c);
      assert imgs[i] == init[i];
    } else {
      assert |Joined(init)| == i * w;
    }
  }

  /**
   * The reassembly fails exactly when the tiles' heights differ, since a
   * slice keeps its tile's height.
   */
  lemma ReassembleFails<P>(tiles: seq<Image<P>>, interval: nat)
    requires |tiles| >= 1
    ensures Reassemble(tiles, interval).None? <==> !SameHeight(tiles)
  {
    var s := Slices(tiles, interval, |tiles|);
    forall i | 0 <= i < |tiles|
      ensures s[i].height == tiles[i].height
    {
      SliceOf(tiles, interval, |tiles|, i);
    }
  }

  /** The `n` blocks of `width // n` columns fit in the width. */
  lemma BlocksFit(width: nat, n: nat)
    requires n >= 1
    ensures 0 <= width / n && n * (width / n) <= width
  {
    assert n * (width / n) + width % n == width;
  }

  /** Column `c < n * interval` lies at offset `c % interval` within block `c // interval < n`. */
  lemma DivideColumn(c: nat, interval: nat, n: nat)
    requires c < n * interval
    ensures interval > 0 && 0 <= c / interval < n && c % interval < interval
    ensures c == (c / interval) * interval + c % interval
  {
    if c / interval >= n {
      MulMonotone(n, c / interval, interval);
    }
  }

  /**
   * From tiles of one shape `height x width`, with `n * interval <= width`,
   * slice `i` has that height and `interval` columns, the columns
   * `[i * interval, (i + 1) * interval)` of tile `i`.
   */
  lemma SliceShape<P>(tiles: seq<Image<P>>, interval: nat, height: nat, width: nat, i: nat)
    requires i < |tiles| && |tiles| * interval <= width
    requires forall j :: 0 <= j < |tiles| ==> tiles[j].height == height && |tiles[j].columns| == width
    ensures (i + 1) * interval <= width
    ensures var s := Slices(tiles, interval, |tiles|)[i];
      s.height == height && |s.columns| == interval
      && forall c :: 0 <= c < interval ==> s.columns[c] == tiles[i].columns[i * interval + c]
  {
    SliceOf(tiles, interval, |tiles|, i);
    MulMonotone(i + 1, |tiles|, interval);
  }

  /**
   * Tiles of one shape `height x width`, `n` of them, with
   * `n * interval <= width`: the reassembly succeeds with that height and
   * `n * interval` columns.
   */
  lemma ReassembleShape<P>(tiles: seq<Image<P>>, interval: nat, height: nat, width: nat)
    requires |tiles| >= 1 && |tiles| * interval <= width
    requires forall i :: 0 <= i < |tiles| ==> tiles[i].height == height && |tiles[i].columns| == width
    ensures Reassemble(tiles, interval).Some?
    ensures Reassemble(tiles, interval).value.height == height
    ensures |Reassemble(tiles, interval).value.columns| == |tiles| * interval
  {
    var s := Slices(tiles, interval, |tiles|);
    forall i | 0 <= i < |tiles|
      ensures s[i].height == height && |s[i].columns| == interval
    {
      SliceShape(tiles, interval, height, width, i);
    }
    JoinedLength(s, interval);
  }

  /** ... and column `c` of the result is column `c` of tile `c // interval`. */
  lemma ReassembleColumn<P>(tiles: seq<Image<P>>, interval: nat, height: nat, width: nat, c: nat)
    requires |tiles| >= 1 && |tiles| * interval <= width
    requires forall i :: 0 <= i < |tiles| ==> tiles[i].height == height && |tiles[i].columns| == width
    requires c < |tiles| * interval
    ensures interval > 0 && 0 <= c / interval < |tiles|
    ensures Reassemble(tiles, interval).Some?
    ensures c < |Reassemble(tiles, interval).value.columns|
    ensures Reassemble(tiles, interval).value.columns[c] == tiles[c / interval].columns[c]
  {
    var n := |tiles|;
    var s := Slices(tiles, interval, n);
    ReassembleShape(tiles, interval, height, width);
    forall i | 0 <= i < n
      ensures |s[i].columns| == interval
    {
      SliceShape(tiles, interval, height, width, i);
    }
    DivideColumn(c, interval, n);
    var i, d := c / interval, c % interval;
    SliceShape(tiles, interval, height, width, i);
    JoinedAt(s, interval, i, d);
  }
}
