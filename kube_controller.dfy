/**
 * The controller of the Kubernetes deployment (`kubernetes/controller.py`):
 * it has no job key, gathers every name that fits `img_\d_of_(\d).png`,
 * and stitches the tiles the way the single-job controller does.
 */
module KubeController {
  import opened Wrappers
  import opened Ordering
  import opened TilePattern
  import opened Raster
  import Controller

  /**
   * The settings the controller reads after construction, and the pattern
   * `combine_img_pieces` searches each name with, as the function `search`
   * from a name to the total its group captures.
   */
  datatype KubeController = KubeController(width: nat, height: nat, search: string -> Option<nat>)

  /** The controller as the server builds it: its pattern is `img_\d_of_(\d).png`. */
  function NewKubeController(width: nat, height: nat): (ctl: KubeController)
    ensures ctl.width == width && ctl.height == height
    ensures forall name :: ctl.search(name) == KubeSearch(name)
  {
    KubeController(width, height, name => KubeSearch(name))
  }

  /** `re.search(r'img_\d_of_(\d).png', p) is not None`. */
  predicate IsKubeTile(ctl: KubeController, name: string) {
    ctl.search(name).Some?
  }

  function KubeTiles(ctl: KubeController): string -> bool {
    name => IsKubeTile(ctl, name)
  }

  /** The sorted names that fit the pattern, whatever job wrote them. */
  function KubeGather(ctl: KubeController, listing: seq<string>): (paths: seq<string>)
    ensures forall i :: 0 <= i < |paths| ==> IsKubeTile(ctl, paths[i])
  {
    FilterKept(listing, KubeTiles(ctl));
    var kept := Filter(listing, KubeTiles(ctl));
    var paths := Sort(kept);
    assert forall i :: 0 <= i < |paths| ==> paths[i] in multiset(kept);
    paths
  }

  /**
   * The gathered names are exactly the listed names that fit the pattern,
   * each as often as it is listed, in sorted order.
   */
  lemma KubeGatherSpec(ctl: KubeController, listing: seq<string>)
    ensures Sorted(KubeGather(ctl, listing))
    ensures forall x :: multiset(KubeGather(ctl, listing))[x] == if IsKubeTile(ctl, x) then multiset(listing)[x] else 0
  {
    forall x ensures multiset(KubeGather(ctl, listing))[x] == if IsKubeTile(ctl, x) then multiset(listing)[x] else 0 {
      FilterCount(listing, KubeTiles(ctl), x);
    }
  }

  /** Nothing is gathered exactly when no listed name fits the pattern. */
  lemma KubeGatherEmpty(ctl: KubeController, listing: seq<string>)
    ensures KubeGather(ctl, listing) == [] <==> forall j :: 0 <= j < |listing| ==> !IsKubeTile(ctl, listing[j])
  {
    var paths := KubeGather(ctl, listing);
    KubeGatherSpec(ctl, listing);
    if paths == [] {
      forall j | 0 <= j < |listing| ensures !IsKubeTile(ctl, listing[j]) {
        assert multiset(paths)[listing[j]] == 0;
      }
    } else {
      assert multiset(paths)[paths[0]] > 0;
    }
  }

  /**
   * `combine_img_pieces`: the sorted names, `num_workers` read from the
   * first, tile `i` giving its columns `[i * interval, (i + 1) * interval)`.
   */
  function KubeCombine<P>(ctl: KubeController, listing: seq<string>, load: string -> Image<P>): Result<Image<P>, Controller.CombineError> {
    KubeStitch(ctl, KubeGather(ctl, listing), load)
  }

  /** What `combine_img_pieces` does with the gathered names. */
  function KubeStitch<P>(ctl: KubeController, paths: seq<string>, load: string -> Image<P>): Result<Image<P>, Controller.CombineError>
    requires forall i :: 0 <= i < |paths| ==> IsKubeTile(ctl, paths[i])
  {
    if paths == [] then Failure(Controller.NoTiles)
    else
      assert IsKubeTile(ctl, paths[0]);
      var numWorkers := ctl.search(paths[0]).value;
      if numWorkers != |paths| then Failure(Controller.CountMismatch)
      else
        match Reassemble(LoadAll(paths, load), ctl.width / numWorkers)
        case None => Failure(Controller.HeightMismatch)
        case Some(img) => Success(img)
  }

  /** `combine_img_pieces` as the loop it is: gather, check, slice each tile, concatenate. */
  method KubeCombineImgPieces<P>(ctl: KubeController, listing: seq<string>, load: string -> Image<P>)
    returns (r: Result<Image<P>, Controller.CombineError>)
    ensures r == KubeCombine(ctl, listing, load)
  {
    var paths := KubeGather(ctl, listing);
    if paths == [] {
      return Failure(Controller.NoTiles);
    }
    var numWorkers := ctl.search(paths[0]).value;
    if numWorkers != |paths| {
      return Failure(Controller.CountMismatch);
    }
    BlocksFit(ctl.width, numWorkers);
    var interval := ctl.width / numWorkers;
    var pieces := SliceTiles(paths, load, interval);
    var joined := Concat(pieces);
    if joined.None? {
      return Failure(Controller.HeightMismatch);
    }
    return Success(joined.value);
  }

  /**
   * The three failures: no name fits the pattern, a count that differs from
   * the total in the first name, or tiles of different heights.
   */
  lemma KubeStitchFails<P>(ctl: KubeController, paths: seq<string>, load: string -> Image<P>)
    requires forall i :: 0 <= i < |paths| ==> IsKubeTile(ctl, paths[i])
    ensures KubeStitch(ctl, paths, load) == Failure(Controller.NoTiles) <==> paths == []
    ensures KubeStitch(ctl, paths, load) == Failure(Controller.CountMismatch) <==>
      paths != [] && ctl.search(paths[0]).value != |paths|
    ensures KubeStitch(ctl, paths, load) == Failure(Controller.HeightMismatch) <==>
      KubeCountMatches(ctl, paths) && !SameHeight(LoadAll(paths, load))
  {
    if paths != [] {
      BlocksFit(ctl.width, |paths|);
      ReassembleFails(LoadAll(paths, load), ctl.width / |paths|);
    }
  }

  /** The count check passes: the first name's total is the number of names. */
  predicate KubeCountMatches(ctl: KubeController, paths: seq<string>) {
    paths != [] && IsKubeTile(ctl, paths[0]) && ctl.search(paths[0]).value == |paths|
  }

  /** Every gathered name loads to a `height x w` image. */
  predicate KubeFullTiles<P>(ctl: KubeController, paths: seq<string>, load: string -> Image<P>, w: nat) {
    forall i :: 0 <= i < |paths| ==> load(paths[i]).height == ctl.height && |load(paths[i]).columns| == w
  }

  /**
   * When the count check passes and every tile is a full `height x w`
   * image with `width <= w`, the result has that height and
   * `num_workers * interval` columns.
   */
  lemma KubeStitchShape<P>(ctl: KubeController, paths: seq<string>, load: string -> Image<P>, w: nat)
    requires KubeCountMatches(ctl, paths) && forall i :: 0 <= i < |paths| ==> IsKubeTile(ctl, paths[i])
    requires ctl.width <= w && KubeFullTiles(ctl, paths, load, w)
    ensures KubeStitch(ctl, paths, load).Success?
    ensures KubeStitch(ctl, paths, load).value.height == ctl.height
    ensures |KubeStitch(ctl, paths, load).value.columns| == |paths| * (ctl.width / |paths|)
  {
    BlocksFit(ctl.width, |paths|);
    ReassembleShape(LoadAll(paths, load), ctl.width / |paths|, ctl.height, w);
  }

  /** ... and column `c` is column `c` of the tile at sorted position `c // interval`. */
  lemma KubeStitchColumn<P>(ctl: KubeController, paths: seq<string>, load: string -> Image<P>, w: nat, interval: nat, c: nat)
    requires KubeCountMatches(ctl, paths) && forall i :: 0 <= i < |paths| ==> IsKubeTile(ctl, paths[i])
    requires ctl.width <= w && KubeFullTiles(ctl, paths, load, w)
    requires interval == ctl.width / |paths| && c < |paths| * interval
    ensures interval > 0 && 0 <= c / interval < |paths| && c < ctl.width
    ensures c < |load(paths[c / interval]).columns|
    ensures KubeStitch(ctl, paths, load).Success? && c < |KubeStitch(ctl, paths, load).value.columns|
    ensures KubeStitch(ctl, paths, load).value.columns[c] == load(paths[c / interval]).columns[c]
  {
    var n, tiles := |paths|, LoadAll(paths, load);
    BlocksFit(ctl.width, n);
    DivideColumn(c, interval, n);
    var k := c / interval;
    assert tiles[k] == load(paths[k]);
    assert forall i :: 0 <= i < n ==> tiles[i].height == ctl.height && |tiles[i].columns| == w;
    ReassembleColumn(tiles, interval, ctl.height, w, c);
    assert KubeStitch(ctl, paths, load) == Success(Reassemble(tiles, interval).value);
  }

  /** The combined image does not depend on the order of the listing. */
  lemma KubeCombineIgnoresOrder<P>(ctl: KubeController, listing: seq<string>, other: seq<string>, load: string -> Image<P>)
    requires multiset(listing) == multiset(other)
    ensures KubeCombine(ctl, listing, load) == KubeCombine(ctl, other, load)
  {
    FilterMultiset(listing, KubeTiles(ctl), other);
    SortIgnoresOrder(Filter(listing, KubeTiles(ctl)), Filter(other, KubeTiles(ctl)));
  }
}
