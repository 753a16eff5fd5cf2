/**
 * The controller of one job (`controller.py`): it finds the tiles of its job
 * among the names in the shared directory, decides whether every worker is
 * done, and stitches the tiles' own columns into the final image.
 *
 * The directory listing is the parameter `listing` and reading a tile is the
 * parameter `load`; the names are compared without their directory prefix.
 */
module Controller {
  import opened Wrappers
  import opened Ordering
  import opened TilePattern
  import opened Raster

  /**
   * The settings the controller reads after construction. `search` is
   * `re.search(match_str, .)` with its three groups read as integers.
   */
  datatype Controller = Controller(uniqueKey: int, width: nat, height: nat, search: string -> Option<Groups>)

  /** A controller with the default `match_str`, `(\d+)_img_(\d)_of_(\d).png`. */
  function NewController(uniqueKey: int, width: nat, height: nat): (ctl: Controller)
    ensures ctl.uniqueKey == uniqueKey && ctl.width == width && ctl.height == height
    ensures forall name :: ctl.search(name) == Search(name)
  {
    Controller(uniqueKey, width, height, name => Search(name))
  }

  /** `re.search(match_str, p) is not None`. */
  function IsTile(ctl: Controller): string -> bool {
    name => ctl.search(name).Some?
  }

  /** The name matches and its first group, as an integer, is the controller's key. */
  predicate OfJob(ctl: Controller, name: string) {
    ctl.search(name).Some? && ctl.search(name).value.key == ctl.uniqueKey
  }

  function HasKey(ctl: Controller): string -> bool {
    name => OfJob(ctl, name)
  }

  /**
   * `gather_image_paths`: the matching names sorted, then those whose key
   * group is the controller's key.
   */
  function GatherImagePaths(ctl: Controller, listing: seq<string>): (paths: seq<string>)
    ensures forall i :: 0 <= i < |paths| ==> OfJob(ctl, paths[i])
  {
    var matched := Sort(Filter(listing, IsTile(ctl)));
    FilterKept(matched, HasKey(ctl));
    Filter(matched, HasKey(ctl))
  }

  /**
   * The gathered names are exactly the listed names of the job, each as
   * often as it is listed, in sorted order: the same as sorting the names
   * with the job's key.
   */
  lemma GatherSpec(ctl: Controller, listing: seq<string>)
    ensures GatherImagePaths(ctl, listing) == Sort(Filter(listing, HasKey(ctl)))
    ensures Sorted(GatherImagePaths(ctl, listing))
    ensures forall x :: multiset(GatherImagePaths(ctl, listing))[x] == if OfJob(ctl, x) then multiset(listing)[x] else 0
  {
    var tiles := Filter(listing, IsTile(ctl));
    SortThenFilter(tiles, HasKey(ctl));
    FilterTwice(listing, IsTile(ctl), HasKey(ctl));
    forall x ensures multiset(GatherImagePaths(ctl, listing))[x] == if OfJob(ctl, x) then multiset(listing)[x] else 0 {
      FilterCount(listing, HasKey(ctl), x);
    }
  }

  /** Nothing is gathered exactly when no listed name belongs to the job. */
  lemma GatherEmpty(ctl: Controller, listing: seq<string>)
    ensures GatherImagePaths(ctl, listing) == [] <==>
      forall j :: 0 <= j < |listing| ==> !OfJob(ctl, listing[j])
  {
    var paths := GatherImagePaths(ctl, listing);
    GatherSpec(ctl, listing);
    if paths == [] {
      forall j | 0 <= j < |listing|
        ensures !OfJob(ctl, listing[j])
      {
        assert multiset(paths)[listing[j]] == 0;
      }
    } else {
      assert multiset(paths)[paths[0]] > 0;
    }
  }

  /** The order `os.listdir` lists the names in does not matter. */
  lemma GatherIgnoresOrder(ctl: Controller, listing: seq<string>, other: seq<string>)
    requires multiset(listing) == multiset(other)
    ensures GatherImagePaths(ctl, listing) == GatherImagePaths(ctl, other)
  {
    GatherSpec(ctl, listing);
    GatherSpec(ctl, other);
    FilterMultiset(listing, HasKey(ctl), other);
    SortIgnoresOrder(Filter(listing, HasKey(ctl)), Filter(other, HasKey(ctl)));
  }

  /**
   * `workers_finished`: false when nothing is gathered or when fewer names
   * are gathered than the total read from the last (greatest) name.
   */
  function WorkersFinished(ctl: Controller, listing: seq<string>): bool {
    var paths := GatherImagePaths(ctl, listing);
    if paths == [] then false
    else
      var numWorkers := ctl.search(paths[|paths| - 1]).value.total;
      if |paths| < numWorkers then false else true
  }

  /** A name is gathered exactly when it is listed and belongs to the job. */
  lemma Gathered(ctl: Controller, listing: seq<string>, x: string)
    ensures x in GatherImagePaths(ctl, listing) <==> x in listing && OfJob(ctl, x)
  {
    GatherSpec(ctl, listing);
    assert x in GatherImagePaths(ctl, listing) <==> multiset(GatherImagePaths(ctl, listing))[x] > 0;
    assert x in listing <==> multiset(listing)[x] > 0;
  }

  /** `g` is a name of the job that no listed name of the job exceeds in Python's string order. */
  predicate Greatest(ctl: Controller, listing: seq<string>, g: string) {
    g in listing && OfJob(ctl, g) && forall x :: x in listing && OfJob(ctl, x) ==> Below(x, g)
  }

  /** The last gathered name is the greatest name of the job... */
  lemma LastIsGreatest(ctl: Controller, listing: seq<string>)
    requires GatherImagePaths(ctl, listing) != []
    ensures Greatest(ctl, listing, GatherImagePaths(ctl, listing)[|GatherImagePaths(ctl, listing)| - 1])
  {
    var paths := GatherImagePaths(ctl, listing);
    var last := paths[|paths| - 1];
    GatherSpec(ctl, listing);
    Gathered(ctl, listing, last);
    forall x | x in listing && OfJob(ctl, x)
      ensures Below(x, last)
    {
      Gathered(ctl, listing, x);
      var i :| 0 <= i < |paths| && paths[i] == x;
      if i == |paths| - 1 {
        BelowReflexive(x);
      }
    }
  }

  /** ... and the only one. */
  lemma GreatestIsLast(ctl: Controller, listing: seq<string>, g: string)
    requires Greatest(ctl, listing, g)
    ensures GatherImagePaths(ctl, listing) != []
    ensures g == GatherImagePaths(ctl, listing)[|GatherImagePaths(ctl, listing)| - 1]
  {
    var paths := GatherImagePaths(ctl, listing);
    Gathered(ctl, listing, g);
    var i :| 0 <= i < |paths| && paths[i] == g;
    var last := paths[|paths| - 1];
    if i < |paths| - 1 {
      Gathered(ctl, listing, last);
      assert Below(last, g);
      GatherSpec(ctl, listing);
      assert Below(g, last);
      BelowAntisymmetric(g, last);
    }
  }

  /**
   * The job counts as finished exactly when some name of the job is listed
   * and the names of the job number at least the total read from the
   * greatest of them, more of them included.
   */
  lemma WorkersFinishedSpec(ctl: Controller, listing: seq<string>)
    ensures WorkersFinished(ctl, listing) <==>
      exists g :: Greatest(ctl, listing, g) && |Filter(listing, HasKey(ctl))| >= ctl.search(g).value.total
  {
    var paths := GatherImagePaths(ctl, listing);
    GatherSpec(ctl, listing);
    if paths != [] {
      LastIsGreatest(ctl, listing);
    }
    forall g | Greatest(ctl, listing, g) ensures paths != [] && g == paths[|paths| - 1] {
      GreatestIsLast(ctl, listing, g);
    }
  }

  /** Why `combine_img_pieces` gives up. */
  datatype CombineError =
    | NoTiles         // the ValueError raised when no name is gathered
    | CountMismatch   // the failed assertion on the number of tiles
    | HeightMismatch  // the ValueError of `np.concatenate` on slices of different heights

  /**
   * `combine_img_pieces`: tile `i` of the sorted names gives its columns
   * `[i * interval, (i + 1) * interval)`, `interval = width // num_workers`,
   * with `num_workers` read from the first name; the slices are put side by
   * side.
   */
  function Combine<P>(ctl: Controller, listing: seq<string>, load: string -> Image<P>): Result<Image<P>, CombineError> {
    Stitch(ctl, GatherImagePaths(ctl, listing), load)
  }

  /** What `combine_img_pieces` does with the gathered names. */
  function Stitch<P>(ctl: Controller, paths: seq<string>, load: string -> Image<P>): Result<Image<P>, CombineError>
    requires forall i :: 0 <= i < |paths| ==> ctl.search(paths[i]).Some?
  {
    if paths == [] then Failure(NoTiles)
    else
      var numWorkers := ctl.search(paths[0]).value.total;
      if numWorkers != |paths| then Failure(CountMismatch)
      else
        match Reassemble(LoadAll(paths, load), ctl.width / numWorkers)
        case None => Failure(HeightMismatch)
        case Some(img) => Success(img)
  }

  /** `combine_img_pieces` as the loop it is: gather, check, slice each tile, concatenate. */
  method CombineImgPieces<P>(ctl: Controller, listing: seq<string>, load: string -> Image<P>)
    returns (r: Result<Image<P>, CombineError>)
    ensures r == Combine(ctl, listing, load)
  {
    var paths := GatherImagePaths(ctl, listing);
    if paths == [] {
      return Failure(NoTiles);
    }
    var numWorkers := ctl.search(paths[0]).value.total;
    if numWorkers != |paths| {
      return Failure(CountMismatch);
    }
    BlocksFit(ctl.width, numWorkers);
    var interval := ctl.width / numWorkers;
    var pieces := SliceTiles(paths, load, interval);
    var joined := Concat(pieces);
    if joined.None? {
      return Failure(HeightMismatch);
    }
    return Success(joined.value);
  }

  /**
   * The three failures: no name of the job, a count that differs from the
   * total in the first name, or tiles of different heights.
   */
  lemma CombineFails<P>(ctl: Controller, listing: seq<string>, load: string -> Image<P>)
    ensures var paths := GatherImagePaths(ctl, listing);
      (Combine(ctl, listing, load) == Failure(NoTiles) <==>
        forall j :: 0 <= j < |listing| ==> !OfJob(ctl, listing[j]))
      && (Combine(ctl, listing, load) == Failure(CountMismatch) <==>
        paths != [] && ctl.search(paths[0]).value.total != |paths|)
      && (Combine(ctl, listing, load) == Failure(HeightMismatch) <==>
        paths != [] && ctl.search(paths[0]).value.total == |paths| && !SameHeight(LoadAll(paths, load)))
  {
    var paths := GatherImagePaths(ctl, listing);
    GatherEmpty(ctl, listing);
    if paths != [] {
      BlocksFit(ctl.width, |paths|);
      ReassembleFails(LoadAll(paths, load), ctl.width / |paths|);
    }
  }

  /** The count check passes: the first gathered name's total is the number of names. */
  predicate CountMatches(ctl: Controller, paths: seq<string>) {
    paths != [] && ctl.search(paths[0]).Some? && ctl.search(paths[0]).value.total == |paths|
  }

  /** Every gathered name loads to a `height x w` image. */
  predicate FullTiles<P>(ctl: Controller, paths: seq<string>, load: string -> Image<P>, w: nat) {
    forall i :: 0 <= i < |paths| ==> load(paths[i]).height == ctl.height && |load(paths[i]).columns| == w
  }

  /**
   * When the count check passes and every gathered tile is a full
   * `height x w` image with `width <= w`, the result has that height and
   * `num_workers * interval` columns.
   */
  lemma StitchShape<P>(ctl: Controller, paths: seq<string>, load: string -> Image<P>, w: nat)
    requires CountMatches(ctl, paths) && forall i :: 0 <= i < |paths| ==> ctl.search(paths[i]).Some?
    requires ctl.width <= w && FullTiles(ctl, paths, load, w)
    ensures Stitch(ctl, paths, load).Success?
    ensures Stitch(ctl, paths, load).value.height == ctl.height
    ensures |Stitch(ctl, paths, load).value.columns| == |paths| * (ctl.width / |paths|)
  {
    BlocksFit(ctl.width, |paths|);
    ReassembleShape(LoadAll(paths, load), ctl.width / |paths|, ctl.height, w);
  }

  /** ... and column `c` is column `c` of the tile at sorted position `c // interval`. */
  lemma StitchColumn<P>(ctl: Controller, paths: seq<string>, load: string -> Image<P>, w: nat, interval: nat, c: nat)
    requires CountMatches(ctl, paths) && forall i :: 0 <= i < |paths| ==> ctl.search(paths[i]).Some?
    requires ctl.width <= w && FullTiles(ctl, paths, load, w)
    requires interval == ctl.width / |paths| && c < |paths| * interval
    ensures interval > 0 && 0 <= c / interval < |paths| && c < ctl.width
    ensures c < |load(paths[c / interval]).columns|
    ensures Stitch(ctl, paths, load).Success? && c < |Stitch(ctl, paths, load).value.columns|
    ensures Stitch(ctl, paths, load).value.columns[c] == load(paths[c / interval]).columns[c]
  {
    var n, tiles := |paths|, LoadAll(paths, load);
    BlocksFit(ctl.width, n);
    DivideColumn(c, interval, n);
    var k := c / interval;
    assert tiles[k] == load(paths[k]);
    assert forall i :: 0 <= i < n ==> tiles[i].height == ctl.height && |tiles[i].columns| == w;
    ReassembleColumn(tiles, interval, ctl.height, w, c);
    assert Stitch(ctl, paths, load) == Success(Reassemble(tiles, interval).value);
  }

  /** The combined image does not depend on the order of the listing. */
  lemma CombineIgnoresOrder<P>(ctl: Controller, listing: seq<string>, other: seq<string>, load: string -> Image<P>)
    requires multiset(listing) == multiset(other)
    ensures Combine(ctl, listing, load) == Combine(ctl, other, load)
  {
    GatherIgnoresOrder(ctl, listing, other);
  }
}
