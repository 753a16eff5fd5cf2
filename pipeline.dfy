/**
 * The three programs together: the `n` workers of job `key` each write one
 * full-size tile named `{key}_img_{k+1}_of_{n}.png`, and a controller that
 * finds them in its listing stitches them. The column the controller takes
 * from the tile at sorted position `i` is one that worker `i` rendered,
 * because with one-digit ordinals the string order of the names is the
 * order of the workers.
 *
 * What the shared directory holds is a hypothesis: the listing contains
 * each of the job's names once (`JobListed`), and reading the name of
 * worker `k` gives the image that worker computed, its colours passed
 * through the PNG encoding `encode` (`TilesStored`).
 */
module Pipeline {
  import opened Wrappers
  import opened Decimal
  import opened Ordering
  import opened Scene
  import opened Tracing
  import opened Worker
  import opened TilePattern
  import opened TileNames
  import opened Raster
  import opened Controller
  import opened KubeController

  /** The names the `n` workers of job `key` write, in worker order. */
  function Names(key: int, n: nat): (names: seq<string>)
    ensures |names| == n
    ensures forall k :: 0 <= k < n ==> names[k] == TileName(key, Part(k, n))
  {
    seq(n, k requires 0 <= k < n => TileName(key, Part(k, n)))
  }

  /** With at most nine workers, the pattern reads back each worker's key, ordinal and total. */
  lemma NamesOfJob(key: nat, n: nat, k: nat)
    requires n <= 9 && k < n
    ensures Search(Names(key, n)[k]) == Some(Groups(key, k + 1, n))
  {
    assert Names(key, n)[k] == TileName(key, Part(k, n));
    NameRoundTrip(key, Part(k, n));
  }

  /** With at most nine workers, the names in worker order are already sorted. */
  lemma NamesSorted(key: int, n: nat)
    requires n <= 9
    ensures Sorted(Names(key, n))
  {
    var names := Names(key, n);
    var p := FormatInt(key) + "_img_";
    var u := "_of_" + FormatNat(n) + ".png";
    forall i, j | 0 <= i < j < n
      ensures Below(names[i], names[j])
    {
      FormatSmall(i + 1);
      FormatSmall(j + 1);
      assert names[i] == p + [DigitChar(i + 1)] + u;
      assert names[j] == p + [DigitChar(j + 1)] + u;
      BelowAtFirstDifference(p, DigitChar(i + 1), DigitChar(j + 1), u, u);
    }
  }

  /**
   * The listing holds the names `names` of the job, each once, besides any
   * number of names that do not belong to the job.
   */
  ghost predicate JobListed(ctl: Controller, listing: seq<string>, names: seq<string>) {
    forall x :: OfJob(ctl, x) ==> multiset(listing)[x] == multiset(names)[x]
  }

  /** Every name in `names` belongs to the job: only those names are gathered, sorted. */
  lemma GatherJobNames(ctl: Controller, listing: seq<string>, names: seq<string>)
    requires JobListed(ctl, listing, names)
    requires forall i :: 0 <= i < |names| ==> OfJob(ctl, names[i])
    ensures multiset(GatherImagePaths(ctl, listing)) == multiset(names)
  {
    GatherSpec(ctl, listing);
    forall x ensures multiset(GatherImagePaths(ctl, listing))[x] == multiset(names)[x] {
      if !OfJob(ctl, x) {
        assert x !in names;
      }
    }
  }

  /** The controller reads names with the default `match_str`, as `NewController` makes it. */
  ghost predicate Default(ctl: Controller) {
    forall name :: ctl.search(name) == Search(name)
  }

  /**
   * When every worker's tile is listed, the controller gathers exactly the
   * workers' names, in worker order, and reports the job finished.
   */
  lemma CompleteJobFinished(ctl: Controller, n: nat, listing: seq<string>)
    requires Default(ctl) && ctl.uniqueKey >= 0 && 1 <= n <= 9
    requires JobListed(ctl, listing, Names(ctl.uniqueKey, n))
    ensures GatherImagePaths(ctl, listing) == Names(ctl.uniqueKey, n)
    ensures WorkersFinished(ctl, listing)
  {
    JobNames(ctl, n);
    GatherSortedNames(ctl, listing, Names(ctl.uniqueKey, n));
  }

  /** The names of the job are sorted, all of the job, the last one naming the total `n`. */
  lemma JobNames(ctl: Controller, n: nat)
    requires Default(ctl) && ctl.uniqueKey >= 0 && 1 <= n <= 9
    ensures var names := Names(ctl.uniqueKey, n);
      Sorted(names) && (forall i :: 0 <= i < n ==> OfJob(ctl, names[i]))
      && ctl.search(names[n - 1]).value.total == n
  {
    var names := Names(ctl.uniqueKey, n);
    forall i | 0 <= i < n ensures OfJob(ctl, names[i]) {
      NamesOfJob(ctl.uniqueKey, n, i);
    }
    NamesSorted(ctl.uniqueKey, n);
    NamesOfJob(ctl.uniqueKey, n, n - 1);
    assert ctl.search(names[n - 1]) == Search(names[n - 1]);
  }

  /** When the listed names of the job are `names`, already sorted, the controller gathers exactly `names`. */
  lemma GatherSortedNames(ctl: Controller, listing: seq<string>, names: seq<string>)
    requires JobListed(ctl, listing, names) && Sorted(names)
    requires forall i :: 0 <= i < |names| ==> OfJob(ctl, names[i])
    ensures GatherImagePaths(ctl, listing) == names
  {
    GatherJobNames(ctl, listing, names);
    GatherSpec(ctl, listing);
    SortedUnique(GatherImagePaths(ctl, listing), names);
  }

  /** When the tile of worker `m` is missing, the controller keeps waiting. */
  lemma PartialJobUnfinished(ctl: Controller, n: nat, listing: seq<string>, m: nat)
    requires Default(ctl) && ctl.uniqueKey >= 0 && 1 <= n <= 9 && m < n
    requires JobListed(ctl, listing, Names(ctl.uniqueKey, n)[..m] + Names(ctl.uniqueKey, n)[m + 1..])
    ensures !WorkersFinished(ctl, listing)
  {
    var names := Names(ctl.uniqueKey, n);
    var rest := names[..m] + names[m + 1..];
    forall i | 0 <= i < |rest| ensures OfJob(ctl, rest[i]) && ctl.search(rest[i]).value.total == n {
      var k := if i < m then i else i + 1;
      assert rest[i] == names[k];
      NamesOfJob(ctl.uniqueKey, n, k);
    }
    FewerThanTotal(ctl, listing, rest, n);
  }

  /**
   * The listing holds the names `names` of the job, each naming the total
   * `n`, and there are fewer than `n` of them: the controller keeps waiting.
   */
  lemma FewerThanTotal(ctl: Controller, listing: seq<string>, names: seq<string>, n: nat)
    requires JobListed(ctl, listing, names) && |names| < n
    requires forall i :: 0 <= i < |names| ==> OfJob(ctl, names[i]) && ctl.search(names[i]).value.total == n
    ensures !WorkersFinished(ctl, listing)
  {
    GatherJobNames(ctl, listing, names);
    var paths := GatherImagePaths(ctl, listing);
    assert |paths| == |multiset(paths)| == |multiset(names)| == |names|;
    if paths != [] {
      var last := paths[|paths| - 1];
      assert last in multiset(names);
    }
  }

  /**
   * The image the worker of `job` saves, as a height and columns: pixel
   * `(y, x)` of the worker's array, through the PNG encoding.
   */
  function TileImage<P>(encode: Color -> P, optics: Optics, scene: Scene, camera: (nat, nat) -> Ray, job: Job): (img: Image<P>)
    requires job.part.numWorkers >= 1
    ensures img.height == job.height && |img.columns| == job.width
    ensures forall x, y :: 0 <= x < job.width && 0 <= y < job.height ==>
      |img.columns[x]| == job.height && img.columns[x][y] == encode(TilePixel(optics, scene, camera, job, y, x))
  {
    Image(job.height, seq(job.width, x requires 0 <= x < job.width =>
      seq(job.height, y requires 0 <= y < job.height => encode(TilePixel(optics, scene, camera, job, y, x)))))
  }

  /** Every listed tile of the job is a full `height x width` image. */
  ghost predicate FullSize<P>(ctl: Controller, n: nat, load: string -> Image<P>) {
    forall k :: 0 <= k < n ==>
      load(Names(ctl.uniqueKey, n)[k]).height == ctl.height && |load(Names(ctl.uniqueKey, n)[k]).columns| == ctl.width
  }

  /** Reading the name of worker `k` gives the image worker `k` saved. */
  ghost predicate TilesStored<P>(ctl: Controller, n: nat, load: string -> Image<P>, encode: Color -> P,
                                 optics: Optics, scene: Scene, camera: (nat, nat) -> Ray)
    requires n >= 1
  {
    forall k :: 0 <= k < n ==>
      load(Names(ctl.uniqueKey, n)[k]) == TileImage(encode, optics, scene, camera, Job(Part(k, n), ctl.width, ctl.height))
  }

  /**
   * With every tile listed, the controller stitches the workers' names in
   * worker order, and its count check passes.
   */
  lemma CombineIsStitch<P>(ctl: Controller, n: nat, listing: seq<string>, load: string -> Image<P>)
    requires Default(ctl) && ctl.uniqueKey >= 0 && 1 <= n <= 9
    requires JobListed(ctl, listing, Names(ctl.uniqueKey, n))
    ensures forall i :: 0 <= i < n ==> ctl.search(Names(ctl.uniqueKey, n)[i]).Some?
    ensures CountMatches(ctl, Names(ctl.uniqueKey, n))
    ensures Combine(ctl, listing, load) == Stitch(ctl, Names(ctl.uniqueKey, n), load)
  {
    var names := Names(ctl.uniqueKey, n);
    forall i | 0 <= i < n ensures ctl.search(names[i]).Some? {
      NamesOfJob(ctl.uniqueKey, n, i);
    }
    CompleteJobFinished(ctl, n, listing);
    NamesOfJob(ctl.uniqueKey, n, 0);
  }

  /**
   * With every tile listed and every tile a full `height x width` image, the
   * stitching succeeds with that height and `n * (width // n)` columns.
   */
  lemma CombinedShape<P>(ctl: Controller, n: nat, listing: seq<string>, load: string -> Image<P>)
    requires Default(ctl) && ctl.uniqueKey >= 0 && 1 <= n <= 9
    requires JobListed(ctl, listing, Names(ctl.uniqueKey, n)) && FullSize(ctl, n, load)
    ensures Combine(ctl, listing, load).Success?
    ensures Combine(ctl, listing, load).value.height == ctl.height
    ensures |Combine(ctl, listing, load).value.columns| == n * (ctl.width / n)
  {
    CombineIsStitch(ctl, n, listing, load);
    StitchShape(ctl, Names(ctl.uniqueKey, n), load, ctl.width);
  }

  /**
   * ... and column `c` of the result is column `c` of the tile of worker
   * `c // interval`, which is the worker whose columns include `c`.
   */
  lemma CombinedColumn<P>(ctl: Controller, n: nat, listing: seq<string>, load: string -> Image<P>, interval: nat, c: nat)
    requires Default(ctl) && ctl.uniqueKey >= 0 && 1 <= n <= 9
    requires JobListed(ctl, listing, Names(ctl.uniqueKey, n)) && FullSize(ctl, n, load)
    requires interval == ctl.width / n && c < n * interval
    ensures interval > 0 && 0 <= c / interval < n && c < ctl.width
    ensures c < |load(Names(ctl.uniqueKey, n)[c / interval]).columns|
    ensures Combine(ctl, listing, load).Success? && c < |Combine(ctl, listing, load).value.columns|
    ensures Combine(ctl, listing, load).value.columns[c] == load(Names(ctl.uniqueKey, n)[c / interval]).columns[c]
  {
    var names := Names(ctl.uniqueKey, n);
    CombineIsStitch(ctl, n, listing, load);
    assert FullTiles(ctl, names, load, ctl.width);
    StitchColumn(ctl, names, load, ctl.width, interval, c);
  }

  /** The stored tiles are full size. */
  lemma StoredTilesFullSize<P>(ctl: Controller, n: nat, load: string -> Image<P>, encode: Color -> P,
                               optics: Optics, scene: Scene, camera: (nat, nat) -> Ray)
    requires 1 <= n && TilesStored(ctl, n, load, encode, optics, scene, camera)
    ensures FullSize(ctl, n, load)
  {
    forall k | 0 <= k < n
      ensures load(Names(ctl.uniqueKey, n)[k]).height == ctl.height && |load(Names(ctl.uniqueKey, n)[k]).columns| == ctl.width
    {
    }
  }

  /**
   * In the stored tile of the worker that owns column `c`, pixel `y` of that
   * column is the clipped colour of the camera ray through the pixel.
   */
  lemma OwnedPixel<P>(ctl: Controller, n: nat, load: string -> Image<P>, encode: Color -> P,
                      optics: Optics, scene: Scene, camera: (nat, nat) -> Ray, k: nat, c: nat, y: nat)
    requires 1 <= n && TilesStored(ctl, n, load, encode, optics, scene, camera)
    requires k < n && Owns(k, n, ctl.width, c) && c < ctl.width && y < ctl.height
    ensures c < |load(Names(ctl.uniqueKey, n)[k]).columns| && y < |load(Names(ctl.uniqueKey, n)[k]).columns[c]|
    ensures load(Names(ctl.uniqueKey, n)[k]).columns[c][y] == encode(Clip(PixelColor(optics, scene, camera(c, ctl.height - 1 - y))))
  {
    var job := Job(Part(k, n), ctl.width, ctl.height);
    assert load(Names(ctl.uniqueKey, n)[k]) == TileImage(encode, optics, scene, camera, job);
    TileImageOwnedPixel(encode, optics, scene, camera, job, c, y);
  }

  /** Pixel `y` of a column `c` the worker renders holds the clipped, encoded colour of its camera ray. */
  lemma TileImageOwnedPixel<P>(encode: Color -> P, optics: Optics, scene: Scene, camera: (nat, nat) -> Ray, job: Job, c: nat, y: nat)
    requires job.part.numWorkers >= 1
    requires Owns(job.part.imgPart, job.part.numWorkers, job.width, c) && c < job.width && y < job.height
    ensures var tile := TileImage(encode, optics, scene, camera, job);
      c < |tile.columns| && y < |tile.columns[c]|
      && tile.columns[c][y] == encode(Clip(PixelColor(optics, scene, camera(c, job.height - 1 - y))))
  {
    assert TilePixel(optics, scene, camera, job, y, c) == Clip(PixelColor(optics, scene, camera(c, job.height - 1 - y)));
  }

  /**
   * Every pixel of the final image is the clipped colour the bounce loop
   * computes for the camera ray of that pixel: no column is left black and
   * none is taken from a worker that did not render it.
   */
  lemma CombinedPixel<P>(ctl: Controller, n: nat, listing: seq<string>, load: string -> Image<P>, encode: Color -> P,
                         optics: Optics, scene: Scene, camera: (nat, nat) -> Ray, c: nat, y: nat)
    requires Default(ctl) && ctl.uniqueKey >= 0 && 1 <= n <= 9
    requires JobListed(ctl, listing, Names(ctl.uniqueKey, n))
    requires TilesStored(ctl, n, load, encode, optics, scene, camera)
    requires c < n * (ctl.width / n) && y < ctl.height
    ensures Combine(ctl, listing, load).Success? && c < |Combine(ctl, listing, load).value.columns|
    ensures y < |Combine(ctl, listing, load).value.columns[c]|
    ensures Combine(ctl, listing, load).value.columns[c][y] ==
      encode(Clip(PixelColor(optics, scene, camera(c, ctl.height - 1 - y))))
  {
    var interval := ctl.width / n;
    StoredTilesFullSize(ctl, n, load, encode, optics, scene, camera);
    CombinedColumn(ctl, n, listing, load, interval, c);
    OwnerOf(n, ctl.width, c);
    OwnedPixel(ctl, n, load, encode, optics, scene, camera, c / interval, c, y);
  }

  /**
   * A tile of another job, even with the same ordinal and total, is never
   * gathered by this job's controller.
   */
  lemma OtherJobIgnored(ctl: Controller, other: nat, part: Part, listing: seq<string>)
    requires Default(ctl) && other != ctl.uniqueKey
    requires part.imgPart + 1 <= 9 && 1 <= part.numWorkers <= 9
    ensures TileName(other, part) !in GatherImagePaths(ctl, listing)
  {
    NameRoundTrip(other, part);
    Gathered(ctl, listing, TileName(other, part));
  }

  /**
   * A controller with a negative key never finishes, whatever the listing
   * and whatever search function it holds: the key group is read as a
   * non-negative integer, so no name ever carries the controller's key.
   */
  lemma NegativeKeyNeverFinishes(ctl: Controller, listing: seq<string>)
    requires ctl.uniqueKey < 0
    ensures GatherImagePaths(ctl, listing) == []
    ensures !WorkersFinished(ctl, listing)
  {
    GatherEmpty(ctl, listing);
  }

  /**
   * The tiles of job `-key` carry the key group `key`, so the controller of
   * job `key > 0` gathers them as its own.
   */
  lemma NegativeTwinGathered(ctl: Controller, part: Part, listing: seq<string>)
    requires Default(ctl) && ctl.uniqueKey > 0
    requires part.imgPart + 1 <= 9 && 1 <= part.numWorkers <= 9
    requires TileName(-ctl.uniqueKey, part) in listing
    ensures TileName(-ctl.uniqueKey, part) in GatherImagePaths(ctl, listing)
  {
    NegativeKeyGroup(-ctl.uniqueKey, part);
    Gathered(ctl, listing, TileName(-ctl.uniqueKey, part));
  }

  /**
   * When the listing holds the complete tiles of job `-key` and none of job
   * `key > 0`, the controller of job `key` gathers the other job's tiles in
   * worker order and reports its own job finished.
   */
  lemma NegativeTwinFinishes(ctl: Controller, n: nat, listing: seq<string>)
    requires Default(ctl) && ctl.uniqueKey > 0 && 1 <= n <= 9
    requires JobListed(ctl, listing, Names(-ctl.uniqueKey, n))
    ensures GatherImagePaths(ctl, listing) == Names(-ctl.uniqueKey, n)
    ensures WorkersFinished(ctl, listing)
  {
    TwinNames(ctl, n);
    GatherSortedNames(ctl, listing, Names(-ctl.uniqueKey, n));
  }

  /**
   * The names of job `-key`, for the controller of job `key > 0`: sorted,
   * all of its job, the last one naming the total `n`.
   */
  lemma TwinNames(ctl: Controller, n: nat)
    requires Default(ctl) && ctl.uniqueKey > 0 && 1 <= n <= 9
    ensures var names := Names(-ctl.uniqueKey, n);
      Sorted(names) && (forall i :: 0 <= i < n ==> OfJob(ctl, names[i]))
      && ctl.search(names[n - 1]).value.total == n
  {
    var names := Names(-ctl.uniqueKey, n);
    forall i | 0 <= i < n ensures OfJob(ctl, names[i]) {
      TwinNamesOfJob(-ctl.uniqueKey, n, i);
    }
    NamesSorted(-ctl.uniqueKey, n);
    TwinNamesOfJob(-ctl.uniqueKey, n, n - 1);
    assert ctl.search(names[n - 1]) == Search(names[n - 1]);
  }

  /** With at most nine workers, the pattern reads the names of job `key < 0` as those of job `-key`. */
  lemma TwinNamesOfJob(key: int, n: nat, k: nat)
    requires key < 0 && n <= 9 && k < n
    ensures Search(Names(key, n)[k]) == Some(Groups(-key, k + 1, n))
  {
    assert Names(key, n)[k] == TileName(key, Part(k, n));
    NegativeKeyGroup(key, Part(k, n));
  }

  /**
   * The listing holds the names `names`, each once, besides any number of
   * names that do not fit the Kubernetes pattern.
   */
  ghost predicate KubeListed(kube: KubeController, listing: seq<string>, names: seq<string>) {
    forall x :: IsKubeTile(kube, x) ==> multiset(listing)[x] == multiset(names)[x]
  }

  /** The Kubernetes controller searches with `img_\d_of_(\d).png`, as `NewKubeController` sets it up. */
  ghost predicate KubeDefault(kube: KubeController) {
    forall name :: kube.search(name) == KubeSearch(name)
  }

  /** The Kubernetes controller gathers the tiles of every job in the listing. */
  lemma KubeGathersEveryJob(kube: KubeController, key: int, part: Part, listing: seq<string>)
    requires KubeDefault(kube)
    requires part.imgPart + 1 <= 9 && 1 <= part.numWorkers <= 9
    requires TileName(key, part) in listing
    ensures TileName(key, part) in KubeGather(kube, listing)
  {
    KubeNameRoundTrip(key, part);
    KubeGatherSpec(kube, listing);
    assert multiset(listing)[TileName(key, part)] > 0;
  }

  /** When only one job's tiles fit the Kubernetes pattern, it gathers them in worker order. */
  lemma KubeGathersJob(kube: KubeController, key: nat, n: nat, listing: seq<string>)
    requires KubeDefault(kube)
    requires 1 <= n <= 9
    requires KubeListed(kube, listing, Names(key, n))
    ensures KubeGather(kube, listing) == Names(key, n)
  {
    var names := Names(key, n);
    forall i | 0 <= i < n ensures IsKubeTile(kube, names[i]) {
      KubeNameRoundTrip(key, Part(i, n));
    }
    KubeGatherSpec(kube, listing);
    forall x ensures multiset(KubeGather(kube, listing))[x] == multiset(names)[x] {
      if !IsKubeTile(kube, x) {
        assert x !in names;
      }
    }
    NamesSorted(key, n);
    SortedUnique(KubeGather(kube, listing), names);
  }

  /** The two controllers stitch the same names alike when they read the same total from the first. */
  lemma StitchesAgree<P>(kube: KubeController, ctl: Controller, paths: seq<string>, load: string -> Image<P>)
    requires kube.width == ctl.width
    requires forall i :: 0 <= i < |paths| ==> IsKubeTile(kube, paths[i]) && ctl.search(paths[i]).Some?
    requires paths != [] ==> kube.search(paths[0]) == Some(ctl.search(paths[0]).value.total)
    ensures KubeStitch(kube, paths, load) == Stitch(ctl, paths, load)
  {
  }

  /**
   * When only one job's tiles fit the Kubernetes pattern, the Kubernetes
   * controller stitches the same image as that job's controller.
   */
  lemma KubeAgrees<P>(kube: KubeController, ctl: Controller, n: nat, listing: seq<string>, load: string -> Image<P>)
    requires Default(ctl) && KubeDefault(kube) && ctl.uniqueKey >= 0 && 1 <= n <= 9
    requires kube.width == ctl.width
    requires KubeListed(kube, listing, Names(ctl.uniqueKey, n))
    ensures KubeCombine(kube, listing, load) == Combine(ctl, listing, load)
  {
    var key := ctl.uniqueKey;
    var names := Names(key, n);
    KubeGathersJob(kube, key, n, listing);
    KubeListedJob(kube, ctl, listing, names);
    CombineIsStitch(ctl, n, listing, load);
    KubeNameRoundTrip(key, Part(0, n));
    NamesOfJob(key, n, 0);
    StitchesAgree(kube, ctl, names, load);
  }

  /** Every name of the job fits the Kubernetes pattern too, so a listing complete for one is complete for the other. */
  lemma KubeListedJob(kube: KubeController, ctl: Controller, listing: seq<string>, names: seq<string>)
    requires Default(ctl) && KubeDefault(kube)
    requires KubeListed(kube, listing, names)
    ensures JobListed(ctl, listing, names)
  {
    forall x | OfJob(ctl, x) ensures multiset(listing)[x] == multiset(names)[x] {
      SearchThenKubeSearch(x);
    }
  }
}
