# Distributed ray tracer: coordination core

A model of the discrete coordination logic of a small distributed ray
tracer. A controller publishes a scene. `n` workers each render a band of
columns of a full-size image and save it as a tile named
`{unique_key}_img_{k+1}_of_{n}.png`. The controller polls the shared
directory until every tile of its job is there, then stitches the tiles'
own columns into the final image. A second controller, used by the
Kubernetes deployment, stitches whatever tiles it finds without a job key.

The model, module by module:

- `Decimal`: Python's `str()` of an `int` and `int()` of a digit string.
- `Ordering`:
  - Python's string order and `sorted()` on lists of names;
  - the list-comprehension filter.
- `Scene`: the scene dictionary, `add_sphere`, `add_plane` and `create_scene`.
- `Tracing`: the control skeleton of `trace_ray` and of the per-pixel bounce loop.
  - The first-minimum nearest-hit scan, the shadow test against every other object, and the `depth_max`-bounded bounce loop with its weight.
  - Distances are `Inf | Fin(t)`.
  - Intersection, normalisation and local shading are the functions of an `Optics` value.
- `Worker`:
  - the part argument `"k-m"`;
  - the columns `[k * (width // n), (k + 1) * (width // n))` a worker renders;
  - the in-place, row-flipped pixel writes into a black `array2`;
  - the tile name;
  - the error paths of `main`.
- `TilePattern`: the two file-name patterns as explicit leftmost matchers with the semantics of `re.search`.
  - `\d` is one digit.
  - The `.` before `png` is any character but a newline.
  - A match may start anywhere in the name.
- `TileNames`: what the patterns make of the names the workers write.
- `Raster`:
  - images as a height and a sequence of columns;
  - numpy's clamping column slice and `np.concatenate(..., axis=1)`;
  - the reassembly loop.
- `Controller`: `controller.py`'s `gather_image_paths`, `workers_finished` and `combine_img_pieces`.
- `KubeController`: `kubernetes/controller.py`'s `combine_img_pieces`.
- `Pipeline`: the programs together.
  - When every tile of a job with at most nine workers is listed, the controller reports the job finished.
  - Every pixel of the stitched image is the clipped colour of the bounce loop for that pixel's camera ray.
  - This holds because single-digit ordinals sort in worker order, so the slice taken from sorted position `i` is the one worker `i` rendered.
  - The Kubernetes controller stitches the same image when only one job's tiles are present.

## Behaviour of the code worth noting

The model follows the code as written, including these behaviours:

- No worker absorbs the `width % n` remainder columns.
  - The last `width % n` columns are rendered by nobody (`Worker.RemainderUnowned`).
  - The reassembly drops them: the output is `n * (width // n)` columns wide.
- A shadowed hit makes `trace_ray` return `None`, so no ambient term is added and the bounce loop stops there.
- An object with reflection 0 does not stop the bounce loop. The loop keeps tracing, and later bounces only add nothing (`Tracing.NonReflectiveStopsContributing`).
- The tile ordinal in file names is 1-based and the part argument's is 0-based. The total is `m + 1` for the argument `"k-m"`.
- The help text of the part argument (worker.py:209) reads `'{n}-{total}'`, but `main` adds one to the second number (worker.py:165). So the argument `0-4` is worker 0 of five, not of four (`Worker.ParsePartFormat`).
- A controller with a negative `unique_key` never finishes, for any listing.
  - The key group is read with `int()` of a run of digits, so it is never negative (`Pipeline.NegativeKeyNeverFinishes`).
- The tiles of a job with a negative key are gathered by the controller of the key's magnitude.
  - The names of job `-k` start with `-`, so the leftmost match of `(\d+)` reads the key `k` (`TileNames.NegativeKeyGroup`).
  - The controller of job `k > 0` gathers those tiles (`Pipeline.NegativeTwinGathered`).
  - When only job `-k`'s tiles are listed, that controller reports its job finished and stitches the other job's image (`Pipeline.NegativeTwinFinishes`).

## Model

| member | source | states |
|---|---|---|
| Decimal.ParseNat | worker.py:164-165 | `int(s)` succeeds exactly on non-empty strings of ASCII digits |
| Decimal.FormatNat | worker.py:200-201 | `str(n)` is a non-empty digit string, one character exactly when `n < 10`, starting with `0` only for 0 |
| Decimal.FormatInt | worker.py:200-201 | `str(i)` of a non-negative key is its decimal form; every character is a digit or a minus sign |
| Decimal.ParseFormat | worker.py:164-165 | `int(str(n)) == n` for every `n >= 0` |
| Decimal.FormatSmall | worker.py:200-201 | a one-digit number is written as that single digit |
| Ordering.BelowReflexive | controller.py:102-105 | Python's string `<=` is reflexive |
| Ordering.BelowTotal | controller.py:102-105 | any two names are comparable |
| Ordering.BelowAntisymmetric | controller.py:102-105 | names below each other are equal |
| Ordering.BelowTransitive | controller.py:102-105 | the string order is transitive |
| Ordering.BelowAtFirstDifference | controller.py:102-105 | names that agree up to a position are ordered by the character there, strictly |
| Ordering.Insert | controller.py:102-105 | inserting into a sorted list keeps it sorted and adds exactly one copy of the name |
| Ordering.Sort | controller.py:102-105 | `sorted()` returns a sorted permutation of its input |
| Ordering.SortedUnique | controller.py:102-105 | two sorted lists with the same elements are equal |
| Ordering.SortIgnoresOrder | controller.py:102-105 | `sorted()` of two orderings of the same names gives the same list |
| Ordering.FilterCount | controller.py:107-110 | the comprehension keeps every occurrence of a kept name and none of the others |
| Ordering.FilterMultiset | controller.py:107-110 | filtering two orderings of the same names keeps the same names |
| Ordering.FilterMembership | controller.py:107-110 | a name is in the filtered list exactly when it is in the list and passes the test |
| Ordering.FilterSorted | controller.py:107-110 | filtering a sorted list leaves it sorted |
| Ordering.SortThenFilter | controller.py:102-110 | sorting then filtering equals filtering then sorting |
| Ordering.FilterKept | controller.py:107-110 | every kept name passes the test |
| Ordering.Filter | controller.py:107-110 | the list comprehension; it never lengthens the list, and `FilterCount`, `FilterMembership` and `FilterSorted` characterise it |
| Ordering.FilterTwice | controller.py:102-110 | a stricter second filter makes the first one redundant |
| Scene.AddSphere | controller.py:29-33 | a sphere reflects 0.5 and shades with the scene's default coefficients |
| Scene.AddPlane | controller.py:36-41 | a plane overrides diffuse to 0.75 and specular to 0.5, and reflects 0.25 |
| Scene.CreateScene | controller.py:44-74 | four objects: three spheres of radius 0.6, then a floor with normal (0, 1, 0); `depth_max` 5; every reflection in (0, 0.5] |
| Tracing.NearestUnique | worker.py:99-106 | at most one object is the first nearest |
| Tracing.Nearest | worker.py:99-106 | a chosen object is in range and at a finite distance |
| Tracing.NearestSpec | worker.py:99-106 | the scan finds nothing exactly when every distance is infinite; otherwise it finds the lowest index among the strictly smallest finite distances |
| Tracing.Trace | worker.py:94-127 | `trace_ray` as a function of the ray; `TraceMiss` and `TraceHit` characterise it and `TraceRay` is its loop implementation |
| Tracing.OthersMinSpec | worker.py:117-118 | `min` over the other objects is one of their distances, and none is smaller; `l` is empty exactly when no other object exists |
| Tracing.ShadowedIff | worker.py:117-120 | a hit is in shadow exactly when some other object has a finite distance along the shadow ray; the object hit is never tested |
| Tracing.ShadowRay | worker.py:114-117 | the shadow ray from the hit point offset by `.0001` along the normal, towards the light; `ShadowedIff` states the test made with it |
| Tracing.TraceMiss | worker.py:99-106 | a ray at infinite distance from every object gives `None` |
| Tracing.TraceHit | worker.py:107-127 | with object `i` hit first, `trace_ray` returns its object, hit point, normal and local colour exactly when the shadow ray meets no other object |
| Tracing.TraceRay | worker.py:94-127 | the loop implementation (scan, then shadow list and `min`) returns the specification `Trace` |
| Tracing.Walk | worker.py:186-195 | the bounce loop makes at most `depth_max` passes |
| Tracing.WalkHit | worker.py:186-190 | every pass records a ray `trace_ray` accepted and the hit it returned; the first is the primary ray |
| Tracing.WalkChain | worker.py:190-192 | each traced ray after the first is the bias-offset reflection of the previous one |
| Tracing.NextRay | worker.py:192 | the reflected ray from the biased hit point; `WalkChain` states that each later pass traces it |
| Tracing.WalkStopsAtMiss | worker.py:186-189 | fewer passes than `depth_max` means the next ray was rejected (a miss or a shadow) |
| Tracing.WalkStep | worker.py:187-193 | one accepted pass is the next recorded bounce, and the rest of the loop starts from its reflected ray |
| Tracing.PassStep | worker.py:193-195 | one pass adds the weighted local colour and multiplies the weight by the object's reflection, 1 by default |
| Tracing.Weight | worker.py:183-195 | `reflection` after the first `k` passes; `PassStep`, `WeightInUnit` and `NonReflectiveStopsContributing` characterise it |
| Tracing.Total | worker.py:183-195 | `col` after the first `k` passes; `PassStep` and `BounceLoop` characterise it |
| Tracing.BouncesAreTraces | worker.py:186-195 | the passes are exactly the successful `trace_ray` calls along the reflection chain, at most `depth_max` of them, stopping at the first rejection |
| Tracing.BounceLoop | worker.py:183-195 | the `while` loop leaves `depth` equal to the number of passes and `col` equal to the sum of weighted local colours |
| Tracing.ShadePixel | worker.py:179-195 | the colour and depth of one pixel are those of the specification of the bounce loop |
| Tracing.PixelColor | worker.py:179-195 | the colour the bounce loop leaves in `col`; `ShadePixel` and `BounceLoop` state that the loop computes it |
| Tracing.Clip | worker.py:196 | `np.clip(col, 0, 1)` lands in the unit cube and keeps a colour already there |
| Tracing.WeightInUnit | worker.py:195 | with every reflection in [0, 1], the running weight stays in [0, 1] |
| Tracing.NonReflectiveStopsContributing | worker.py:194-195 | after a first hit with reflection 0 the weight is 0, and the colour stays the first local colour |
| Worker.Split | worker.py:164-165 | `split('-')` yields at least one piece, and no piece holds a dash |
| Worker.JoinSplit | worker.py:164-165 | joining the pieces of a split gives the string back |
| Worker.SplitNoSeparator | worker.py:164-165 | a string without a dash splits into itself |
| Worker.SplitFirst | worker.py:164-165 | a dash-free prefix and a dash split off as the first piece |
| Worker.SplitJoin | worker.py:164-165 | splitting what was joined gives back the dash-free pieces |
| Worker.ParsePart | worker.py:164-165 | a parsed part always has at least one worker |
| Worker.ParsePartPieces | worker.py:164-165 | first pieces `k` and `m` in decimal give worker `k` of `m + 1` |
| Worker.ParsePartFormat | worker.py:164-165 | the part `"k-m"` is worker `k` of `m + 1` |
| Worker.ParsePartIgnoresRest | worker.py:164-165 | pieces after the second are ignored |
| Worker.ParsePartWithoutDash | worker.py:164-165 | without a dash: a number fails at the missing second piece, anything else at the first `int()` |
| Worker.OwnedColumnsInImage | worker.py:172-175 | worker `k < n` renders columns inside `[0, n * (width // n)) ⊆ [0, width)` |
| Worker.Owns | worker.py:172-175 | column `c` is one of worker `k`'s columns; `OwnedColumnsInImage`, `OwnersDisjoint`, `OwnerOf` and `RemainderUnowned` characterise it |
| Worker.Interval | worker.py:174 | `width // num_workers`; `OwnedColumnsInImage` and `OwnerOf` state what it divides |
| Worker.OwnersDisjoint | worker.py:172-175 | no column is rendered by two workers |
| Worker.OwnerOf | worker.py:172-175 | every column below `n * (width // n)` is rendered by worker `c // (width // n)` |
| Worker.RemainderUnowned | worker.py:172-175 | the last `width % n` columns are rendered by no worker |
| Worker.Plan | worker.py:161-175 | the checks of `main` succeed only with at least one worker |
| Worker.PlanSucceeds | worker.py:161-175 | worker `k < n` on an image of positive size passes every check of `main` |
| Worker.TilePixelInUnitCube | worker.py:196 | every channel of every tile pixel lies in [0, 1] |
| Worker.TilePixel | worker.py:178-196 | the pixel a worker's image holds: the clipped colour at owned columns, black elsewhere; `TilePixelInUnitCube` and `RunWorker` characterise it |
| Worker.RenderColumn | worker.py:178-196 | the inner loop writes every row of one own column, screen row `j` to image row `height - j - 1`, and changes nothing else |
| Worker.RenderTile | worker.py:171-196 | the outer loop fails exactly when the worker's columns pass the image edge; otherwise every own column holds the clipped traced colour and every other pixel stays black |
| Worker.RunWorker | worker.py:145-201 | `main` fails exactly as `Plan` does, with the same error; otherwise it returns a fresh image of the job's size holding the tile pixels, under the name `{unique_key}_img_{k+1}_of_{n}.png` |
| Worker.TileName | worker.py:199-201 | the f-string file name; `TileNames.NameRoundTrip` and `TileNames.NegativeKeyGroup` state what the patterns read from it |
| TilePattern.RunEnd | controller.py:22 | the `\d+` group ends at the end of the run of digits |
| TilePattern.MatchAt | controller.py:22 | `(\d+)_img_(\d)_of_(\d).png` matches at a position; `RunEnd` and `GroupsAt` characterise it |
| TilePattern.GroupsAt | controller.py:22 | the ordinal and total groups are single digits |
| TilePattern.First | controller.py:104 | a position found is in range and matches |
| TilePattern.FirstLeftmost | controller.py:104 | the scan finds a position exactly when one exists, and it is the leftmost |
| TilePattern.SearchSpec | controller.py:104 | `re.search` answers exactly when the pattern matches somewhere, with the groups of the leftmost match |
| TilePattern.Search | controller.py:104 | `re.search` with the controller's pattern; `SearchSpec` and `SearchAt` characterise it |
| TilePattern.SearchAt | controller.py:104-109 | a match with no match to its left gives the groups `re.search` reports |
| TilePattern.KubeSearch | kubernetes/controller.py:99-107 | the Kubernetes pattern's captured total is a single digit |
| TilePattern.KubeSearchSpec | kubernetes/controller.py:99-102 | the Kubernetes pattern answers exactly when it matches somewhere, with the leftmost total |
| TilePattern.KubeMatchInside | kubernetes/controller.py:99 | wherever the keyed pattern matches, the Kubernetes pattern matches at its `img_` with the same total |
| TilePattern.SearchThenKubeSearch | kubernetes/controller.py:99-103 | every name the keyed pattern finds, the Kubernetes pattern finds too |
| TilePattern.JoinedPathReadsDirectoryKey | controller.py:104-109 | the bare name `png7_img_1_of_2.png` reads key 7, but the same name joined to the directory `x/5_img_1_of_2` reads key 5, because `.` matches the `/` |
| TilePattern.JoinedPathReadsDirectoryTotal | kubernetes/controller.py:102-107 | the bare name `pngimg_1_of_2.png` reads total 2, but the same name joined to the directory `x/img_1_of_3` reads total 3 |
| TileNames.Layout | worker.py:199-201 | where the key, `_img_`, ordinal, `_of_`, total and `.png` sit in a tile name |
| TileNames.OnlyI | worker.py:199-201 | the only `i` of a tile name is the one of `_img_` |
| TileNames.OnlyIBetween | worker.py:199-201 | the same for any signed-number key and digit-string ordinal and total |
| TileNames.RunEndAt | controller.py:22 | a run of digits followed by a non-digit ends exactly there |
| TileNames.MatchIsAtImg | controller.py:22 | any match of the keyed pattern in a tile name uses the name's own `_img_` |
| TileNames.MatchAtOnlyI | controller.py:22 | in a name with a single `i`, a match's key run ends right before it |
| TileNames.ShortNameMatches | controller.py:22 | with a one-digit ordinal and total, the pattern matches right after the sign with groups (magnitude of the key, ordinal, total) |
| TileNames.MatchAfterKey | controller.py:22 | in `k_img_a_of_b.png`, the pattern matches where `k`'s final digit run starts, with the groups those digits spell |
| TileNames.NameRoundTrip | controller.py:104-109 | for a key `>= 0` and at most nine workers, a worker's name reads back as `(unique_key, img_part + 1, num_workers)` |
| TileNames.NegativeKeyGroup | controller.py:107-110 | for a negative key the key group is the magnitude, which differs from the key |
| TileNames.LongTailFails | controller.py:22 | with a two-digit ordinal or total, neither pattern fits at the name's `_img_` |
| TileNames.LongNameIgnored | controller.py:102-105 | a name with a two-digit ordinal or total matches nowhere, so it is never gathered |
| TileNames.KubeNameRoundTrip | kubernetes/controller.py:99-107 | the Kubernetes pattern reads the total of any worker's name with one-digit ordinal and total, whatever the key |
| TileNames.KubeMatchAfterKey | kubernetes/controller.py:99 | in `k_img_a_of_b.png`, the Kubernetes pattern reads the digit `b` |
| TileNames.KubeLongNameIgnored | kubernetes/controller.py:99-103 | a name with a two-digit ordinal or total does not fit the Kubernetes pattern either |
| TileNames.KubeNoMatch | kubernetes/controller.py:99 | a name with a single `i` and no match there has no match at all |
| TileNames.KubeMatchAtOnlyI | kubernetes/controller.py:99 | in a name with a single `i`, the Kubernetes pattern can only match there |
| Raster.SliceColumns | controller.py:158 | `img[:, lo:hi, :]` keeps the height, clamps both bounds to the width, and takes columns `lo + c` |
| Raster.Slices | controller.py:156-159 | the loop collects one slice per tile |
| Raster.SliceOf | controller.py:156-159 | slice `i` is columns `[i * interval, (i + 1) * interval)` of tile `i` |
| Raster.LoadAll | controller.py:157 | tile `i` is what reading name `i` gives |
| Raster.SliceTiles | controller.py:155-159 | the `for` loop builds exactly the slices of the specification |
| Raster.JoinedLength | controller.py:161 | concatenating images of `w` columns each gives `count * w` columns |
| Raster.JoinedAt | controller.py:161 | column `i * w + c` of the concatenation is column `c` of image `i` |
| Raster.Concat | controller.py:161 | `np.concatenate(..., axis=1)`; `JoinedLength`, `JoinedAt` and `ReassembleFails` characterise it |
| Raster.ReassembleFails | controller.py:161 | the concatenation fails exactly when the tiles' heights differ |
| Raster.Reassemble | controller.py:154-161 | the reassembly of the sorted tiles; `ReassembleShape`, `ReassembleColumn` and `ReassembleFails` characterise it |
| Raster.BlocksFit | controller.py:154 | `n` blocks of `width // n` columns fit in the width |
| Raster.DivideColumn | controller.py:154-159 | column `c < n * interval` is at offset `c % interval` of block `c // interval < n` |
| Raster.SliceShape | controller.py:156-159 | from tiles of one full shape, slice `i` has the tile height and `interval` columns, starting at column `i * interval` |
| Raster.ReassembleShape | controller.py:154-161 | tiles of one full shape reassemble to their height and `n * interval` columns |
| Raster.ReassembleColumn | controller.py:154-161 | column `c` of the reassembly is column `c` of tile `c // interval` |
| Controller.NewController | controller.py:21-27 | the controller keeps its key and size and searches with `(\d+)_img_(\d)_of_(\d).png` |
| Controller.GatherImagePaths | controller.py:102-110 | every gathered name matches and carries the controller's key |
| Controller.GatherSpec | controller.py:102-110 | the gathered names are the listed names of the job, sorted, each as often as listed |
| Controller.GatherEmpty | controller.py:102-110 | nothing is gathered exactly when no listed name belongs to the job |
| Controller.GatherIgnoresOrder | controller.py:102-110 | the order of `os.listdir` does not change what is gathered |
| Controller.Gathered | controller.py:102-110 | a name is gathered exactly when it is listed and belongs to the job |
| Controller.LastIsGreatest | controller.py:130 | the last gathered name is the greatest name of the job |
| Controller.GreatestIsLast | controller.py:130 | the greatest name of the job is the last gathered one |
| Controller.WorkersFinishedSpec | controller.py:125-135 | finished exactly when some name of the job is listed and the names of the job number at least the total of the greatest one, more included |
| Controller.WorkersFinished | controller.py:125-135 | `workers_finished`; characterised by `WorkersFinishedSpec` |
| Controller.CombineImgPieces | controller.py:147-161 | the loop implementation of `combine_img_pieces` computes the specification `Combine` |
| Controller.Combine | controller.py:147-161 | `combine_img_pieces`; `CombineImgPieces`, `CombineFails` and `CombineIgnoresOrder` characterise it |
| Controller.Stitch | controller.py:151-161 | `combine_img_pieces` after gathering; `StitchShape` and `StitchColumn` characterise it |
| Controller.CombineFails | controller.py:147-161 | `ValueError` exactly when no name belongs to the job; the assertion fails exactly when the first name's total differs from the count; `concatenate` fails exactly when heights differ |
| Controller.StitchShape | controller.py:154-161 | full-size tiles that pass the count check stitch to their height and `n * (width // n)` columns |
| Controller.StitchColumn | controller.py:154-161 | column `c` of the result is column `c` of the tile at sorted position `c // interval` |
| Controller.CombineIgnoresOrder | controller.py:102-161 | the final image does not depend on the listing order |
| KubeController.NewKubeController | kubernetes/controller.py:17-20 | the controller keeps its size and searches with `img_\d_of_(\d).png` |
| KubeController.KubeGather | kubernetes/controller.py:99-103 | every gathered name fits the pattern |
| KubeController.KubeGatherSpec | kubernetes/controller.py:99-103 | the gathered names are the listed names that fit the pattern, from any job, sorted, each as often as listed |
| KubeController.KubeGatherEmpty | kubernetes/controller.py:99-105 | nothing is gathered exactly when no listed name fits the pattern |
| KubeController.KubeCombineImgPieces | kubernetes/controller.py:99-117 | the loop implementation of `combine_img_pieces` computes the specification `KubeCombine` |
| KubeController.KubeCombine | kubernetes/controller.py:99-117 | `combine_img_pieces`; `KubeCombineImgPieces`, `KubeStitchFails` and `KubeCombineIgnoresOrder` characterise it |
| KubeController.KubeStitch | kubernetes/controller.py:104-117 | `combine_img_pieces` after gathering; `KubeStitchShape` and `KubeStitchColumn` characterise it |
| KubeController.KubeStitchFails | kubernetes/controller.py:104-117 | `ValueError` exactly when nothing is gathered; the assertion fails exactly when the first total differs from the count; `concatenate` fails exactly when heights differ |
| KubeController.KubeStitchShape | kubernetes/controller.py:107-117 | full-size tiles that pass the count check stitch to their height and `num_workers * interval` columns |
| KubeController.KubeStitchColumn | kubernetes/controller.py:110-117 | column `c` of the result is column `c` of the tile at sorted position `c // interval` |
| KubeController.KubeCombineIgnoresOrder | kubernetes/controller.py:100-117 | the combined image does not depend on the listing order |
| Pipeline.Names | worker.py:199-201 | the names the `n` workers of a job write, in worker order |
| Pipeline.NamesOfJob | controller.py:104-109 | with at most nine workers, each worker's name reads back as its key, ordinal and total |
| Pipeline.NamesSorted | controller.py:102-105 | with at most nine workers, worker order is sorted order |
| Pipeline.GatherJobNames | controller.py:102-110 | with the job's names listed once each, the gathered names are those names |
| Pipeline.JobNames | controller.py:102-110 | the names of a job with a non-negative key are sorted, all belong to the job, and the last names the total `n` |
| Pipeline.GatherSortedNames | controller.py:102-110 | with the job's names listed once each and already sorted, they are gathered as they are |
| Pipeline.CompleteJobFinished | controller.py:125-135 | with every tile listed, the controller gathers the names in worker order and reports the job finished |
| Pipeline.PartialJobUnfinished | controller.py:125-135 | with the tile of one worker missing, the controller keeps waiting |
| Pipeline.FewerThanTotal | controller.py:125-135 | fewer listed names of the job than their total means not finished |
| Pipeline.TileImage | worker.py:171-196 | the saved tile has the job's size and holds the tile pixels |
| Pipeline.CombineIsStitch | controller.py:147-152 | with every tile listed, the count check passes and the stitch runs on the names in worker order |
| Pipeline.CombinedShape | controller.py:154-161 | with every full-size tile listed, the stitch succeeds with the tiles' height and `n * (width // n)` columns |
| Pipeline.CombinedColumn | controller.py:154-161 | column `c` of the result comes from the tile of worker `c // interval` |
| Pipeline.StoredTilesFullSize | worker.py:171 | every saved tile is a full `height x width` image |
| Pipeline.OwnedPixel | worker.py:172-196 | in the tile of the worker owning column `c`, pixel `y` is the encoded, clipped colour of that pixel's camera ray |
| Pipeline.TileImageOwnedPixel | worker.py:172-196 | the same, for the image of one job |
| Pipeline.CombinedPixel | controller.py:154-161 | every pixel of the stitched image is the encoded, clipped colour of its camera ray, taken from the worker that rendered it |
| Pipeline.OtherJobIgnored | controller.py:107-110 | a tile of another job with a non-negative key is never gathered |
| Pipeline.NegativeKeyNeverFinishes | controller.py:107-110 | a controller with a negative key gathers nothing from any listing, so it never reports the job finished |
| Pipeline.NegativeTwinGathered | controller.py:107-110 | the controller of job `k > 0` gathers each listed tile of job `-k` |
| Pipeline.NegativeTwinFinishes | controller.py:125-135 | with only job `-k`'s complete tiles listed, the controller of job `k > 0` gathers them in worker order and reports the job finished |
| Pipeline.TwinNamesOfJob | controller.py:104-109 | with at most nine workers, the name of worker `k` of job `key < 0` reads back as `(-key, k + 1, n)` |
| Pipeline.TwinNames | controller.py:102-110 | the names of job `-key` are sorted, all belong to job `key`, and the last names the total `n` |
| Pipeline.KubeGathersEveryJob | kubernetes/controller.py:99-103 | the Kubernetes controller gathers the tiles of every job |
| Pipeline.KubeGathersJob | kubernetes/controller.py:99-103 | with one job's tiles listed once each, it gathers them in worker order |
| Pipeline.StitchesAgree | kubernetes/controller.py:107-117 | both controllers stitch the same names alike when they read the same total from the first |
| Pipeline.KubeAgrees | kubernetes/controller.py:99-117 | with one job's tiles present, the Kubernetes controller stitches the same image as that job's controller |
| Pipeline.KubeListedJob | kubernetes/controller.py:99-103 | a listing complete for the Kubernetes pattern is complete for the job's controller |

`kubernetes/controller.py:22-65` repeats `add_sphere`, `add_plane` and `create_scene` of `controller.py:29-74` line for line. `Scene.AddSphere`, `Scene.AddPlane` and `Scene.CreateScene` model both.

## Left out

- Floating-point maths: the ray/plane and ray/sphere intersections, `normalize`, and the Lambert and Blinn-Phong terms with the checkerboard colour (worker.py:17-91, 122-126). They are the functions of an `Optics` value. Their outputs are abstract reals, and no rounding is modelled.
- `normalize` divides its argument in place. Every call site passes a freshly computed vector, so the mutation is not observable and is not modelled.
- The screen coordinates from `np.linspace` and the aspect ratio (worker.py:161-162, 166, 172-180). The primary ray of column `i` and screen row `j` is the parameter `camera(i, j)`. Only the integer column index is modelled, together with the division by zero that a zero width or height raises.
- The scene file: `save_scene`, `load_scene`, pickle and the `os.path.exists`/`time.sleep` wait (controller.py:77-87, worker.py:130-142, kubernetes/controller.py:68-88). The scene is a parameter of the worker.
- Polling in `controller.py`'s `main`, `argparse`, and the progress `print`s. This is command-line plumbing with no logic.
- PNG encoding and decoding (`plt.imsave`, `Image.open`, `Image.fromarray`, `save`).
  - Reading a tile is the parameter `load`.
  - A worker's colours reach the file through the parameter `encode`.
  - The model returns the stitched image rather than writing it.
  - The channel axis of the numpy arrays is folded into the pixel type.
- `os.listdir`: the listing is the parameter `listing`.
- The race between writing and polling.
  - `worker.py:202` writes a tile with `plt.imsave` straight under its final name.
  - `main` of `controller.py` (lines 175-176) polls only for names, and `combine_img_pieces` then opens each file (line 157).
  - So a listed tile can still be partly written.
  - The model's `load` is a total function, and the end-to-end lemmas (`TilesStored`, `Pipeline.CombinedPixel`) assume that every listed tile is already complete.
- The directory prefix that `os.path.join` puts in front of each name.
  - In `controller.py`, line 104 tests the bare name, but lines 109, 130 and 151 search the joined path. In `kubernetes/controller.py`, line 102 tests the bare name and line 107 searches the joined path.
  - The model searches the bare name everywhere.
  - The two differ only when the leftmost match in the joined path starts inside the directory part.
  - Such a match need not lie inside the directory part, because the unescaped `.` before `png` also matches the `/` that `os.path.join` inserts.
  - Example for `controller.py`: the file `png7_img_1_of_2.png` in the directory `x/5_img_1_of_2` passes line 104, and its bare name reads key 7. At line 109 the joined path `x/5_img_1_of_2/png7_img_1_of_2.png` reads key 5. So the controller of key 5 gathers it, while the model gives it to key 7 (`TilePattern.JoinedPathReadsDirectoryKey`).
  - Example for `kubernetes/controller.py`: the file `pngimg_1_of_2.png` in the directory `x/img_1_of_3` has total 2 in its bare name, but total 3 in its joined path at line 107 (`TilePattern.JoinedPathReadsDirectoryTotal`).
- `kubernetes/render_template.py`: jinja2 template rendering with no coordination logic.
- `TilePattern.Search`: `\d` is read as an ASCII digit. Python's `re` also accepts other Unicode decimal digits, which no worker writes.
- `Decimal.ParseNat`: Python's `int()` also accepts surrounding whitespace, a `+` sign, underscores between digits and non-ASCII Unicode decimal digits. The model accepts only plain digit strings, so such a part argument is an error here.
- `Controller.NewController`: the key and size are `int` and `nat`. A negative width or height given to a controller is not modelled.
- The regular-expression search is a field of each controller datatype. `NewController` and `NewKubeController` set it to the patterns above, and the cross-program lemmas require exactly that (`Default`, `KubeDefault`). The optional `match_str` argument of `controller.py` is therefore any search function, not any regular expression. The search function's key group is a `nat`, so a custom pattern with a signed key group, such as `(-?\d+)_img_…`, is not modelled.
