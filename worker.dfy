/**
 * The worker of `worker.py`: it reads its part argument `"k-m"`, renders
 * the columns `[k * (width // n), (k + 1) * (width // n))` of a full-size
 * image that starts black, and names the tile
 * `{unique_key}_img_{k+1}_of_{n}.png`, where `n = m + 1`.
 */
module Worker {
  import opened Wrappers
  import opened Decimal
  import opened Scene
  import opened Tracing
  import opened Raster

  // ---------------------------------------------------------------------
  // The part argument
  // ---------------------------------------------------------------------

  /** Python's `s.split(sep)`: the pieces between separators, empty pieces kept. */
  function Split(s: string, sep: char): (r: seq<string>)
    ensures |r| >= 1
    ensures forall i :: 0 <= i < |r| ==> sep !in r[i]
  {
    if s == [] then [[]]
    else
      var rest := Split(s[1..], sep);
      if s[0] == sep then [[]] + rest else [[s[0]] + rest[0]] + rest[1..]
  }

  /** `sep.join(parts)`. */
  function Join(parts: seq<string>, sep: char): string
    requires |parts| >= 1
  {
    if |parts| == 1 then parts[0] else parts[0] + [sep] + Join(parts[1..], sep)
  }

  /** Joining the pieces of a split gives back the string. */
  lemma {:induction false} JoinSplit(s: string, sep: char)
    ensures Join(Split(s, sep), sep) == s
  {
    if s != [] {
      JoinSplit(s[1..], sep);
      var rest := Split(s[1..], sep);
      if s[0] != sep {
        if |rest| == 1 {
          assert Join(Split(s, sep), sep) == [s[0]] + rest[0];
        } else {
          assert rest == [rest[0]] + rest[1..];
          assert Join(rest, sep) == rest[0] + [sep] + Join(rest[1..], sep);
        }
      }
    }
  }

  /** A string without the separator splits into itself alone. */
  lemma {:induction false} SplitNoSeparator(p: string, sep: char)
    requires sep !in p
    ensures Split(p, sep) == [p]
  {
    if p != [] {
      assert p[0] in p;
      SplitNoSeparator(p[1..], sep);
      assert [p[0]] + p[1..] == p;
    }
  }

  /** A piece without the separator, then the separator, splits off as the first piece. */
  lemma {:induction false} SplitFirst(p: string, sep: char, rest: string)
    requires sep !in p
    ensures Split(p + [sep] + rest, sep) == [p] + Split(rest, sep)
  {
    if p != [] {
      assert p[0] in p;
      assert (p + [sep] + rest)[1..] == p[1..] + [sep] + rest;
      SplitFirst(p[1..], sep, rest);
      assert [p[0]] + p[1..] == p;
    } else {
      assert (p + [sep] + rest)[1..] == rest;
    }
  }

  /** Splitting what was joined gives back the pieces, when no piece holds the separator. */
  lemma {:induction false} SplitJoin(parts: seq<string>, sep: char)
    requires |parts| >= 1
    requires forall i :: 0 <= i < |parts| ==> sep !in parts[i]
    ensures Split(Join(parts, sep), sep) == parts
  {
    if |parts| == 1 {
      SplitNoSeparator(parts[0], sep);
    } else {
      SplitJoin(parts[1..], sep);
      SplitFirst(parts[0], sep, Join(parts[1..], sep));
    }
  }

  /** What the part argument means: this worker's ordinal and the number of workers. */
  datatype Part = Part(imgPart: nat, numWorkers: nat)

  /**
   * The exception the part argument raises: `int()` of the first piece
   * (ValueError), indexing a second piece that is not there (IndexError),
   * `int()` of the second piece (ValueError).
   */
  datatype PartError = BadOrdinal | MissingCount | BadCount

  /**
   * `img_part = int(part.split('-')[0])`, then
   * `num_workers = int(part.split('-')[1]) + 1`; pieces after the second are
   * ignored.
   */
  function ParsePart(part: string): (r: Result<Part, PartError>)
    ensures r.Success? ==> r.value.numWorkers >= 1
  {
    var pieces := Split(part, '-');
    match ParseNat(pieces[0])
    case None => Failure(BadOrdinal)
    case Some(k) =>
      if |pieces| < 2 then Failure(MissingCount)
      else match ParseNat(pieces[1])
        case None => Failure(BadCount)
        case Some(m) => Success(Part(k, m + 1))
  }

  lemma NoDashInDigits(s: string)
    requires AllDigits(s)
    ensures '-' !in s
  {
    assert forall i :: 0 <= i < |s| ==> s[i] != '-';
  }

  /** A part whose first two pieces are `k` and `m` in decimal is worker `k` of `m + 1`. */
  lemma ParsePartPieces(part: string, k: nat, m: nat)
    requires var pieces := Split(part, '-'); |pieces| >= 2 && pieces[0] == FormatNat(k) && pieces[1] == FormatNat(m)
    ensures ParsePart(part) == Success(Part(k, m + 1))
  {
    ParseFormat(k);
    ParseFormat(m);
  }

  /** The part `"k-m"`, with `k` and `m` written in decimal, is worker `k` of `m + 1`. */
  lemma ParsePartFormat(k: nat, m: nat)
    ensures ParsePart(FormatNat(k) + "-" + FormatNat(m)) == Success(Part(k, m + 1))
  {
    var ks, ms := FormatNat(k), FormatNat(m);
    NoDashInDigits(ks);
    NoDashInDigits(ms);
    var part := ks + "-" + ms;
    SplitFirst(ks, '-', ms);
    SplitNoSeparator(ms, '-');
    assert Split(part, '-') == [ks, ms];
    ParsePartPieces(part, k, m);
  }

  /** Whatever follows a further dash is ignored: `"k-m-rest"` is still worker `k` of `m + 1`. */
  lemma ParsePartIgnoresRest(k: nat, m: nat, rest: string)
    ensures ParsePart(FormatNat(k) + "-" + FormatNat(m) + "-" + rest) == Success(Part(k, m + 1))
  {
    var ks, ms := FormatNat(k), FormatNat(m);
    NoDashInDigits(ks);
    NoDashInDigits(ms);
    var part := ks + "-" + ms + "-" + rest;
    var tail := ms + "-" + rest;
    assert part == ks + ['-'] + tail;
    SplitFirst(ks, '-', tail);
    SplitFirst(ms, '-', rest);
    assert Split(part, '-') == [ks] + ([ms] + Split(rest, '-'));
    ParsePartPieces(part, k, m);
  }

  /**
   * A part without a dash never yields a worker: a number alone fails on the
   * missing second piece, anything else already on the first.
   */
  lemma ParsePartWithoutDash(part: string)
    requires '-' !in part
    ensures ParsePart(part) == if ParseNat(part).Some? then Failure(MissingCount) else Failure(BadOrdinal)
  {
    SplitNoSeparator(part, '-');
  }

  // ---------------------------------------------------------------------
  // The columns of a worker
  // ---------------------------------------------------------------------

  /** `width // num_workers`: how many columns every worker renders. */
  function Interval(width: nat, n: nat): nat
    requires n >= 1
  {
    width / n
  }

  /** Column `c` is one of the columns worker `k` of `n` renders. */
  predicate Owns(k: nat, n: nat, width: nat, c: nat)
    requires n >= 1
  {
    k * Interval(width, n) <= c < (k + 1) * Interval(width, n)
  }

  /** The columns of worker `k < n` lie inside the image. */
  lemma OwnedColumnsInImage(k: nat, n: nat, width: nat)
    requires k < n
    ensures (k + 1) * Interval(width, n) <= n * Interval(width, n) <= width
  {
    MulMonotone(k + 1, n, Interval(width, n));
  }

  /** No column is rendered by two workers. */
  lemma OwnersDisjoint(k1: nat, k2: nat, n: nat, width: nat, c: nat)
    requires n >= 1
    requires Owns(k1, n, width, c) && Owns(k2, n, width, c)
    ensures k1 == k2
  {
    var w := Interval(width, n);
    if k1 < k2 {
      MulMonotone(k1 + 1, k2, w);
    } else if k2 < k1 {
      MulMonotone(k2 + 1, k1, w);
    }
  }

  /** Every column left of `n * (width // n)` is rendered by worker `c // (width // n)`. */
  lemma OwnerOf(n: nat, width: nat, c: nat)
    requires n >= 1 && c < n * Interval(width, n)
    ensures Interval(width, n) > 0
    ensures 0 <= c / Interval(width, n) < n && Owns(c / Interval(width, n), n, width, c)
  {
    var w := Interval(width, n);
    var k := c / w;
    assert k * w <= c < (k + 1) * w;
    if k >= n {
      MulMonotone(n, k, w);
    }
  }

  /** The last `width % n` columns are rendered by no worker. */
  lemma RemainderUnowned(k: nat, n: nat, width: nat, c: nat)
    requires k < n && n * Interval(width, n) <= c
    ensures !Owns(k, n, width, c)
  {
    OwnedColumnsInImage(k, n, width);
  }

  // ---------------------------------------------------------------------
  // The tile
  // ---------------------------------------------------------------------

  /** `f'{unique_key}_img_{img_part+1}_of_{num_workers}.png'`: the ordinal in the name counts from 1. */
  function TileName(key: int, part: Part): string {
    FormatInt(key) + "_img_" + FormatNat(part.imgPart + 1) + "_of_" + FormatNat(part.numWorkers) + ".png"
  }

  /**
   * The exceptions `main` raises before it saves a tile: `width / height`
   * or `-1. / r` dividing by zero, the part argument, `np.zeros` of a
   * negative size, and `img[..., i, :]` past the last column.
   */
  datatype WorkerError = ZeroDivision | BadPart(reason: PartError) | NegativeDimension | ColumnOutOfRange

  /** What a worker renders: its part and the image size. */
  datatype Job = Job(part: Part, width: nat, height: nat)

  /** The checks of `main`, in the order it makes them. */
  function Plan(part: string, width: int, height: int): (r: Result<Job, WorkerError>)
    ensures r.Success? ==> r.value.part.numWorkers >= 1
  {
    if height == 0 || width == 0 then Failure(ZeroDivision)
    else match ParsePart(part)
      case Failure(e) => Failure(BadPart(e))
      case Success(p) =>
        if height < 0 || width < 0 then Failure(NegativeDimension)
        else if (p.imgPart + 1) * Interval(width, p.numWorkers) > width then Failure(ColumnOutOfRange)
        else Success(Job(p, width, height))
  }

  /**
   * Worker `k` of `n` with `k < n`, on an image of positive size, always
   * gets to save its tile; the columns it renders lie inside the image.
   */
  lemma PlanSucceeds(k: nat, n: nat, width: int, height: int)
    requires k < n && width > 0 && height > 0
    ensures Plan(FormatNat(k) + "-" + FormatNat(n - 1), width, height) == Success(Job(Part(k, n), width, height))
  {
    ParsePartFormat(k, n - 1);
    OwnedColumnsInImage(k, n, width);
  }

  /**
   * Pixel `(y, x)` of the tile of `job`: the clipped colour of the primary
   * ray through column `x` and screen row `height - 1 - y` when the worker
   * renders column `x`, the initial black otherwise. `camera(i, j)` is the
   * primary ray of column `i` and screen row `j`.
   */
  function TilePixel(optics: Optics, scene: Scene, camera: (nat, nat) -> Ray, job: Job, y: nat, x: nat): Color
    requires job.part.numWorkers >= 1
  {
    if y < job.height && Owns(job.part.imgPart, job.part.numWorkers, job.width, x)
    then Clip(PixelColor(optics, scene, camera(x, job.height - 1 - y)))
    else Black
  }

  /** Every channel of every tile pixel lies in [0, 1]. */
  lemma TilePixelInUnitCube(optics: Optics, scene: Scene, camera: (nat, nat) -> Ray, job: Job, y: nat, x: nat)
    requires job.part.numWorkers >= 1
    ensures InUnitCube(TilePixel(optics, scene, camera, job, y, x))
  {
  }

  /**
   * The inner loop of `main` for one column `x` the worker renders: screen
   * row `j` goes to image row `height - j - 1`; the other columns are kept.
   */
  method RenderColumn(optics: Optics, scene: Scene, camera: (nat, nat) -> Ray, job: Job, img: array2<Color>, x: nat)
    requires job.part.numWorkers >= 1 && Owns(job.part.imgPart, job.part.numWorkers, job.width, x)
    requires img.Length0 == job.height && x < img.Length1
    modifies img
    ensures forall y, c :: 0 <= y < img.Length0 && 0 <= c < img.Length1 ==>
      img[y, c] == if c == x then TilePixel(optics, scene, camera, job, y, c) else old(img[y, c])
  {
    var h := img.Length0;
    for j := 0 to h
      invariant forall y, c :: 0 <= y < h && 0 <= c < img.Length1 ==>
        img[y, c] == if c == x && h - j <= y then TilePixel(optics, scene, camera, job, y, c) else old(img[y, c])
    {
      var col, _ := ShadePixel(optics, scene, camera(x, j));
      img[h - j - 1, x] := Clip(col);
    }
  }

  /**
   * The outer loop of `main` over the worker's columns
   * `[k * interval, (k + 1) * interval)`, on a black image of the job's
   * size: it stops with false at the first column past the image, where
   * `img[..., i, :]` raises, and otherwise leaves the whole tile rendered.
   */
  method RenderTile(optics: Optics, scene: Scene, camera: (nat, nat) -> Ray, job: Job, img: array2<Color>)
    returns (ok: bool)
    requires job.part.numWorkers >= 1
    requires img.Length0 == job.height && img.Length1 == job.width
    requires forall y, x :: 0 <= y < job.height && 0 <= x < job.width ==> img[y, x] == Black
    modifies img
    ensures ok <==> (job.part.imgPart + 1) * Interval(job.width, job.part.numWorkers) <= job.width
    ensures ok ==> forall y, x :: 0 <= y < job.height && 0 <= x < job.width ==>
      img[y, x] == TilePixel(optics, scene, camera, job, y, x)
  {
    var h, w := job.height, job.width;
    var interval := w / job.part.numWorkers;
    var start := job.part.imgPart * interval;
    assert start + interval == (job.part.imgPart + 1) * interval;
    var i := start;
    while i < start + interval
      invariant start <= i <= start + interval
      invariant i > start ==> i <= w
      invariant forall y, x :: 0 <= y < h && 0 <= x < w ==>
        img[y, x] == if start <= x < i then TilePixel(optics, scene, camera, job, y, x) else Black
    {
      if i >= w {
        return false;
      }
      RenderColumn(optics, scene, camera, job, img, i);
      i := i + 1;
    }
    return true;
  }

  /** What a worker saves: the tile's file name and its pixels. */
  datatype Tile = Tile(name: string, pixels: array2<Color>)

  /**
   * `main` of `worker.py`: the checks of `Plan`, then a black image of the
   * full size whose own columns are filled, column by column and screen row
   * by screen row, with screen row `j` written to image row
   * `height - j - 1`.
   */
  method RunWorker(optics: Optics, scene: Scene, camera: (nat, nat) -> Ray, part: string, key: int, width: int, height: int)
    returns (r: Result<Tile, WorkerError>)
    ensures r.Failure? <==> Plan(part, width, height).Failure?
    ensures r.Failure? ==> r.error == Plan(part, width, height).error
    ensures r.Success? ==>
      var job := Plan(part, width, height).value;
      var img := r.value.pixels;
      fresh(img) && r.value.name == TileName(key, job.part)
      && img.Length0 == job.height && img.Length1 == job.width
      && forall y, x :: 0 <= y < job.height && 0 <= x < job.width ==>
           img[y, x] == TilePixel(optics, scene, camera, job, y, x)
  {
    if height == 0 || width == 0 {
      return Failure(ZeroDivision);
    }
    var parsed := ParsePart(part);
    if parsed.Failure? {
      return Failure(BadPart(parsed.error));
    }
    var k, n := parsed.value.imgPart, parsed.value.numWorkers;
    if height < 0 || width < 0 {
      return Failure(NegativeDimension);
    }
    var job := Job(parsed.value, width, height);
    var img := new Color[height, width]((_, _) => Black);
    var ok := RenderTile(optics, scene, camera, job, img);
    if !ok {
      return Failure(ColumnOutOfRange);
    }
    r := Success(Tile(TileName(key, parsed.value), img));
  }
}
