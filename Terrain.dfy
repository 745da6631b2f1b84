/** The OS Terrain 50 tile server: it names the archive holding the tile of a
    grid reference, loads and decodes each tile at most once between cache
    clears (remembering failures as well as tiles), counts requests, reads and
    failed reads, and answers heights from the cached fixed-point samples. */
module Terrain {
  import opened Wrappers
  import opened GoInt
  import opened GoText
  import opened TileCodec

  /** One file of a tile archive: its name and its text, as lines. */
  datatype ZipEntry = ZipEntry(name: string, lines: seq<string>)

  /** What the height path takes from outside this package. */
  datatype Env = Env(
    // `osgridref.ParseOsGridRef`; `Height` discards its error, so only the reference is kept
    parseGridRef: string -> GridRef,
    // `OsGridRef.StringNCompact(2)`: the two letters and the 10 km digits, e.g. "NY21"
    compact: GridRef -> string,
    // `zip.OpenReader`: the files of the archive at a path, or `None` when it cannot be opened
    archives: string -> Option<seq<ZipEntry>>,
    // `strconv.ParseFloat` and the fixed-point conversion of one sample
    parseSample: SampleParser)

  /** The fixed part of every tile archive's name. */
  const ArchiveSuffix: string := "_OST50GRID_20200303.zip"

  /** `path.Join(dataDirectory, dirName, fileName)` for a clean data
      directory and a plain directory and file name (never empty, no `/`):
      the parts are joined by `/` and the result cleaned, which drops an
      empty or `.` data directory and does not double the slash after `/`. */
  function PathJoin(dataDirectory: string, dirName: string, fileName: string): string
  {
    if dataDirectory == "" || dataDirectory == "." then dirName + "/" + fileName
    else if dataDirectory == "/" then "/" + dirName + "/" + fileName
    else dataDirectory + "/" + dirName + "/" + fileName
  }

  /** The directory part `PathJoin` puts before the tile's own directory. */
  function DirPrefix(dataDirectory: string): string
  {
    if dataDirectory == "" || dataDirectory == "." then ""
    else if dataDirectory == "/" then "/"
    else dataDirectory + "/"
  }

  /** `tileZip`: the archive for the 10 km square whose compact name is
      `compact`, in the directory of its 100 km square. */
  function TileZip(dataDirectory: string, compact: string): (path: string)
    requires |compact| >= 4
    ensures path == DirPrefix(dataDirectory) + ToLower(compact[..2]) + "/" + ToLower(compact[..4]) + ArchiveSuffix
  {
    var tileName := ToLower(compact);
    var dirName := ToLower(tileName[..2]);
    var fileName := ToLower(tileName[..4]) + ArchiveSuffix;
    assert tileName[..2] == ToLower(compact[..2]) && tileName[..4] == ToLower(compact[..4]);
    ToLowerIdempotent(compact[..2]);
    ToLowerIdempotent(compact[..4]);
    PathJoin(dataDirectory, dirName, fileName)
  }

  /** Two grid references share a tile archive, and so a cache entry, exactly
      when the first four characters of their compact names agree up to case. */
  lemma SameTileZip(dataDirectory: string, a: string, b: string)
    requires |a| >= 4 && |b| >= 4
    ensures TileZip(dataDirectory, a) == TileZip(dataDirectory, b) <==> ToLower(a[..4]) == ToLower(b[..4])
  {
    var n := |DirPrefix(dataDirectory)|;
    if TileZip(dataDirectory, a) == TileZip(dataDirectory, b) {
      assert TileZip(dataDirectory, a)[n + 3..n + 7] == ToLower(a[..4]);
      assert TileZip(dataDirectory, b)[n + 3..n + 7] == ToLower(b[..4]);
    }
    if ToLower(a[..4]) == ToLower(b[..4]) {
      assert ToLower(a[..2]) == ToLower(a[..4])[..2];
      assert ToLower(b[..2]) == ToLower(b[..4])[..2];
    }
  }

  /** The archive's directory is named by the first two characters of the
      archive's own name. */
  lemma TileZipDirectory(dataDirectory: string, compact: string)
    requires |compact| >= 4
    ensures var n := |DirPrefix(dataDirectory)|;
      var path := TileZip(dataDirectory, compact);
      path[..n] == DirPrefix(dataDirectory) && path[n..n + 2] == path[n + 3..n + 5] && path[n + 2] == '/' &&
      HasSuffix(path, ArchiveSuffix)
  {
  }

  /** The archive the package's test opens for square NY21, and the same
      archive under the current directory and under the root. */
  lemma TileZipExample()
    ensures TileZip("test-data", "NY21") == "test-data/" + "ny" + "/" + "ny21" + ArchiveSuffix
    ensures TileZip(".", "NY21") == "ny" + "/" + "ny21" + ArchiveSuffix
    ensures TileZip("/", "NY21") == "/" + "ny" + "/" + "ny21" + ArchiveSuffix
  {
    assert "NY21"[..4] == "NY21" && "NY21"[..2] == "NY";
    assert ToLower("NY21") == "ny21" && ToLower("NY") == "ny";
  }

  // ---------------------------------------------------------------------
  // getTile

  /** The index of the first file whose name ends in `.asc`. */
  function FirstAsc(files: seq<ZipEntry>, from: nat): (k: Option<nat>)
    requires from <= |files|
    ensures k.Some? ==> from <= k.value < |files| && HasSuffix(files[k.value].name, ".asc")
    ensures forall j :: from <= j < (if k.Some? then k.value else |files|) ==> !HasSuffix(files[j].name, ".asc")
    decreases |files| - from
  {
    if from == |files| then None
    else if HasSuffix(files[from].name, ".asc") then Some(from)
    else FirstAsc(files, from + 1)
  }

  /** What `getTile` yields for the archive at `zipFile`: the decoding of its
      first `.asc` file. */
  function GetTileSpec(gr: GridRef, zipFile: string, env: Env): Result<seq<seq<int16>>, TileError>
  {
    match env.archives(zipFile)
    case None => Failure(ArchiveUnreadable(zipFile))
    case Some(files) =>
      match FirstAsc(files, 0)
      case None => Failure(NoAscEntry(zipFile))
      case Some(k) => DecodeTile(gr, files[k].lines, env.parseSample)
  }

  /** `getTile`: open the archive and read the first `.asc` file in it. */
  method GetTile(gr: GridRef, zipFile: string, env: Env) returns (r: Result<array2<int16>, TileError>)
    ensures r.Success? ==> fresh(r.value) && r.value.Length0 == TileSize && r.value.Length1 == TileSize
    ensures r.Success? ==> GetTileSpec(gr, zipFile, env) == Success(Grid(r.value))
    ensures r.Failure? ==> GetTileSpec(gr, zipFile, env) == Failure(r.error)
  {
    var archive := env.archives(zipFile);
    if archive.None? {
      return Failure(ArchiveUnreadable(zipFile));
    }
    var files := archive.value;
    for i := 0 to |files|
      invariant FirstAsc(files, 0) == FirstAsc(files, i)
    {
      if HasSuffix(files[i].name, ".asc") {
        r := ReadTile(gr, files[i].lines, env.parseSample);
        return;
      }
    }
    return Failure(NoAscEntry(zipFile));
  }

  // ---------------------------------------------------------------------
  // Heights

  /** The in-tile sample index along one axis: `v % 10000 / 50`. */
  function Offset(v: int): (k: int)
    ensures v >= 0 ==> 0 <= k < TileSize
  {
    Quot(Rem(v, TileSpan), CellSize)
  }

  /** For a non-negative coordinate the offset indexes the tile, and picks the
      50 m cell, counted from the tile's corner, that holds the coordinate. */
  lemma OffsetLocatesCell(v: int)
    requires v >= 0
    ensures Trunc10k(v) + CellSize * Offset(v) <= v < Trunc10k(v) + CellSize * (Offset(v) + 1)
  {
    assert v == Trunc10k(v) + Rem(v, TileSpan);
  }

  /** `float64(sample / scaleFactor)`: the height in whole metres, the integer
      quotient truncating toward zero. */
  function SampleHeight(sample: int16): (h: real)
    ensures h == h.Floor as real
    ensures sample >= 0 ==> 0 <= sample as int - ScaleFactor * h.Floor < ScaleFactor
    ensures sample < 0 ==> -ScaleFactor < sample as int - ScaleFactor * h.Floor <= 0
  {
    Quot(sample as int, ScaleFactor) as real
  }

  /** What `Height` answers for `gr` from a tile, indexed south row first,
      or from the error of loading it: the error with height 0, or the
      height of the sample in the cell holding `gr`. */
  function Answer(tile: Result<seq<seq<int16>>, TileError>, gr: GridRef): (real, Option<TileError>)
    requires gr.easting >= 0 && gr.northing >= 0
    requires tile.Success? ==>
      |tile.value| == TileSize && forall row | 0 <= row < TileSize :: |tile.value[row]| == TileSize
  {
    match tile
    case Failure(e) => (0.0, Some(e))
    case Success(t) => (SampleHeight(t[Offset(gr.northing)][Offset(gr.easting)]), None)
  }

  /** A well-formed tile file for `gr` decodes, and the height answered from
      it is that of the token in column `Offset(easting)` of the data line
      `199 - Offset(northing)`: the file lists rows from the north edge. */
  lemma HeightFromFile(gr: GridRef, lines: seq<string>, parse: SampleParser)
    requires gr.easting >= 0 && gr.northing >= 0
    requires WellFormedTile(gr, lines, parse)
    ensures DecodeTile(gr, lines, parse).Success?
    ensures Answer(DecodeTile(gr, lines, parse), gr) ==
      (SampleHeight(SampleAt(DataLine(lines, TileSize - 1 - Offset(gr.northing)), Offset(gr.easting), parse)), None)
  {
    DecodeTileMeaning(gr, lines, parse);
    var row := Offset(gr.northing);
    assert TileSize - 1 - (TileSize - 1 - row) == row;
  }

  // ---------------------------------------------------------------------
  // The tile cache

  /** `cacheEntry`: a tile or the error of loading it, filled in once
      (`done` stands for the entry's `sync.Once` having run). */
  class CacheEntry {
    var done: bool
    var tile: array2?<int16>
    var err: Option<TileError>

    constructor ()
      ensures !done && tile == null && err == None
    {
      done := false;
      tile := null;
      err := None;
    }

    /** Loaded: holding a 200 by 200 tile or an error, never both. */
    ghost predicate Resolved()
      reads this
    {
      done && (tile == null <==> err.Some?) &&
      (tile != null ==> tile.Length0 == TileSize && tile.Length1 == TileSize)
    }
  }

  /** The three Prometheus counters. They are package-wide in the source, so
      one `Metrics` object is shared by every server built with it. */
  class Metrics {
    var requestCount: nat  // terr50_request_counter: tile requests
    var readCount: nat     // terr50_retrieval_counter: archive reads
    var badCount: nat      // terr50_bad_counter: failed archive reads

    constructor ()
      ensures requestCount == 0 && readCount == 0 && badCount == 0
    {
      requestCount, readCount, badCount := 0, 0, 0;
    }
  }

  /** What the cache holds for one archive. */
  datatype Stored = Loaded(tile: array2<int16>) | Failed(error: TileError)

  /** The pair `LoadTile` returns, read as a stored outcome. */
  predicate Returns(s: Stored, tile: array2?<int16>, err: Option<TileError>)
  {
    match s
    case Loaded(t) => tile == t && err == None
    case Failed(e) => tile == null && err == Some(e)
  }

  /** A stored outcome read back as the tile, row by row, or the error. */
  ghost function Outcome(s: Stored): Result<seq<seq<int16>>, TileError>
    reads if s.Loaded? then {s.tile} else {}
  {
    match s
    case Loaded(t) => Success(Grid(t))
    case Failed(e) => Failure(e)
  }

  /** A grid reference `Height` can look up: its compact name has the four
      characters that name the archive, and its offsets in the tile are not
      negative. */
  predicate Locatable(gr: GridRef, env: Env)
  {
    |env.compact(gr)| >= 4 && gr.easting >= 0 && gr.northing >= 0
  }

  /** `TileServer`. */
  class TileServer {
    const dataDirectory: string
    const metrics: Metrics
    /** `None` is Go's nil map, which reads as empty. */
    var cache: Option<map<string, CacheEntry>>

    /** `NewTileServer`. */
    constructor (dataDirectory: string, metrics: Metrics)
      ensures Valid() && this.dataDirectory == dataDirectory && this.metrics == metrics
      ensures cache == Some(map[]) && View() == map[]
    {
      this.dataDirectory := dataDirectory;
      this.metrics := metrics;
      cache := Some(map[]);
    }

    /** A `TileServer` struct literal, whose cache map is still nil. */
    constructor Literal(dataDirectory: string, metrics: Metrics)
      ensures Valid() && this.dataDirectory == dataDirectory && this.metrics == metrics
      ensures cache == None && View() == map[]
    {
      this.dataDirectory := dataDirectory;
      this.metrics := metrics;
      cache := None;
    }

    ghost function Entries(): map<string, CacheEntry>
      reads this
    {
      if cache.Some? then cache.value else map[]
    }

    /** Every entry between calls has been loaded. */
    ghost predicate Valid()
      reads this, Entries().Values
    {
      forall name :: name in Entries() ==> Entries()[name].Resolved()
    }

    /** The cache's contents: for each archive path, its tile or its error. */
    ghost function View(): (v: map<string, Stored>)
      reads this, Entries().Values
      requires Valid()
      ensures v.Keys == Entries().Keys
      ensures forall name :: name in v && v[name].Loaded? ==>
        v[name].tile.Length0 == TileSize && v[name].tile.Length1 == TileSize
    {
      map name | name in Entries() ::
        if Entries()[name].tile != null then Loaded(Entries()[name].tile) else Failed(Entries()[name].err.value)
    }

    /** The cache key of a grid reference (`ts.tileZip(gr)`). */
    function TileName(gr: GridRef, env: Env): string
      requires |env.compact(gr)| >= 4
    {
      TileZip(dataDirectory, env.compact(gr))
    }

    /** What one request for archive `name` does to the cache and the
        counters: every request is counted; the first since the last clear
        reads the archive, counts the read, counts a failure if it fails and
        adds exactly one entry; a later one changes nothing else. */
    twostate predicate LoadedOnce(name: string)
      reads this, metrics, Entries().Values
      requires old(Valid()) && Valid()
    {
      name in View() &&
      metrics.requestCount == old(metrics.requestCount) + 1 &&
      if name in old(View()) then
        View() == old(View()) && metrics.readCount == old(metrics.readCount) && metrics.badCount == old(metrics.badCount)
      else
        View() == old(View())[name := View()[name]] &&
        metrics.readCount == old(metrics.readCount) + 1 &&
        metrics.badCount == old(metrics.badCount) + (if View()[name].Failed? then 1 else 0)
    }

    /** The entry for `name`, added unloaded if the cache has none (and the
        nil map made first if need be). */
    method Lookup(name: string) returns (entry: CacheEntry)
      requires Valid()
      modifies this`cache
      ensures cache.Some? && name in cache.value && cache.value[name] == entry
      ensures name in old(Entries()) ==> Entries() == old(Entries()) && entry.Resolved()
      ensures name !in old(Entries()) ==>
        Entries() == old(Entries())[name := entry] && fresh(entry) && !entry.done && entry.tile == null
    {
      if cache.None? {
        cache := Some(map[]);
      }
      if name in cache.value {
        entry := cache.value[name];
      } else {
        entry := new CacheEntry();
        cache := Some(cache.value[name := entry]);
      }
    }

    /** The body of `entry.once.Do`: read the archive into the entry and count
        the read, and the failure if there is one. */
    method Fill(entry: CacheEntry, gr: GridRef, name: string, env: Env)
      requires !entry.done
      modifies entry, metrics
      ensures entry.Resolved()
      ensures Outcome(if entry.tile != null then Loaded(entry.tile) else Failed(entry.err.value)) == GetTileSpec(gr, name, env)
      ensures entry.tile != null ==> fresh(entry.tile)
      ensures metrics.requestCount == old(metrics.requestCount)
      ensures metrics.readCount == old(metrics.readCount) + 1
      ensures metrics.badCount == old(metrics.badCount) + (if entry.tile == null then 1 else 0)
    {
      entry.done := true;
      metrics.readCount := metrics.readCount + 1;
      var r := GetTile(gr, name, env);
      match r
      case Success(t) =>
        entry.tile, entry.err := t, None;
      case Failure(e) =>
        entry.tile, entry.err := null, Some(e);
        metrics.badCount := metrics.badCount + 1;
    }

    /** After a request for `name` that touched no other entry, and touched
        the entry for `name` only if it was new, the view has changed at most
        by gaining the outcome for `name`. */
    twostate lemma ViewAfterRequest(name: string, new entry: CacheEntry)
      requires old(Valid()) && Valid()
      requires Entries() == old(Entries())[name := entry]
      requires forall n | n in old(Entries()) && n != name :: unchanged(old(Entries())[n])
      requires name in old(Entries()) ==> old(Entries())[name] == entry && unchanged(entry)
      ensures name in View()
      ensures name in old(View()) ==> View() == old(View())
      ensures name !in old(View()) ==> View() == old(View())[name := View()[name]]
    {
      var v, w := View(), old(View());
      if name in w {
        assert v.Keys == w.Keys;
        forall n | n in v
          ensures v[n] == w[n]
        {
          assert old(Entries())[n] == Entries()[n];
        }
      } else {
        var u := w[name := v[name]];
        assert v.Keys == u.Keys;
        forall n | n in v && n != name
          ensures v[n] == u[n]
        {
          assert old(Entries())[n] == Entries()[n];
        }
      }
    }

    /** `LoadTile`: the cached outcome for the archive of `gr`, loading it
        first if this is the first request for it since the last clear. */
    method LoadTile(gr: GridRef, env: Env) returns (tile: array2?<int16>, err: Option<TileError>)
      requires Valid() && |env.compact(gr)| >= 4
      modifies this, metrics
      ensures Valid() && cache.Some?
      ensures LoadedOnce(TileName(gr, env))
      ensures Returns(View()[TileName(gr, env)], tile, err)
      ensures TileName(gr, env) !in old(View()) ==>
        Outcome(View()[TileName(gr, env)]) == GetTileSpec(gr, TileName(gr, env), env) &&
        (tile != null ==> fresh(tile))
    {
      var tileName := TileZip(dataDirectory, env.compact(gr));
      var entry := Lookup(tileName);
      metrics.requestCount := metrics.requestCount + 1;
      if !entry.done {
        Fill(entry, gr, tileName, env);
      }
      ViewAfterRequest(tileName, entry);
      return entry.tile, entry.err;
    }

    /** `Height`: the height in whole metres at a grid reference, read from
        the cached tile of its 10 km square. An error parsing the reference
        is discarded, as the source overwrites it. */
    method Height(gridref: string, env: Env) returns (h: real, err: Option<TileError>)
      requires Valid() && Locatable(env.parseGridRef(gridref), env)
      modifies this, metrics
      ensures Valid() && cache.Some?
      ensures var gr := env.parseGridRef(gridref); var name := TileName(gr, env);
        LoadedOnce(name) &&
        (h, err) == Answer(Outcome(View()[name]), gr) &&
        (name !in old(View()) ==> Outcome(View()[name]) == GetTileSpec(gr, name, env))
    {
      var gr := env.parseGridRef(gridref);
      var tile, e := LoadTile(gr, env);
      if e.Some? {
        return 0.0, e;
      }
      var offsetX := Offset(gr.easting);
      var offsetY := Offset(gr.northing);
      return SampleHeight(tile[offsetY, offsetX]), None;
    }

    /** `ClearCache`: forget every entry; the counters are untouched. */
    method ClearCache()
      requires Valid()
      modifies this`cache
      ensures Valid() && cache == Some(map[]) && View() == map[]
    {
      cache := Some(map[]);
    }
  }

  // ---------------------------------------------------------------------
  // Caching, from the package's own test

  /** One `Height` request, seen only through whether it failed: the cache
      steps as `LoadedOnce` says, the request fails exactly when the stored
      outcome for its archive is a failure, and a first request fails exactly
      when `getTile` does. */
  method Request(ts: TileServer, gridref: string, env: Env) returns (failed: bool)
    requires ts.Valid() && Locatable(env.parseGridRef(gridref), env)
    modifies ts, ts.metrics
    ensures ts.Valid()
    ensures var gr := env.parseGridRef(gridref); var name := ts.TileName(gr, env);
      ts.LoadedOnce(name) && failed == ts.View()[name].Failed? &&
      (name !in old(ts.View()) ==> failed == GetTileSpec(gr, name, env).Failure?)
  {
    var h, err := ts.Height(gridref, env);
    failed := err.Some?;
  }

  /** Two requests for a reference whose archive cannot be opened, the first
      for it since the cache was cleared: both fail, and only the first reads
      the archive. */
  method RequestMissingTwice(ts: TileServer, gridref: string, env: Env) returns (f1: bool, f2: bool)
    requires ts.Valid() && Locatable(env.parseGridRef(gridref), env)
    requires ts.TileName(env.parseGridRef(gridref), env) !in ts.View()
    requires env.archives(ts.TileName(env.parseGridRef(gridref), env)).None?
    modifies ts, ts.metrics
    ensures ts.Valid() && ts.View().Keys == old(ts.View().Keys) + {ts.TileName(env.parseGridRef(gridref), env)}
    ensures f1 && f2
    ensures ts.metrics.requestCount == old(ts.metrics.requestCount) + 2
    ensures ts.metrics.readCount == old(ts.metrics.readCount) + 1
    ensures ts.metrics.badCount == old(ts.metrics.badCount) + 1
  {
    f1 := Request(ts, gridref, env);
    f2 := Request(ts, gridref, env);
  }

  /** Requests for two references in the same 10 km square whose tile is
      readable, the first for it since the cache was cleared: both succeed,
      and only the first reads the archive. */
  method RequestReadableTwice(ts: TileServer, first: string, second: string, env: Env) returns (f1: bool, f2: bool)
    requires ts.Valid() && Locatable(env.parseGridRef(first), env) && Locatable(env.parseGridRef(second), env)
    requires ts.TileName(env.parseGridRef(first), env) !in ts.View()
    requires ts.TileName(env.parseGridRef(second), env) == ts.TileName(env.parseGridRef(first), env)
    requires GetTileSpec(env.parseGridRef(first), ts.TileName(env.parseGridRef(first), env), env).Success?
    modifies ts, ts.metrics
    ensures ts.Valid()
    ensures !f1 && !f2
    ensures ts.metrics.requestCount == old(ts.metrics.requestCount) + 2
    ensures ts.metrics.readCount == old(ts.metrics.readCount) + 1
    ensures ts.metrics.badCount == old(ts.metrics.badCount)
  {
    f1 := Request(ts, first, env);
    f2 := Request(ts, second, env);
  }

  /** The caching walk-through of the package's test, on a new server and new
      counters: a reference whose archive cannot be opened fails twice but is
      read once; a reference with a readable tile, and a second one in the
      same 10 km square, both succeed and are read once between them. */
  method CachingScenario(dataDirectory: string, env: Env, sea: string, good: string, nearby: string)
      returns (failed: seq<bool>, requests: nat, retrievals: nat, bad: nat)
    requires Locatable(env.parseGridRef(sea), env)
    requires Locatable(env.parseGridRef(good), env)
    requires Locatable(env.parseGridRef(nearby), env)
    requires env.archives(TileZip(dataDirectory, env.compact(env.parseGridRef(sea)))).None?
    requires GetTileSpec(env.parseGridRef(good), TileZip(dataDirectory, env.compact(env.parseGridRef(good))), env).Success?
    requires TileZip(dataDirectory, env.compact(env.parseGridRef(nearby))) ==
      TileZip(dataDirectory, env.compact(env.parseGridRef(good)))
    ensures failed == [true, true, false, false]
    ensures requests == 4 && retrievals == 2 && bad == 1
  {
    var metrics := new Metrics();
    var ts := new TileServer(dataDirectory, metrics);
    var f1, f2 := RequestMissingTwice(ts, sea, env);
    var f3, f4 := RequestReadableTwice(ts, good, nearby, env);
    failed := [f1, f2, f3, f4];
    requests, retrievals, bad := metrics.requestCount, metrics.readCount, metrics.badCount;
  }

  /** Clearing the cache makes the next request for a tile read its archive
      again, whatever the outcome of the first read. */
  method ReloadAfterClear(dataDirectory: string, env: Env, gr: GridRef)
      returns (retrievals: nat)
    requires Locatable(gr, env)
    ensures retrievals == 2
  {
    var metrics := new Metrics();
    var ts := new TileServer(dataDirectory, metrics);
    var tile, err := ts.LoadTile(gr, env);
    ts.ClearCache();
    tile, err := ts.LoadTile(gr, env);
    retrievals := metrics.readCount;
  }

  /** Two requests for the same tile return the very same tile object, or the
      same error, and read the archive once. */
  method RepeatedLoadsShareTile(dataDirectory: string, env: Env, gr: GridRef)
      returns (sameTile: bool, sameError: bool, retrievals: nat)
    requires Locatable(gr, env)
    ensures sameTile && sameError && retrievals == 1
  {
    var metrics := new Metrics();
    var ts := new TileServer(dataDirectory, metrics);
    var tile1, err1 := ts.LoadTile(gr, env);
    var tile2, err2 := ts.LoadTile(gr, env);
    sameTile, sameError := tile1 == tile2, err1 == err2;
    retrievals := metrics.readCount;
  }
}
