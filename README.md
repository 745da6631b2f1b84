# gosdata terrain tiles and grid letters, in Dafny

This project models the elevation path of the `gosdata` Go package and its
National Grid letter tables, and proves properties of the model.

- **Tile decoder** (`TileCodec`). `readTile`, `expect` and `trunc10k` read one
  OS Terrain 50 tile in Esri ASCII-grid form.
  - The file starts with five header lines. Two of them name the 10 km square
    of the requested grid reference, using Go's truncating division.
  - Then come exactly 200 data lines of exactly 200 tokens, split on single
    spaces, and nothing after them.
  - The decoded tile holds fixed-point samples (tenths of a metre). Row 0 is
    the most southerly row, so file row `i` lands in tile row `199 - i`.
  - The decoder exists twice. `DecodeTile` is a function over the file's lines.
    `ReadTile` is the source's nested loops over a line scanner, filling a
    200 by 200 array, and it is proved to agree with `DecodeTile`.
- **Tile cache** (`Terrain`). `TileServer` with `NewTileServer`, `LoadTile`,
  `ClearCache`, `tileZip`, `getTile` and `Height`.
  - Each archive is loaded at most once between clears. Failures are cached
    as well as tiles.
  - Three counters count requests, archive reads and failed reads.
  - A height is the truncated tenth of the sample in the 50 m cell that holds
    the reference.
- **Grid letters** (`GridLetters`, `OsGrid`). `gridFirstLetter` and
  `gridSecondLetter` from `osgrid.go` (integer points) and from
  `osgrid/osgrid.go` (float points, with `LargeGridSize` and `SmallGridSize`).
  Both are proved against the 5 by 5 letter layout of the National Grid, and
  the two packages' tables are proved to agree.

Supporting modules:
- `GoInt`: Go's `byte` and `int16`, and Go's truncating `/` and `%`.
- `GoText`: `fmt.Sprintf("%d")`, `strings.Split`, ASCII `strings.ToLower` and
  `strings.HasSuffix`.
- `Wrappers`: `Option` and `Result`.

Code outside the package becomes fields of an `Env` value:
- grid-reference parsing and `StringNCompact` from `osgridref`;
- the contents of the zip archives;
- the token-to-sample conversion (`strconv.ParseFloat` and `int16(f * 10)`).

The Prometheus counters are package-wide variables in the source. In the model
they are fields of a `Metrics` object that the servers built with it share.

## Model

| member | source | states |
|---|---|---|
| GoInt.Quot | os-terrain-50.go:209 | Go's integer `/` by a positive divisor truncates toward zero: the remainder has the sign of the dividend and is smaller than the divisor |
| GoInt.Rem | os-terrain-50.go:67-68 | Go's `%` by a positive divisor: dividend = divisor × quotient + remainder, with the remainder in `[0, b)` for a non-negative dividend and in `(-b, 0]` otherwise |
| GoText.FormatNat | os-terrain-50.go:159-160 | `%d` of a natural number is a non-empty digit string with no leading zero |
| GoText.FormatInt | os-terrain-50.go:159-160 | `%d` of an integer starts with `-` exactly when the integer is negative |
| GoText.DigitsValueOfFormatNat | os-terrain-50.go:159-160 | reading back the digits `%d` prints gives the number |
| GoText.FormatIntInjective | os-terrain-50.go:159-161 | distinct integers print differently, so a header line names exactly one corner |
| GoText.Split | os-terrain-50.go:173 | `strings.Split` always yields at least one piece |
| GoText.JoinSplit | os-terrain-50.go:173 | joining the pieces of a split with the separator gives back the line |
| GoText.SplitPieces | os-terrain-50.go:173 | a line splits into one more piece than it has separators, and no piece holds a separator |
| GoText.SplitJoin | os-terrain-50.go:173 | splitting a join of separator-free pieces gives back the pieces |
| GoText.ToLower | os-terrain-50.go:116-119 | lower-casing keeps the length and lower-cases each ASCII letter in place |
| GoText.ToLowerIdempotent | os-terrain-50.go:116-119 | lower-casing twice is lower-casing once, and no upper-case letter remains |
| GridLetters.GridFirstLetter | osgrid.go:11-25 | `gridFirstLetter`; its behaviour is stated by `FirstLetterOfSquare` (exactly H, N, O, S, T among the layout letters, with their corners) and `FirstLetterOutsideLayout` (every other byte refused) |
| GridLetters.GridSecondLetter | osgrid.go:27-43 | `gridSecondLetter`; its behaviour is stated by `SecondLetterOfSquare`, `SecondLetterNamesSquare`, `SecondLetterFollowsLayout`, `SecondLetterInjective` and `SecondLetterOffsetBounds` |
| GridLetters.LetterAtValue | osgrid.go:27-43 | the layout runs `A` to `Z` row by row from the north-west, skipping `I` |
| GridLetters.SecondLetterOfSquare | osgrid.go:27-43 | the letter of the square in column `c`, row `r` is answered with offset (100000·c, 100000·r); this covers J→(300000,300000) and K→(400000,300000) |
| GridLetters.SecondLetterNamesSquare | osgrid.go:27-43 | an accepted second letter's offset is a whole square of the layout whose letter is that letter |
| GridLetters.SecondLetterFollowsLayout | osgrid.go:27-43 | a second letter is accepted exactly when it is one of the 25 layout letters, so `I` and every byte outside `A`..`Z` are refused |
| GridLetters.SecondLetterInjective | osgrid.go:27-43 | distinct accepted second letters give distinct offsets |
| GridLetters.SecondLetterOffsetBounds | osgrid.go:27-43 | both offset coordinates are one of 0, 100000, …, 400000 |
| GridLetters.FirstLetterOfSquare | osgrid.go:11-25 | of the 25 layout letters exactly H, N, O, S, T are accepted, with corners (0,1000000), (0,500000), (500000,500000), (0,0), (500000,0) |
| GridLetters.FirstLetterOutsideLayout | osgrid.go:11-25 | every byte that is not a layout letter is refused as a first letter |
| GridLetters.SquareInsideLargeSquare | osgrid.go:11-43 | a first and a second letter together name a 100 km square lying wholly inside the first letter's 500 km square |
| OsGrid.GridFirstLetter | osgrid/osgrid.go:24-38 | `gridFirstLetter` with float points; `TablesAgreeWithIntegerTables` proves it accepts the same letters as the integer table with the same points, and `OriginsAreMultiples` that its origins are multiples of `LargeGridSize` |
| OsGrid.GridSecondLetter | osgrid/osgrid.go:40-56 | `gridSecondLetter` with float points; `TablesAgreeWithIntegerTables` proves it agrees with the integer table, and `OriginsAreMultiples` that its offsets are whole multiples of `SmallGridSize` below 500 km |
| OsGrid.TablesAgreeWithIntegerTables | osgrid/osgrid.go:24-56 | the float tables accept the same letters as the integer tables of osgrid.go and return the same points, each coordinate a whole multiple of 100 km |
| OsGrid.OriginsAreMultiples | osgrid/osgrid.go:11-56 | first-letter origins are multiples of `LargeGridSize` (500 km) and second-letter offsets multiples of `SmallGridSize` (100 km) below 500 km |
| TileCodec.Trunc10k | os-terrain-50.go:208-210 | the result is a multiple of 10000 within 10000 of `n`: at or below a non-negative `n`, at or above a negative one |
| TileCodec.Trunc10kIdempotent | os-terrain-50.go:208-210 | truncating a boundary leaves it unchanged |
| TileCodec.Trunc10kExamples | os-terrain-50_test.go:67-70 | 321234 truncates to 320000 and 519876 to 510000 |
| TileCodec.HeaderLines | os-terrain-50.go:159-161 | the expected header has five lines |
| TileCodec.ExpectedFindsFirstDifference | os-terrain-50.go:195-206 | `expect` succeeds exactly when the lines start with the wanted lines; otherwise it reports end-of-file or a mismatch at the first wanted line that is missing or different |
| TileCodec.DecodeValues | os-terrain-50.go:179-185 | a decoded row prefix has one value per token |
| TileCodec.DecodeValuesMeaning | os-terrain-50.go:179-185 | a row decodes exactly when every token parses, into the tokens' samples; a failure names the first token the parser refuses |
| TileCodec.DecodeValuesFailureSticks | os-terrain-50.go:179-183 | once a token fails, reading further tokens reports that same failure |
| TileCodec.DecodeRow | os-terrain-50.go:173-185 | one data line: a line that does not split into exactly 200 tokens reports the token count and row, otherwise each token is parsed; `DecodeRowMeaning` states its meaning |
| TileCodec.DecodeRowMeaning | os-terrain-50.go:173-185 | a data line decodes exactly when it splits into 200 tokens that all parse, and then holds their samples in order |
| TileCodec.DecodeRows | os-terrain-50.go:166-186 | `n` decoded rows hold `n` rows of 200 samples |
| TileCodec.DecodeRowsMeaning | os-terrain-50.go:166-186 | the first `n` rows decode exactly when `n` data lines are present and each parses; row `i` then holds the samples of data line `i` |
| TileCodec.DecodeRowsFailureSticks | os-terrain-50.go:167-172 | once a row fails, reading further rows reports that same failure |
| TileCodec.DecodeTile | os-terrain-50.go:147-193 | a decoded tile is 200 rows of 200 samples |
| TileCodec.DecodeTileMeaning | os-terrain-50.go:147-193 | a tile decodes exactly when the file is the expected header, 200 parsing data lines and nothing more; tile row `199 - i` holds data line `i` |
| TileCodec.ShortFileReported | os-terrain-50.go:167-171 | a correct file cut short after `k` data lines is reported as short after `k` records |
| TileCodec.OverlongReported | os-terrain-50.go:188-190 | a correct file with a line after the 200th row is reported as overlong, quoting that line |
| TileCodec.DeclaredCornerMatches | os-terrain-50.go:159-164 | a decoded tile's declared corner is the truncated easting and northing of the requested reference |
| TileCodec.LineScanner.constructor | os-terrain-50.go:157 | a new scanner stands before the first line |
| TileCodec.LineScanner.Scan | os-terrain-50.go:168-169 | `Scan` advances by one line and exposes it while lines remain; at the end it reports false and moves no further |
| TileCodec.Expect | os-terrain-50.go:195-206 | the scanning loop returns exactly the error `Expected` describes for the unread lines, and on success has consumed the wanted lines |
| TileCodec.FillRow | os-terrain-50.go:178-185 | the inner loop writes the row's samples into tile row `199 - i` or returns the first bad token's error; no other row changes |
| TileCodec.GridOfReversedRows | os-terrain-50.go:178 | an array whose row `199 - k` holds file row `k` reads as the reversed row sequence |
| TileCodec.ReadRow | os-terrain-50.go:167-185 | one pass of the outer loop extends the decoded rows by one, or fails as `DecodeRows` does, and touches only row `199 - i` |
| TileCodec.ReadRows | os-terrain-50.go:166-186 | the outer loop fills the array with the rows `DecodeRows` describes, reversed, or fails as it does |
| TileCodec.ReadTile | os-terrain-50.go:147-193 | `readTile` returns a fresh 200×200 array equal to `DecodeTile`'s tile, or exactly `DecodeTile`'s error |
| Terrain.PathJoin | os-terrain-50.go:120 | `path.Join` of a clean data directory, directory and file name: the parts joined by `/` and cleaned, so an empty or `.` data directory is dropped and the root `/` is not followed by a second slash; `TileZip`'s contract and `TileZipExample` give the resulting paths |
| Terrain.TileZip | os-terrain-50.go:115-121 | the archive path is the data directory, the lower-cased first two characters of the compact reference, then the lower-cased first four characters with `_OST50GRID_20200303.zip` |
| Terrain.SameTileZip | os-terrain-50.go:115-121 | two references share an archive, and so a cache entry, exactly when the first four characters of their compact names agree up to case |
| Terrain.TileZipDirectory | os-terrain-50.go:115-121 | the archive's directory is named by the first two characters of the archive's own name |
| Terrain.TileZipExample | os-terrain-50_test.go:24 | square NY21 in `test-data` is the archive `test-data/ny/ny21_OST50GRID_20200303.zip`; with data directory `.` it is `ny/ny21_…` and with `/` it is `/ny/ny21_…`, as `path.Join` cleans them |
| Terrain.FirstAsc | os-terrain-50.go:130-131 | the index found is the first file whose name ends in `.asc` |
| Terrain.GetTile | os-terrain-50.go:123-145 | `getTile` fails if the archive cannot be opened, decodes the first `.asc` file with `readTile`, and fails if there is none |
| Terrain.Offset | os-terrain-50.go:67-68 | for a non-negative coordinate the in-tile offset indexes the tile |
| Terrain.OffsetLocatesCell | os-terrain-50.go:67-68 | the offset picks the 50 m cell, counted from the tile's truncated corner, that holds the coordinate |
| Terrain.SampleHeight | os-terrain-50.go:70 | the height is a whole number of metres: the sample divided by 10, truncated toward zero |
| Terrain.HeightFromFile | os-terrain-50.go:60-71 | a well-formed tile file decodes, and the height answered from it is that of the token in column `Offset(easting)` of data line `199 - Offset(northing)` |
| Terrain.CacheEntry.constructor | os-terrain-50.go:91 | a new entry has not run its load and holds neither tile nor error |
| Terrain.Metrics.constructor | os-terrain-50.go:19-35 | the three counters start at zero |
| Terrain.TileServer.constructor | os-terrain-50.go:51-56 | `NewTileServer` has an empty, non-nil cache |
| Terrain.TileServer.Literal | os-terrain-50.go:45-49 | a struct-literal server has a nil cache, which reads as empty |
| Terrain.TileServer.Lookup | os-terrain-50.go:86-93 | a nil cache map is made first; an existing entry is returned as it is, a missing one is added fresh and unloaded |
| Terrain.TileServer.Fill | os-terrain-50.go:98-104 | the once-body stores exactly what `getTile` yields, counts one read, and counts a failure exactly when there is one |
| Terrain.TileServer.ViewAfterRequest | os-terrain-50.go:84-106 | a request that touches no other entry changes the cache at most by adding its own archive |
| Terrain.TileServer.LoadTile | os-terrain-50.go:81-107 | every call counts a request; the first since a clear loads and stores exactly `getTile`'s outcome, counting a read and any failure; later calls change nothing else; the stored tile or error is what is returned |
| Terrain.TileServer.Height | os-terrain-50.go:60-71 | the height is the error with 0, or the truncated tenth of the sample at `[Offset(northing)][Offset(easting)]` of the cached tile, which a first request loads from `getTile` |
| Terrain.TileServer.ClearCache | os-terrain-50.go:109-113 | the cache is emptied and no counter changes |
| Terrain.Request | os-terrain-50.go:60-71 | a height request fails exactly when its archive's stored outcome is a failure, and a first request fails exactly when `getTile` does |
| Terrain.RequestMissingTwice | os-terrain-50_test.go:80-92 | two requests in a square without an archive both fail, count two requests, one read and one failure |
| Terrain.RequestReadableTwice | os-terrain-50_test.go:94-106 | two requests in one readable square both succeed, count two requests, one read and no failure |
| Terrain.CachingScenario | os-terrain-50_test.go:72-107 | on a new server the test's four requests fail, fail, succeed, succeed, with 4 requests, 2 reads and 1 failure counted |
| Terrain.ReloadAfterClear | os-terrain-50.go:109-113 | after a clear the next request for a tile reads its archive again |
| Terrain.RepeatedLoadsShareTile | os-terrain-50.go:84-106 | two loads of one tile return the very same tile object, or the same error, with one read |

## Left out

- Zip archive I/O (`zip.OpenReader`, `f.Open`, `Close`). The archives are the `Env.archives` parameter. An error opening the `.asc` entry itself is not modelled: the entry's lines are always available.
- `bufio.Scanner` details. Line splitting, `\r\n` handling and the 64 KiB token limit are not modelled; a file is its sequence of lines. A scanner read error is treated as end of file, which is also what the source does, since it never checks `scanner.Err()`.
- `strconv.ParseFloat` and `int16(f * scaleFactor)` are the parameter `parseSample`, because float parsing and the rounding of `f * 10` are floating-point behaviour.
- `osgridref.ParseOsGridRef` and `StringNCompact` come from another package and are parameters. `Height` discards the parse error exactly as the source does, so the model keeps only the reference the parser yields.
- The wording of error messages. Each error keeps the line, count, row or token its message reports, but not everything in it:
  - `ShortFile`, `RowLength`, `BadSample` and `Overlong` leave out the compact grid reference (`StringNCompact(2)`) the messages quote;
  - `BadSample` leaves out the reason in `ParseFloat`'s error;
  - `ArchiveUnreadable` leaves out `zip.OpenReader`'s error and keeps only the archive path.
- `sync.Mutex` and `sync.Once`. The cache is modelled sequentially: `done` stands for the entry's `Once` having run. Concurrent callers sharing one entry are not modelled.
- The Prometheus counters are modelled as natural-number fields.
- `MustHeight` only panics on `Height`'s error.
- `Parse` in `osgrid/osgrid.go` is unfinished and has no behaviour to state.
- `osgrid/dms.go`, the command-line programs under `cmd/` and the HTTP server are outside the tile path.
- 64-bit overflow of Go's `int` in `trunc10k` and the offsets is not modelled; coordinates are unbounded integers.
- The `// 500km` comment on `SmallGridSize` is wrong: the constant is 100 km, and the model uses the value.
- Non-ASCII case mapping in `strings.ToLower`, and `tileName[:4]` slicing bytes rather than characters, are not modelled: `StringNCompact` yields only ASCII letters and digits, on which the two agree.
- Terrain.TileZip: requires a compact name of at least four characters, because the source's `tileName[:4]` panics on a shorter one.
- Terrain.PathJoin: `path.Join`'s cleaning is modelled for a clean data directory, including `.`, `/` and the empty directory. A data directory that is not already clean, such as `data/` or `a/../b`, is not cleaned by the model.
- Terrain.TileServer.Height: requires a non-negative easting and northing, following the National Grid, whose references are never negative. With a negative coordinate the source returns the error of a tile that fails to load as usual, and on a loaded tile panics only when `v % 10000` is `-50` or less (a negative offset); the model does not describe those calls.
- Terrain.TileServer.LoadTile: the stored outcome of an entry loaded before the call is stated as unchanged, not re-derived from `getTile`, because the archives may change between calls.
