/** The reader for one OS Terrain 50 tile in Esri ASCII-grid form: five header
    lines that must name the expected 10 km square, then 200 rows of 200
    space-separated samples, most northerly row first. The decoded tile holds
    the samples as fixed-point heights (tenths of a metre) with row 0 the most
    southerly. */
module TileCodec {
  import opened Wrappers
  import opened GoInt
  import opened GoText

  /** Samples per row, and rows per tile. */
  const TileSize: int := 200
  /** Metres between samples. */
  const CellSize: int := 50
  /** Metres covered by one tile along each axis. */
  const TileSpan: int := 10000
  /** Fixed-point scale of a stored sample. */
  const ScaleFactor: int := 10
  /** Lines in a tile's header. */
  const HeaderSize: int := 5

  /** A grid reference as easting and northing in metres (`osgridref.OsGridRef`). */
  datatype GridRef = GridRef(easting: int, northing: int)

  /** The ways reading a tile can fail; each carries what the source's
      error message reports. */
  datatype TileError =
    | EofBefore(expected: string)                 // the file ended before a header line
    | HeaderMismatch(expected: string, got: string)
    | ShortFile(records: nat)                     // fewer than 200 data rows
    | RowLength(count: nat, row: nat)             // a row without exactly 200 values
    | BadSample(row: nat, token: string)          // a value the sample parser refuses
    | Overlong(line: string)                      // a line after the 200th row
    | ArchiveUnreadable(zipFile: string)          // the tile's archive could not be opened
    | NoAscEntry(zipFile: string)                 // the archive holds no `.asc` file

  /** `strconv.ParseFloat` followed by `int16(f * scaleFactor)`: how one token
      becomes a fixed-point sample, or `None` when the token is not a number.
      Floating-point parsing is not modelled, so it is a parameter. */
  type SampleParser = string -> Option<int16>

  /** The ten-kilometre boundary of `n` (`trunc10k`), with Go's truncating
      division: at or below a non-negative `n`, at or above a negative one. */
  function Trunc10k(n: int): (r: int)
    ensures r % TileSpan == 0
    ensures n >= 0 ==> n - TileSpan < r <= n
    ensures n < 0 ==> n <= r < n + TileSpan
  {
    Quot(n, TileSpan) * TileSpan
  }

  /** Truncating a boundary leaves it where it is. */
  lemma Trunc10kIdempotent(n: int)
    ensures Trunc10k(Trunc10k(n)) == Trunc10k(n)
  {
  }

  /** The two boundaries the package's test checks. */
  lemma Trunc10kExamples()
    ensures Trunc10k(321234) == 320000 && Trunc10k(519876) == 510000
  {
  }

  /** The header a tile covering the 10 km square of `gr` must start with. */
  function HeaderLines(gr: GridRef): (h: seq<string>)
    ensures |h| == HeaderSize
  {
    [ "ncols 200",
      "nrows 200",
      "xllcorner " + FormatInt(Trunc10k(gr.easting)),
      "yllcorner " + FormatInt(Trunc10k(gr.northing)),
      "cellsize 50" ]
  }

  /** What `expect` reports when the lines still to be read are `lines` and
      it must find `want`, line by line: the first line missing or different. */
  function Expected(lines: seq<string>, want: seq<string>): Option<TileError>
    decreases |want|
  {
    if want == [] then None
    else if lines == [] then Some(EofBefore(want[0]))
    else if lines[0] != want[0] then Some(HeaderMismatch(want[0], lines[0]))
    else Expected(lines[1..], want[1..])
  }

  /** The values of tokens `0 .. n-1` of data row `row`, stopping at the first
      token the parser refuses. */
  function DecodeValues(row: nat, tokens: seq<string>, parse: SampleParser, n: nat): (r: Result<seq<int16>, TileError>)
    requires n <= |tokens|
    ensures r.Success? ==> |r.value| == n
  {
    if n == 0 then Success([])
    else
      match DecodeValues(row, tokens, parse, n - 1)
      case Failure(e) => Failure(e)
      case Success(vs) =>
        match parse(tokens[n - 1])
        case None => Failure(BadSample(row, tokens[n - 1]))
        case Some(v) => Success(vs + [v])
  }

  /** One data line: split on single spaces into exactly 200 tokens, each parsed. */
  function DecodeRow(row: nat, line: string, parse: SampleParser): (r: Result<seq<int16>, TileError>)
  {
    var tokens := Split(line, ' ');
    if |tokens| != TileSize then Failure(RowLength(|tokens|, row))
    else DecodeValues(row, tokens, parse, TileSize)
  }

  /** The first `n` data rows, in file order, stopping at the first failure. */
  function DecodeRows(lines: seq<string>, parse: SampleParser, n: nat): (r: Result<seq<seq<int16>>, TileError>)
    requires n <= TileSize
    ensures r.Success? ==> |r.value| == n && forall k :: 0 <= k < n ==> |r.value[k]| == TileSize
  {
    if n == 0 then Success([])
    else
      match DecodeRows(lines, parse, n - 1)
      case Failure(e) => Failure(e)
      case Success(rows) =>
        if HeaderSize + n - 1 >= |lines| then Failure(ShortFile(n - 1))
        else
          match DecodeRow(n - 1, lines[HeaderSize + n - 1], parse)
          case Failure(e) => Failure(e)
          case Success(vs) => Success(rows + [vs])
  }

  /** `readTile` on the lines of a tile file: the header, then the rows, then
      nothing more. The tile's row `k` is the file's data row `199 - k`. */
  function DecodeTile(gr: GridRef, lines: seq<string>, parse: SampleParser): (r: Result<seq<seq<int16>>, TileError>)
    ensures r.Success? ==> |r.value| == TileSize && forall k :: 0 <= k < TileSize ==> |r.value[k]| == TileSize
  {
    match Expected(lines, HeaderLines(gr))
    case Some(e) => Failure(e)
    case None =>
      match DecodeRows(lines, parse, TileSize)
      case Failure(e) => Failure(e)
      case Success(rows) =>
        if |lines| > HeaderSize + TileSize then Failure(Overlong(lines[HeaderSize + TileSize]))
        else Success(seq(TileSize, k requires 0 <= k < TileSize => rows[TileSize - 1 - k]))
  }

  // ---------------------------------------------------------------------
  // The tile format stated directly, and its agreement with the reader.

  /** Data row `i` of a tile file (the line after the header and `i` rows). */
  function DataLine(lines: seq<string>, i: int): string
    requires 0 <= i && HeaderSize + i < |lines|
  {
    lines[HeaderSize + i]
  }

  /** A data line holding exactly 200 single-space-separated tokens, all numbers. */
  predicate RowParses(line: string, parse: SampleParser)
  {
    var tokens := Split(line, ' ');
    |tokens| == TileSize && forall x :: 0 <= x < TileSize ==> parse(tokens[x]).Some?
  }

  /** The sample in column `x` of a data line that parses. */
  function SampleAt(line: string, x: int, parse: SampleParser): int16
    requires RowParses(line, parse) && 0 <= x < TileSize
  {
    parse(Split(line, ' ')[x]).value
  }

  /** A well-formed tile file for `gr`: the exact header, exactly 200 data
      lines that parse, and nothing after them. */
  predicate WellFormedTile(gr: GridRef, lines: seq<string>, parse: SampleParser)
  {
    |lines| == HeaderSize + TileSize &&
    lines[..HeaderSize] == HeaderLines(gr) &&
    forall i :: 0 <= i < TileSize ==> RowParses(DataLine(lines, i), parse)
  }

  /** `expect` succeeds exactly when the lines start with the wanted ones;
      otherwise it reports the first wanted line that is missing or differs. */
  lemma {:induction false} ExpectedFindsFirstDifference(lines: seq<string>, want: seq<string>)
    ensures Expected(lines, want).None? <==> |want| <= |lines| && lines[..|want|] == want
    ensures Expected(lines, want).Some? ==>
      exists k :: 0 <= k < |want| && k <= |lines| && lines[..k] == want[..k] &&
        if k == |lines| then Expected(lines, want).value == EofBefore(want[k])
        else lines[k] != want[k] && Expected(lines, want).value == HeaderMismatch(want[k], lines[k])
    decreases |want|
  {
    if want != [] && lines != [] && lines[0] == want[0] {
      ExpectedFindsFirstDifference(lines[1..], want[1..]);
      if Expected(lines, want).None? {
        assert lines[..|want|] == [lines[0]] + lines[1..][..|want| - 1];
      } else {
        var k :| 0 <= k < |want[1..]| && k <= |lines[1..]| && lines[1..][..k] == want[1..][..k] &&
          if k == |lines[1..]| then Expected(lines, want).value == EofBefore(want[1..][k])
          else lines[1..][k] != want[1..][k] && Expected(lines, want).value == HeaderMismatch(want[1..][k], lines[1..][k]);
        assert lines[..k + 1] == [lines[0]] + lines[1..][..k];
        assert want[..k + 1] == [want[0]] + want[1..][..k];
      }
      if |want| <= |lines| && lines[..|want|] == want {
        assert lines[1..][..|want| - 1] == want[1..];
      }
    } else if want != [] {
      assert lines[..0] == want[..0];
    }
  }

  /** The values of a row are its tokens' parses, and a refused token is
      reported as the first one the parser refuses. */
  lemma {:induction false} DecodeValuesMeaning(row: nat, tokens: seq<string>, parse: SampleParser, n: nat)
    requires n <= |tokens|
    ensures DecodeValues(row, tokens, parse, n).Success? <==> forall x :: 0 <= x < n ==> parse(tokens[x]).Some?
    ensures DecodeValues(row, tokens, parse, n).Success? ==>
      forall x :: 0 <= x < n ==> DecodeValues(row, tokens, parse, n).value[x] == parse(tokens[x]).value
    ensures DecodeValues(row, tokens, parse, n).Failure? ==>
      exists x :: 0 <= x < n && parse(tokens[x]).None? && (forall y :: 0 <= y < x ==> parse(tokens[y]).Some?) &&
        DecodeValues(row, tokens, parse, n).error == BadSample(row, tokens[x])
  {
    if n > 0 {
      DecodeValuesMeaning(row, tokens, parse, n - 1);
    }
  }

  /** Once a row prefix has failed, reading further tokens reports the same failure. */
  lemma {:induction false} DecodeValuesFailureSticks(row: nat, tokens: seq<string>, parse: SampleParser, n: nat, m: nat)
    requires n <= m <= |tokens|
    requires DecodeValues(row, tokens, parse, n).Failure?
    ensures DecodeValues(row, tokens, parse, m) == DecodeValues(row, tokens, parse, n)
    decreases m - n
  {
    if m > n {
      DecodeValuesFailureSticks(row, tokens, parse, n, m - 1);
    }
  }

  /** A data line decodes exactly when it parses as a row, into its samples. */
  lemma DecodeRowMeaning(row: nat, line: string, parse: SampleParser)
    ensures DecodeRow(row, line, parse).Success? <==> RowParses(line, parse)
    ensures DecodeRow(row, line, parse).Success? ==>
      |DecodeRow(row, line, parse).value| == TileSize &&
      forall x :: 0 <= x < TileSize ==> DecodeRow(row, line, parse).value[x] == SampleAt(line, x, parse)
  {
    var tokens := Split(line, ' ');
    if |tokens| == TileSize {
      DecodeValuesMeaning(row, tokens, parse, TileSize);
    }
  }

  /** The first `n` rows decode exactly when `n` data lines are present and
      each parses; row `i` then holds the samples of data line `i`. */
  lemma {:induction false} DecodeRowsMeaning(lines: seq<string>, parse: SampleParser, n: nat)
    requires HeaderSize <= |lines| && n <= TileSize
    ensures DecodeRows(lines, parse, n).Success? <==>
      HeaderSize + n <= |lines| && forall i :: 0 <= i < n ==> RowParses(DataLine(lines, i), parse)
    ensures DecodeRows(lines, parse, n).Success? ==>
      forall i, x :: 0 <= i < n && 0 <= x < TileSize ==>
        DecodeRows(lines, parse, n).value[i][x] == SampleAt(DataLine(lines, i), x, parse)
  {
    if n > 0 {
      DecodeRowsMeaning(lines, parse, n - 1);
      if HeaderSize + n - 1 < |lines| {
        DecodeRowMeaning(n - 1, DataLine(lines, n - 1), parse);
      }
      if DecodeRows(lines, parse, n).Success? {
        assert DecodeRow(n - 1, DataLine(lines, n - 1), parse).Success?;
        forall i | 0 <= i < n ensures RowParses(DataLine(lines, i), parse) {
          if i < n - 1 {
            assert RowParses(DataLine(lines, i), parse);
          }
        }
      }
      if HeaderSize + n <= |lines| && forall i :: 0 <= i < n ==> RowParses(DataLine(lines, i), parse) {
        assert RowParses(DataLine(lines, n - 1), parse);
        assert DecodeRows(lines, parse, n - 1).Success?;
      }
    }
  }

  /** Once the rows read so far have failed, reading further rows reports the same failure. */
  lemma {:induction false} DecodeRowsFailureSticks(lines: seq<string>, parse: SampleParser, n: nat, m: nat)
    requires n <= m <= TileSize
    requires DecodeRows(lines, parse, n).Failure?
    ensures DecodeRows(lines, parse, m) == DecodeRows(lines, parse, n)
    decreases m - n
  {
    if m > n {
      DecodeRowsFailureSticks(lines, parse, n, m - 1);
    }
  }

  /** The reader accepts exactly the well-formed tiles for `gr`, and puts data
      line `i` (counted from the north) into tile row `199 - i`, so that tile
      row 0 is the most southerly. */
  lemma DecodeTileMeaning(gr: GridRef, lines: seq<string>, parse: SampleParser)
    ensures DecodeTile(gr, lines, parse).Success? <==> WellFormedTile(gr, lines, parse)
    ensures DecodeTile(gr, lines, parse).Success? ==>
      var tile := DecodeTile(gr, lines, parse).value;
      |tile| == TileSize && (forall k :: 0 <= k < TileSize ==> |tile[k]| == TileSize) &&
      forall i, x :: 0 <= i < TileSize && 0 <= x < TileSize ==>
        tile[TileSize - 1 - i][x] == SampleAt(DataLine(lines, i), x, parse)
  {
    ExpectedFindsFirstDifference(lines, HeaderLines(gr));
    if HeaderSize <= |lines| {
      DecodeRowsMeaning(lines, parse, TileSize);
    }
  }

  /** A file that ends early after a correct header and correct rows is
      reported as short, with the number of rows it holds. */
  lemma ShortFileReported(gr: GridRef, lines: seq<string>, parse: SampleParser)
    requires HeaderSize <= |lines| < HeaderSize + TileSize
    requires lines[..HeaderSize] == HeaderLines(gr)
    requires forall i :: 0 <= i < |lines| - HeaderSize ==> RowParses(DataLine(lines, i), parse)
    ensures DecodeTile(gr, lines, parse) == Failure(ShortFile(|lines| - HeaderSize))
  {
    ExpectedFindsFirstDifference(lines, HeaderLines(gr));
    var n := |lines| - HeaderSize;
    DecodeRowsMeaning(lines, parse, n);
    DecodeRowsFailureSticks(lines, parse, n + 1, TileSize);
  }

  /** A file with a line after a correct 200th row is reported as overlong,
      quoting that line. */
  lemma OverlongReported(gr: GridRef, lines: seq<string>, parse: SampleParser)
    requires |lines| > HeaderSize + TileSize
    requires lines[..HeaderSize] == HeaderLines(gr)
    requires forall i :: 0 <= i < TileSize ==> RowParses(DataLine(lines, i), parse)
    ensures DecodeTile(gr, lines, parse) == Failure(Overlong(lines[HeaderSize + TileSize]))
  {
    ExpectedFindsFirstDifference(lines, HeaderLines(gr));
    DecodeRowsMeaning(lines, parse, TileSize);
  }

  /** A tile whose header names a different 10 km square than the one holding
      `gr` is never returned: whatever corner a decoded tile declares is the
      truncated easting and northing of `gr`. */
  lemma DeclaredCornerMatches(gr: GridRef, lines: seq<string>, parse: SampleParser, cornerX: int, cornerY: int)
    requires |lines| > 3
    requires lines[2] == "xllcorner " + FormatInt(cornerX)
    requires lines[3] == "yllcorner " + FormatInt(cornerY)
    requires DecodeTile(gr, lines, parse).Success?
    ensures cornerX == Trunc10k(gr.easting) && cornerY == Trunc10k(gr.northing)
  {
    DecodeTileMeaning(gr, lines, parse);
    var h := HeaderLines(gr);
    assert lines[2] == h[2] && lines[3] == h[3];
    assert FormatInt(cornerX) == lines[2][10..] == FormatInt(Trunc10k(gr.easting));
    assert FormatInt(cornerY) == lines[3][10..] == FormatInt(Trunc10k(gr.northing));
    FormatIntInjective(cornerX, Trunc10k(gr.easting));
    FormatIntInjective(cornerY, Trunc10k(gr.northing));
  }

  // ---------------------------------------------------------------------
  // The reader as the source runs it: a line scanner and nested loops that
  // fill a 200 by 200 array.

  /** The rows of a two-dimensional array, as sequences. */
  ghost function Grid(a: array2<int16>): seq<seq<int16>>
    reads a
  {
    seq(a.Length0, i reads a requires 0 <= i < a.Length0 =>
      seq(a.Length1, j reads a requires 0 <= j < a.Length1 => a[i, j]))
  }

  /** `bufio.Scanner` splitting its input into lines: each `Scan` moves to the
      next line and `text` holds it (`Text()`); past the last line `Scan`
      answers false and `text` is empty. */
  class LineScanner {
    const lines: seq<string>
    var pos: nat
    var text: string

    ghost predicate Valid()
      reads this
    {
      pos <= |lines|
    }

    /** The lines not yet scanned. */
    ghost function Rest(): seq<string>
      reads this
      requires Valid()
    {
      lines[pos..]
    }

    constructor (lines: seq<string>)
      ensures Valid() && this.lines == lines && pos == 0 && text == ""
    {
      this.lines := lines;
      pos := 0;
      text := "";
    }

    method Scan() returns (ok: bool)
      requires Valid()
      modifies this
      ensures Valid()
      ensures ok == (old(pos) < |lines|)
      ensures ok ==> pos == old(pos) + 1 && text == lines[old(pos)]
      ensures !ok ==> pos == old(pos) && text == ""
    {
      if pos < |lines| {
        text := lines[pos];
        pos := pos + 1;
        ok := true;
      } else {
        text := "";
        ok := false;
      }
    }
  }

  /** `expect`: scan one line per wanted line and stop at the first one that
      is missing or differs. */
  method Expect(sc: LineScanner, want: seq<string>) returns (err: Option<TileError>)
    requires sc.Valid()
    modifies sc
    ensures sc.Valid()
    ensures err == Expected(old(sc.Rest()), want)
    ensures err.None? ==> sc.pos == old(sc.pos) + |want|
  {
    for k := 0 to |want|
      invariant sc.Valid() && sc.pos == old(sc.pos) + k
      invariant Expected(old(sc.Rest()), want) == Expected(sc.Rest(), want[k..])
    {
      ghost var before := sc.Rest();
      var ok := sc.Scan();
      if !ok {
        return Some(EofBefore(want[k]));
      }
      if sc.text != want[k] {
        return Some(HeaderMismatch(want[k], sc.text));
      }
      assert sc.Rest() == before[1..];
      assert want[k..][1..] == want[k + 1..];
    }
    return None;
  }

  /** The inner loop of `readTile`: parse the 200 tokens of file row `i` into
      array row `valueRow`, stopping at the first token the parser refuses.
      No other array row changes. */
  method FillRow(values: array2<int16>, valueRow: nat, i: nat, tokens: seq<string>, parse: SampleParser)
    returns (err: Option<TileError>)
    requires values.Length0 == TileSize && values.Length1 == TileSize
    requires valueRow < TileSize && |tokens| == TileSize
    modifies values
    ensures err.None? ==>
      DecodeValues(i, tokens, parse, TileSize).Success? &&
      forall c :: 0 <= c < TileSize ==> values[valueRow, c] == DecodeValues(i, tokens, parse, TileSize).value[c]
    ensures err.Some? ==> DecodeValues(i, tokens, parse, TileSize) == Failure(err.value)
    ensures forall k, c :: 0 <= k < TileSize && k != valueRow && 0 <= c < TileSize ==> values[k, c] == old(values[k, c])
  {
    for x := 0 to |tokens|
      invariant DecodeValues(i, tokens, parse, x).Success?
      invariant forall c :: 0 <= c < x ==> values[valueRow, c] == DecodeValues(i, tokens, parse, x).value[c]
      invariant forall k, c :: 0 <= k < TileSize && k != valueRow && 0 <= c < TileSize ==> values[k, c] == old(values[k, c])
    {
      var f := parse(tokens[x]);
      if f.None? {
        DecodeValuesFailureSticks(i, tokens, parse, x + 1, TileSize);
        return Some(BadSample(i, tokens[x]));
      }
      values[valueRow, x] := f.value;
    }
    return None;
  }

  /** An array whose row `199 - k` holds `rows[k]` is the reversed row list. */
  lemma GridOfReversedRows(values: array2<int16>, rows: seq<seq<int16>>)
    requires values.Length0 == TileSize && values.Length1 == TileSize
    requires |rows| == TileSize && forall k :: 0 <= k < TileSize ==> |rows[k]| == TileSize
    requires forall k, x :: 0 <= k < TileSize && 0 <= x < TileSize ==> values[TileSize - 1 - k, x] == rows[k][x]
    ensures Grid(values) == seq(TileSize, k requires 0 <= k < TileSize => rows[TileSize - 1 - k])
  {
    forall k | 0 <= k < TileSize
      ensures Grid(values)[k] == rows[TileSize - 1 - k]
    {
      forall x | 0 <= x < TileSize
        ensures Grid(values)[k][x] == rows[TileSize - 1 - k][x]
      {
        assert values[TileSize - 1 - (TileSize - 1 - k), x] == rows[TileSize - 1 - k][x];
      }
    }
  }

  /** One pass of the row loop of `readTile`: scan data line `i`, split it on
      single spaces into exactly 200 tokens and parse them into array row
      `199 - i`. On success the first `i + 1` rows decode. */
  method ReadRow(sc: LineScanner, values: array2<int16>, i: nat, parse: SampleParser, ghost rows: seq<seq<int16>>)
    returns (err: Option<TileError>)
    requires sc.Valid() && i < TileSize && sc.pos == HeaderSize + i
    requires values.Length0 == TileSize && values.Length1 == TileSize
    requires DecodeRows(sc.lines, parse, i) == Success(rows)
    modifies sc, values
    ensures sc.Valid()
    ensures err.Some? ==> DecodeRows(sc.lines, parse, i + 1) == Failure(err.value)
    ensures err.None? ==>
      sc.pos == HeaderSize + i + 1 && DecodeRows(sc.lines, parse, i + 1).Success? &&
      DecodeRows(sc.lines, parse, i + 1).value[..i] == rows &&
      var decoded := DecodeRows(sc.lines, parse, i + 1).value[i];
      forall x :: 0 <= x < TileSize ==> values[TileSize - 1 - i, x] == decoded[x]
    ensures forall k, x :: 0 <= k < TileSize && k != TileSize - 1 - i && 0 <= x < TileSize ==> values[k, x] == old(values[k, x])
  {
    var ok := sc.Scan();
    if !ok {
      return Some(ShortFile(i));
    }
    var row := Split(sc.text, ' ');
    if |row| != TileSize {
      return Some(RowLength(|row|, i));
    }
    // The file has the most northerly row first; tile row 0 is the most southerly.
    var valueRow := TileSize - 1 - i;
    err := FillRow(values, valueRow, i, row, parse);
    assert DecodeRow(i, sc.text, parse) == DecodeValues(i, row, parse, TileSize);
  }

  /** The row loop of `readTile`: 200 passes, stopping at the first failure. */
  method ReadRows(sc: LineScanner, values: array2<int16>, parse: SampleParser) returns (err: Option<TileError>)
    requires sc.Valid() && sc.pos == HeaderSize
    requires values.Length0 == TileSize && values.Length1 == TileSize
    modifies sc, values
    ensures sc.Valid()
    ensures err.Some? ==> DecodeRows(sc.lines, parse, TileSize) == Failure(err.value)
    ensures err.None? ==>
      sc.pos == HeaderSize + TileSize && DecodeRows(sc.lines, parse, TileSize).Success? &&
      forall k, x :: 0 <= k < TileSize && 0 <= x < TileSize ==>
        values[TileSize - 1 - k, x] == DecodeRows(sc.lines, parse, TileSize).value[k][x]
  {
    ghost var rows: seq<seq<int16>> := [];
    for i := 0 to TileSize
      invariant sc.Valid() && sc.pos == HeaderSize + i
      invariant DecodeRows(sc.lines, parse, i) == Success(rows)
      invariant forall k, x :: 0 <= k < i && 0 <= x < TileSize ==> values[TileSize - 1 - k, x] == rows[k][x]
    {
      err := ReadRow(sc, values, i, parse, rows);
      if err.Some? {
        DecodeRowsFailureSticks(sc.lines, parse, i + 1, TileSize);
        return;
      }
      rows := DecodeRows(sc.lines, parse, i + 1).value;
    }
    err := None;
  }

  /** `readTile`: check the header against the 10 km square of `gr`, then read
      200 rows of 200 samples into a fresh array, most northerly row last,
      and refuse anything after them. The outcome is the one `DecodeTile`
      describes. */
  method ReadTile(gr: GridRef, lines: seq<string>, parse: SampleParser) returns (r: Result<array2<int16>, TileError>)
    ensures r.Success? ==> fresh(r.value) && r.value.Length0 == TileSize && r.value.Length1 == TileSize
    ensures r.Success? ==> DecodeTile(gr, lines, parse) == Success(Grid(r.value))
    ensures r.Failure? ==> DecodeTile(gr, lines, parse) == Failure(r.error)
  {
    var sc := new LineScanner(lines);
    var xllCorner := "xllcorner " + FormatInt(Trunc10k(gr.easting));
    var yllCorner := "yllcorner " + FormatInt(Trunc10k(gr.northing));
    var err := Expect(sc, ["ncols 200", "nrows 200", xllCorner, yllCorner, "cellsize 50"]);
    if err.Some? {
      return Failure(err.value);
    }

    var values := new int16[TileSize, TileSize];
    err := ReadRows(sc, values, parse);
    if err.Some? {
      return Failure(err.value);
    }

    var more := sc.Scan();
    if more {
      return Failure(Overlong(sc.text));
    }
    GridOfReversedRows(values, DecodeRows(lines, parse, TileSize).value);
    return Success(values);
  }
}
