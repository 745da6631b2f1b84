/** The letter tables of the `osgrid` package, whose points carry `float64`
    coordinates. Every coordinate involved is a whole number of metres below
    2^53, which `float64` holds exactly, so the model uses `real`. */
module OsGrid {
  import opened Wrappers
  import opened GoInt
  import GridLetters

  /** The side of a first-letter square (500 km). */
  const LargeGridSize: int := 500 * 1000

  /** The side of a second-letter square (100 km). */
  const SmallGridSize: int := 100 * 1000

  /** `r2.Point`. */
  datatype Point = Point(x: real, y: real)

  datatype GridError = InvalidGridLetter

  /** `gridFirstLetter`, with origins written as multiples of `LargeGridSize`. */
  function GridFirstLetter(letter: byte): (r: Result<Point, GridError>)
  {
    if letter == 'H' as byte then Success(Point(0.0, (2 * LargeGridSize) as real))
    else if letter == 'N' as byte then Success(Point(0.0, (1 * LargeGridSize) as real))
    else if letter == 'O' as byte then Success(Point((1 * LargeGridSize) as real, (1 * LargeGridSize) as real))
    else if letter == 'S' as byte then Success(Point(0.0, 0.0))
    else if letter == 'T' as byte then Success(Point((1 * LargeGridSize) as real, 0.0))
    else Failure(InvalidGridLetter)
  }

  /** `gridSecondLetter`, computing `float64(letter - base) * 100000`. */
  function GridSecondLetter(letter: byte): (r: Result<Point, GridError>)
  {
    if 'A' as byte <= letter <= 'E' as byte then Success(Point((letter - 'A' as byte) as real * 100000.0, 400000.0))
    else if 'F' as byte <= letter <= 'H' as byte then Success(Point((letter - 'F' as byte) as real * 100000.0, 300000.0))
    else if 'J' as byte <= letter <= 'K' as byte then Success(Point((letter - 'G' as byte) as real * 100000.0, 300000.0))
    else if 'L' as byte <= letter <= 'P' as byte then Success(Point((letter - 'L' as byte) as real * 100000.0, 200000.0))
    else if 'Q' as byte <= letter <= 'U' as byte then Success(Point((letter - 'Q' as byte) as real * 100000.0, 100000.0))
    else if 'V' as byte <= letter <= 'Z' as byte then Success(Point((letter - 'V' as byte) as real * 100000.0, 0.0))
    else Failure(InvalidGridLetter)
  }

  /** The real point with the same coordinates as an integer point. */
  function FromInt(p: GridLetters.Point): Point
  {
    Point(p.x as real, p.y as real)
  }

  /** A coordinate that is a whole multiple of 100 km. */
  predicate WholeSmallSquares(v: real)
  {
    v == v.Floor as real && v.Floor % SmallGridSize == 0
  }

  /** Both tables accept the same letters as the integer tables of the
      gosdata package and return the same points; so every coordinate they
      return is an exact multiple of 100 km even though it is stored as a
      float. */
  lemma TablesAgreeWithIntegerTables(letter: byte)
    ensures GridFirstLetter(letter).Success? <==> GridLetters.GridFirstLetter(letter).Success?
    ensures GridFirstLetter(letter).Success? ==>
      GridFirstLetter(letter).value == FromInt(GridLetters.GridFirstLetter(letter).value)
    ensures GridSecondLetter(letter).Success? <==> GridLetters.GridSecondLetter(letter).Success?
    ensures GridSecondLetter(letter).Success? ==>
      GridSecondLetter(letter).value == FromInt(GridLetters.GridSecondLetter(letter).value)
    ensures GridFirstLetter(letter).Success? ==>
      WholeSmallSquares(GridFirstLetter(letter).value.x) && WholeSmallSquares(GridFirstLetter(letter).value.y)
    ensures GridSecondLetter(letter).Success? ==>
      WholeSmallSquares(GridSecondLetter(letter).value.x) && WholeSmallSquares(GridSecondLetter(letter).value.y)
  {
    if GridLetters.GridSecondLetter(letter).Success? {
      GridLetters.SecondLetterOffsetBounds(letter);
      var p := GridLetters.GridSecondLetter(letter).value;
      assert (p.x as real).Floor == p.x && (p.y as real).Floor == p.y;
    }
  }

  /** First-letter origins are whole multiples of `LargeGridSize`, and second-
      letter offsets of `SmallGridSize`. */
  lemma OriginsAreMultiples(letter: byte)
    ensures GridFirstLetter(letter).Success? ==>
      var p := GridFirstLetter(letter).value;
      p.x == p.x.Floor as real && p.x.Floor % LargeGridSize == 0 && 0 <= p.x.Floor <= LargeGridSize &&
      p.y == p.y.Floor as real && p.y.Floor % LargeGridSize == 0 && 0 <= p.y.Floor <= 2 * LargeGridSize
    ensures GridSecondLetter(letter).Success? ==>
      var p := GridSecondLetter(letter).value;
      WholeSmallSquares(p.x) && 0.0 <= p.x < LargeGridSize as real &&
      WholeSmallSquares(p.y) && 0.0 <= p.y < LargeGridSize as real
  {
    TablesAgreeWithIntegerTables(letter);
    if GridSecondLetter(letter).Success? {
      GridLetters.SecondLetterOffsetBounds(letter);
    }
  }
}
