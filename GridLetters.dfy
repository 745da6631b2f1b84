/** The National Grid letter tables of the gosdata package, with integer
    points: the first letter of a grid reference picks a 500 km square, the
    second a 100 km square inside it. */
module GridLetters {
  import opened Wrappers
  import opened GoInt

  /** A point in metres east and north of the grid's false origin. */
  datatype Point = Point(x: int, y: int)

  datatype GridError = InvalidGridLetter

  /** The 25 grid letters (`I` is never used) as they sit in a 5 by 5 block of
      squares, most northerly row first. Both letters of a grid reference
      follow this layout: the first over 500 km squares, the second over the
      100 km squares inside one of them. */
  const LayoutRows: seq<string> := ["ABCDE", "FGHJK", "LMNOP", "QRSTU", "VWXYZ"]

  /** A square of the block: column 0 is the most westerly, row 0 the most southerly. */
  predicate IsSquare(col: int, row: int)
  {
    0 <= col < 5 && 0 <= row < 5
  }

  /** The letter of square (`col`, `row`). */
  function LetterAt(col: int, row: int): byte
    requires IsSquare(col, row)
  {
    LayoutRows[4 - row][col] as int as byte
  }

  /** The letters that name a square of the block. */
  predicate InLayout(letter: byte)
  {
    exists col, row | 0 <= col < 5 && 0 <= row < 5 :: LetterAt(col, row) == letter
  }

  /** `gridFirstLetter`: the south-west corner of the 500 km square named by
      the first letter. Only the five squares that cover Great Britain are
      accepted. */
  function GridFirstLetter(letter: byte): (r: Result<Point, GridError>)
  {
    if letter == 'H' as byte then Success(Point(0, 1000000))
    else if letter == 'N' as byte then Success(Point(0, 500000))
    else if letter == 'O' as byte then Success(Point(500000, 500000))
    else if letter == 'S' as byte then Success(Point(0, 0))
    else if letter == 'T' as byte then Success(Point(500000, 0))
    else Failure(InvalidGridLetter)
  }

  /** `gridSecondLetter`: the offset of the 100 km square named by the second
      letter from the corner of its 500 km square. */
  function GridSecondLetter(letter: byte): (r: Result<Point, GridError>)
  {
    if 'A' as byte <= letter <= 'E' as byte then Success(Point((letter - 'A' as byte) as int * 100000, 400000))
    else if 'F' as byte <= letter <= 'H' as byte then Success(Point((letter - 'F' as byte) as int * 100000, 300000))
    else if 'J' as byte <= letter <= 'K' as byte then Success(Point((letter - 'G' as byte) as int * 100000, 300000))
    else if 'L' as byte <= letter <= 'P' as byte then Success(Point((letter - 'L' as byte) as int * 100000, 200000))
    else if 'Q' as byte <= letter <= 'U' as byte then Success(Point((letter - 'Q' as byte) as int * 100000, 100000))
    else if 'V' as byte <= letter <= 'Z' as byte then Success(Point((letter - 'V' as byte) as int * 100000, 0))
    else Failure(InvalidGridLetter)
  }

  /** The layout lists `A` to `Z` row by row, skipping `I`. */
  lemma LetterAtValue(col: int, row: int)
    requires IsSquare(col, row)
    ensures var k := 5 * (4 - row) + col;
      LetterAt(col, row) as int == 'A' as int + k + (if k >= 8 then 1 else 0)
  {
    // The 25 squares are few enough for the solver to check one by one.
  }

  /** Looking up the letter of any square gives that square's offset: 100 km
      per column east and per row north. */
  lemma SecondLetterOfSquare(col: int, row: int)
    requires IsSquare(col, row)
    ensures GridSecondLetter(LetterAt(col, row)) == Success(Point(100000 * col, 100000 * row))
  {
    LetterAtValue(col, row);
  }

  /** An accepted second letter names the square its offset leads to. */
  lemma SecondLetterNamesSquare(letter: byte)
    requires GridSecondLetter(letter).Success?
    ensures var p := GridSecondLetter(letter).value;
      p.x % 100000 == 0 && p.y % 100000 == 0 && IsSquare(p.x / 100000, p.y / 100000) &&
      LetterAt(p.x / 100000, p.y / 100000) == letter
  {
    var c := letter as int;
    var col, row;
    if c <= 'E' as int {
      col, row := c - 'A' as int, 4;
    } else if c <= 'H' as int {
      col, row := c - 'F' as int, 3;
    } else if c <= 'K' as int {
      col, row := c - 'G' as int, 3;
    } else if c <= 'P' as int {
      col, row := c - 'L' as int, 2;
    } else if c <= 'U' as int {
      col, row := c - 'Q' as int, 1;
    } else {
      col, row := c - 'V' as int, 0;
    }
    assert GridSecondLetter(letter).value == Point(100000 * col, 100000 * row);
    assert (100000 * col) / 100000 == col && (100000 * row) / 100000 == row;
    LetterAtValue(col, row);
  }

  /** The second letter is accepted exactly when it names a square of the
      layout (so `I` and every byte outside `A`..`Z` are refused), and then
      its offset is a whole number of 100 km squares that leads back to it. */
  lemma SecondLetterFollowsLayout(letter: byte)
    ensures GridSecondLetter(letter).Success? <==> InLayout(letter)
    ensures GridSecondLetter(letter).Success? ==>
      var p := GridSecondLetter(letter).value;
      p.x % 100000 == 0 && p.y % 100000 == 0 && IsSquare(p.x / 100000, p.y / 100000) &&
      LetterAt(p.x / 100000, p.y / 100000) == letter
  {
    if InLayout(letter) {
      var col, row :| 0 <= col < 5 && 0 <= row < 5 && LetterAt(col, row) == letter;
      SecondLetterOfSquare(col, row);
    }
    if GridSecondLetter(letter).Success? {
      SecondLetterNamesSquare(letter);
    }
  }

  /** Distinct accepted second letters name distinct squares. */
  lemma SecondLetterInjective(a: byte, b: byte)
    requires GridSecondLetter(a).Success? && GridSecondLetter(b).Success?
    requires GridSecondLetter(a).value == GridSecondLetter(b).value
    ensures a == b
  {
    SecondLetterFollowsLayout(a);
    SecondLetterFollowsLayout(b);
  }

  /** Both coordinates of a second-letter offset are one of 0, 100 km, ...,
      400 km. */
  lemma SecondLetterOffsetBounds(letter: byte)
    requires GridSecondLetter(letter).Success?
    ensures var p := GridSecondLetter(letter).value;
      0 <= p.x <= 400000 && p.x % 100000 == 0 && 0 <= p.y <= 400000 && p.y % 100000 == 0
  {
    SecondLetterFollowsLayout(letter);
  }

  /** The first letter is accepted only for the five squares of the block that
      cover Great Britain (H; N, O; S, T), and names the corner of its square
      with the false origin at the corner of square S. */
  lemma FirstLetterOfSquare(col: int, row: int)
    requires IsSquare(col, row)
    ensures GridFirstLetter(LetterAt(col, row)) ==
      if 2 <= col <= 3 && 1 <= row <= 3 && !(col == 3 && row == 3)
      then Success(Point(500000 * (col - 2), 500000 * (row - 1)))
      else Failure(InvalidGridLetter)
  {
    LetterAtValue(col, row);
  }

  /** A byte that names no square of the layout is never a first letter. */
  lemma FirstLetterOutsideLayout(letter: byte)
    requires !InLayout(letter)
    ensures GridFirstLetter(letter) == Failure(InvalidGridLetter)
  {
    if GridFirstLetter(letter).Success? {
      var col := if letter == 'O' as byte || letter == 'T' as byte then 3 else 2;
      var row := if letter == 'H' as byte then 3 else if letter == 'N' as byte || letter == 'O' as byte then 2 else 1;
      LetterAtValue(col, row);
      assert false;
    }
  }

  /** A first and a second letter together name a 100 km square lying wholly
      inside the 500 km square of the first letter. */
  lemma SquareInsideLargeSquare(first: byte, second: byte)
    requires GridFirstLetter(first).Success? && GridSecondLetter(second).Success?
    ensures var o, p := GridFirstLetter(first).value, GridSecondLetter(second).value;
      o.x <= o.x + p.x && o.x + p.x + 100000 <= o.x + 500000 &&
      o.y <= o.y + p.y && o.y + p.y + 100000 <= o.y + 500000 &&
      (o.x + p.x) % 100000 == 0 && (o.y + p.y) % 100000 == 0
  {
    SecondLetterOffsetBounds(second);
  }
}
