/** Values the protocol layer passes around: optional values, results that
    carry the exceptions the tester raises, and the screen geometry records
    (Point, Rect) the checksum verifier iterates over. */
module Types {

  datatype Option<+T> = None | Some(value: T)

  /** Why an InternalError was raised. */
  datatype Internal =
    | Timeout                                    // read(): no character arrived in time
    | CharMismatch(got: char, expected: char)    // AssertCharsEqual
    | NotIntroducer(got: char)                   // ReadCSI / ReadDCS: no 7-bit or 8-bit introducer
    | UnexpectedChar(got: char)                  // ReadCSI: neither a parameter nor the expected prefix
    | EmptyFinal                                 // WriteCSI with an empty final
    | HeightMismatch(height: int, lines: int)    // AssertScreenCharsInRectEqual
    | WidthMismatch(width: int, row: int, length: int)

  /** One checked screen cell: where it is, the code the test expected there
      and the (normalised) checksum the terminal reported. */
  datatype Cell = Cell(point: Point, expected: int, actual: int)

  /** The exceptions the core raises. */
  datatype Error =
    | InternalError(reason: Internal)
    | ValueError                                 // int() of a non-number, chr() of a negative value
    | TypeError                                  // int(None)
    | IndexError                                 // indexing past the end of a string or list
    | UnicodeEncodeError                         // a character above U+00FF sent to the terminal
    | InsufficientVTLevel(level: int, minimum: int)
    | BadResponse(response: string, wanted: string)
    | TestFailure
    | ChecksumException(errors: seq<Cell>, actualRows: seq<string>, expectedRows: seq<string>)
    | AttributeError                             // a call to a function its module does not define

  /** The value of a call that either returns or raises. */
  datatype Result<+T> = Ok(value: T) | Err(error: Error) {
    predicate IsFailure() { Err? }

    function PropagateFailure<U>(): Result<U>
      requires Err?
    {
      Err(error)
    }

    function Extract(): T
      requires Ok?
    {
      value
    }
  }

  /** A screen position, 1-based. */
  datatype Point = Point(x: int, y: int)

  /** A screen rectangle with inclusive 1-based corners. */
  datatype Rect = Rect(left: int, top: int, right: int, bottom: int) {

    function Width(): int { right - left + 1 }

    function Height(): int { bottom - top + 1 }

    /** The parameter order of the rectangle control sequences: Pt;Pl;Pb;Pr. */
    function Params(): seq<int> { [top, left, bottom, right] }

    /** The points of row `y`, left to right. */
    function Row(y: int): (r: seq<Point>)
      ensures |r| == if left <= right then Width() else 0
      ensures forall k :: 0 <= k < |r| ==> r[k] == Point(left + k, y)
    {
      if left <= right then seq(Width(), k => Point(left + k, y)) else []
    }

    /** The points of rows `y` to `bottom`, row after row. */
    function RowsFrom(y: int): (r: seq<Point>)
      ensures forall p :: p in r ==> left <= p.x <= right && y <= p.y <= bottom
      decreases bottom - y
    {
      if y > bottom then [] else Row(y) + RowsFrom(y + 1)
    }

    /** Every point of the rectangle in row-major order. */
    function Points(): (r: seq<Point>)
      ensures forall p :: p in r ==> left <= p.x <= right && top <= p.y <= bottom
    {
      RowsFrom(top)
    }
  }
}
