/** The screen checker: GetChecksumOfRect asks the terminal (DECRQCRA) for
    the checksum of a rectangle and parses the DCS reply;
    AssertScreenCharsInRectEqual asks for every cell of a rectangle in turn
    and compares each answer with the character the test expects there. */
module Checksum {
  import opened Types
  import opened Numerals
  import opened Esc
  import opened EscIo
  import opened Framing
  import opened EscUtil
  import opened EscCmd

  // ---------------------------------------------------------------------
  // Parsing the DECRQCRA reply

  /** Python's s[i:]: empty once `i` is past the end. */
  function Drop(s: string, i: nat): (r: string)
    ensures i <= |s| ==> r == s[i..]
    ensures i > |s| ==> r == []
  {
    if i <= |s| then s[i..] else []
  }

  /** The leading decimal digits of `s`. */
  function DigitPrefix(s: string): (r: string)
    ensures StartsWith(s, r) && DigitsIn(r, 10)
    ensures |r| < |s| ==> !IsDigit(s[|r|])
  {
    if |s| > 0 && IsDigit(s[0]) then
      var t := DigitPrefix(s[1..]);
      assert s[..1 + |t|] == [s[0]] + s[1..][..|t|];
      [s[0]] + t
    else []
  }

  /** Whether the pattern `[^0-9].*$` matches at `i`: a non-digit there,
      then no newline before the end, except that the very last character
      may be one (`.` stops at a newline; `$` also matches before a final
      newline, which is then a match of its own). */
  predicate CutMatchAt(s: string, i: nat)
    requires i < |s|
  {
    !IsDigit(s[i]) && forall j :: i < j < |s| - 1 ==> s[j] != '\n'
  }

  /** The search for the first match from `i` on: `s` up to it, or all of
      `s` when there is none. */
  function CutFrom(s: string, i: nat): (r: string)
    requires i <= |s|
    ensures i <= |r| <= |s| && StartsWith(s, r)
    decreases |s| - i
  {
    if i == |s| then s
    else if CutMatchAt(s, i) then s[..i]
    else CutFrom(s, i + 1)
  }

  /** The search stops at the first match from `i` on: the pattern
      matches where the kept text ends, and nowhere between `i` and
      there. */
  lemma {:induction false} CutFromFirstMatch(s: string, i: nat)
    requires i <= |s|
    ensures var r := CutFrom(s, i);
      (|r| < |s| ==> CutMatchAt(s, |r|)) && forall k :: i <= k < |r| ==> !CutMatchAt(s, k)
    decreases |s| - i
  {
    if i < |s| && !CutMatchAt(s, i) {
      CutFromFirstMatch(s, i + 1);
    }
  }

  /** re.sub(r'[^0-9].*$', "", s): everything from the pattern's first
      match on is removed (the match itself runs to the end of `s`, or to
      a final newline, which matches next). */
  function CutAtNonDigit(s: string): (r: string)
    ensures StartsWith(s, r)
  {
    CutFrom(s, 0)
  }

  /** The cut keeps exactly the text before the pattern's first match. */
  lemma CutAtFirstMatch(s: string)
    ensures var r := CutAtNonDigit(s);
      (|r| < |s| ==> CutMatchAt(s, |r|)) && forall k :: 0 <= k < |r| ==> !CutMatchAt(s, k)
  {
    CutFromFirstMatch(s, 0);
  }

  /** The id the reply is taken to carry: the request's own when the
      reply starts with it; otherwise, from iTerm2, the reply cut at its
      first non-digit; otherwise a BadResponse (passed over under force, keeping the
      request's id). */
  function ReplyId(cfg: Config, body: string, pid: nat): (r: Result<string>)
    ensures StartsWith(body, NatToString(pid)) ==> r == Ok(NatToString(pid))
    ensures !StartsWith(body, NatToString(pid)) && cfg.expectedTerminal == ITerm2 ==> r == Ok(CutAtNonDigit(body))
    ensures !StartsWith(body, NatToString(pid)) && cfg.expectedTerminal != ITerm2 ==>
      r == if cfg.force then Ok(NatToString(pid)) else Err(BadResponse(body, "Prefix of " + NatToString(pid)))
  {
    var given := NatToString(pid);
    if StartsWith(body, given) then Ok(given)
    else if cfg.expectedTerminal == ITerm2 then Ok(CutAtNonDigit(body))
    else
      var _ :- Raise(cfg, BadResponse(body, "Prefix of " + given));
      Ok(given)
  }

  /** The body of the reply "Pid!~XXXX" to the request with id `pid`: after
      the id, "!~" (or the test fails, unless forced) and the checksum in
      hexadecimal (or ValueError). */
  function ParseChecksum(cfg: Config, body: string, pid: nat): (r: Result<int>)
    ensures ReplyId(cfg, body, pid).Err? ==> r == Err(ReplyId(cfg, body, pid).error)
    ensures ReplyId(cfg, body, pid).Ok? ==>
      var id := ReplyId(cfg, body, pid).value;
      r == if cfg.force || StartsWith(Drop(body, |id|), "!~") then ParseHexResult(Drop(body, |id| + 2)) else Err(TestFailure)
  {
    var id :- ReplyId(cfg, body, pid);
    var _ :- AssertTrue(cfg, StartsWith(Drop(body, |id|), "!~"));
    ParseHexResult(Drop(body, |id| + 2))
  }

  /** int(text, 16), raising ValueError. */
  function ParseHexResult(text: string): (r: Result<int>)
    ensures r.Ok? <==> ParseHex(text).Some?
    ensures r.Ok? ==> r.value == ParseHex(text).value
    ensures r.Err? ==> r.error == ValueError
  {
    match ParseHex(text)
    case Some(v) => Ok(v)
    case None => Err(ValueError)
  }

  // ---------------------------------------------------------------------
  // One rectangle's checksum

  /** GetChecksumOfRect: take the next request id, send DECRQCRA for the
      id, page 0 and the rectangle, read the DCS reply and parse it. The id
      is used up even when the request cannot be sent. */
  function ChecksumStep(cfg: Config, st: SessionState, rect: Rect): (r: Step<int>)
    requires st.Valid()
    ensures r.state.Valid()
    ensures r.state.nextId == st.nextId + 1
    ensures r.state.input == st.input && r.state.use8Bit == st.use8Bit
    ensures r.state.numIndexedColors == st.numIndexedColors && r.state.side == st.side
    ensures cfg.vtLevel < 4 ==> r == Step(Err(InsufficientVTLevel(cfg.vtLevel, 4)), st.(nextId := st.nextId + 1))
  {
    var pid := st.nextId;
    var st1 := st.(nextId := pid + 1);
    match DECRQCRA(cfg, PInt(pid), PInt(0), Some(rect))
    case Err(e) => Step(Err(e), st1)
    case Ok(cmd) =>
      var w := SendStep(st1, cmd);
      if w.result.Err? then Step(Err(w.result.error), w.state)
      else
        var rd := Reading(w.state, ReadDCSSpec(w.state.use8Bit, w.state.input, w.state.pos));
        if rd.result.Err? then Step(Err(rd.result.error), rd.state)
        else Step(ParseChecksum(cfg, rd.result.value, pid), rd.state)
  }

  /** GetChecksumOfRect on the live session. */
  method GetChecksumOfRect(cfg: Config, s: Session, rect: Rect) returns (r: Result<int>)
    requires s.Valid()
    modifies s
    ensures s.Valid()
    ensures Step(r, s.State()) == ChecksumStep(cfg, old(s.State()), rect)
  {
    var pid := s.nextId;
    s.nextId := pid + 1;
    var cmd := DECRQCRA(cfg, PInt(pid), PInt(0), Some(rect));
    if cmd.Err? {
      return Err(cmd.error);
    }
    var w := Send(s, cmd.value);
    if w.Err? {
      return Err(w.error);
    }
    var body := s.ReadDCS();
    if body.Err? {
      return Err(body.error);
    }
    r := ParseChecksum(cfg, body.value, pid);
  }

  // ---------------------------------------------------------------------
  // Comparing a rectangle cell by cell

  /** The old xterm checksum (before patch 279) is the negated sum, modulo
      2^16, and counts an erased cell as a space: the checker undoes both. */
  function Normalize(cfg: Config, expected: int, actual: int): (n: int)
    ensures cfg.expectedTerminal != Xterm || cfg.xtermChecksum >= 279 ==> n == actual
  {
    if cfg.expectedTerminal == Xterm && cfg.xtermChecksum < 279 then
      var a := 0x10000 - actual;
      if expected == 0 && a == 32 then 0 else a
    else actual
  }

  /** How a cell's code appears in the human-readable rows: '.' for 0, the
      character itself below 256, nothing from 256 on; chr() of a negative
      value raises ValueError. */
  function DisplayOf(v: int): (r: Result<string>)
    ensures r.Err? <==> v < 0
    ensures r.Err? ==> r.error == ValueError
    ensures r.Ok? ==> |r.value| <= 1 && (|r.value| == 1 <==> v < 256)
  {
    if v == 0 then Ok(".")
    else if v < 0 then Err(ValueError)
    else if v < 256 then Ok([v as char])
    else Ok("")
  }

  /** Add `text` to row `y`, first opening a new row if there are no more
      than `y` rows; indexing a row that is still missing raises. */
  function AppendAt(rows: seq<string>, y: nat, text: string): (r: Result<seq<string>>)
    ensures y <= |rows| ==> r.Ok? && |r.value| == (if y == |rows| then |rows| + 1 else |rows|)
    ensures y <= |rows| ==> r.value[y] == (if y == |rows| then "" else rows[y]) + text
    ensures y <= |rows| ==> forall k :: 0 <= k < |rows| && k != y ==> r.value[k] == rows[k]
    ensures y > |rows| ==> r == Err(IndexError)
  {
    var grown := if |rows| <= y then rows + [""] else rows;
    if y < |grown| then Ok(grown[y := grown[y] + text]) else Err(IndexError)
  }

  /** What the loop has gathered: the readable rows the terminal showed
      and the test expected, the mismatching cells, and every cell seen so
      far (the last one records the run, not a value the checker keeps). */
  datatype Tally = Tally(actual: seq<string>, expected: seq<string>, errors: seq<Cell>, seen: seq<Cell>)

  /** The cells whose reported value differs from the expected one, in
      order. */
  function Mismatches(cells: seq<Cell>): (r: seq<Cell>)
    ensures forall c :: c in r <==> c in cells && c.expected != c.actual
    ensures r == [] <==> forall k :: 0 <= k < |cells| ==> cells[k].expected == cells[k].actual
    ensures |r| <= |cells|
  {
    if cells == [] then []
    else
      var c := cells[|cells| - 1];
      var front := cells[..|cells| - 1];
      assert cells == front + [c];
      Mismatches(front) + (if c.expected != c.actual then [c] else [])
  }

  /** One cell's contribution to the tally. */
  function Record(t: Tally, p: Point, y: nat, expected: int, actual: int): (r: Result<Tally>)
    requires expected >= 0
    ensures r.Ok? ==> r.value.seen == t.seen + [Cell(p, expected, actual)]
    ensures r.Ok? ==> r.value.errors == t.errors + (if expected != actual then [Cell(p, expected, actual)] else [])
    ensures y > |t.actual| ==> r == Err(IndexError)
    ensures y <= |t.actual| && actual < 0 ==> r == Err(ValueError)
  {
    // actual[y] is looked up before chr() is applied to the value
    if y > |t.actual| then Err(IndexError)
    else
      var shown :- DisplayOf(actual);
      var actualRows := AppendAt(t.actual, y, shown).value;
      var expectedRows :- AppendAt(t.expected, y, DisplayOf(expected).value);
      var cell := Cell(p, expected, actual);
      Ok(Tally(actualRows, expectedRows, t.errors + (if expected != actual then [cell] else []), t.seen + [cell]))
  }

  predicate InRect(rect: Rect, p: Point) {
    rect.left <= p.x <= rect.right && rect.top <= p.y <= rect.bottom
  }

  /** The cell's point lies on a line of the rectangle's width, and the
      value expected there is that line's character at the point. */
  predicate ExpectedAt(rect: Rect, lines: seq<string>, cell: Cell) {
    var y := cell.point.y - rect.top;
    var x := cell.point.x - rect.left;
    0 <= y < |lines| && 0 <= x < |lines[y]| && |lines[y]| == rect.Width() &&
    cell.expected == lines[y][x] as int
  }

  /** One point of AssertScreenCharsInRectEqual's loop, given the outcome
      `c` of the point's checksum request: a line of the wrong width raises
      before anything is sent; otherwise a failed request is the step's
      failure, and a checksum is normalised and recorded against the
      line's character at the point. */
  function CellStep(cfg: Config, st: SessionState, rect: Rect, lines: seq<string>, p: Point, t: Tally, c: Step<int>): (r: Step<Tally>)
    requires |lines| == rect.Height() && InRect(rect, p)
    ensures var y := p.y - rect.top;
      rect.Width() != |lines[y]| ==> r.result == Err(InternalError(WidthMismatch(rect.Width(), y, |lines[y]|))) && r.state == st
    ensures rect.Width() == |lines[p.y - rect.top]| ==> r.state == c.state
    ensures rect.Width() == |lines[p.y - rect.top]| && c.result.Err? ==> r.result == Err(c.result.error)
    ensures r.result.Ok? ==>
      c.result.Ok? && rect.Width() == |lines[p.y - rect.top]| &&
      var expected := lines[p.y - rect.top][p.x - rect.left] as int;
      var cell := Cell(p, expected, Normalize(cfg, expected, c.result.value));
      r.result.value.seen == t.seen + [cell] &&
      r.result.value.errors == t.errors + (if cell.expected != cell.actual then [cell] else [])
  {
    var y := p.y - rect.top;
    var x := p.x - rect.left;
    if rect.Width() != |lines[y]| then
      Step(Err(InternalError(WidthMismatch(rect.Width(), y, |lines[y]|))), st)
    else if c.result.Err? then Step(Err(c.result.error), c.state)
    else
      var expected := lines[y][x] as int;
      match Record(t, p, y, expected, Normalize(cfg, expected, c.result.value))
      case Err(e) => Step(Err(e), c.state)
      case Ok(next) => Step(Ok(next), c.state)
  }

  /** The checksum request for the single point `p`. */
  function PointChecksum(cfg: Config, st: SessionState, p: Point): (r: Step<int>)
    requires st.Valid()
    ensures r.state.Valid() && r.state.nextId == st.nextId + 1
  {
    ChecksumStep(cfg, st, Rect(p.x, p.y, p.x, p.y))
  }

  /** What one point of the loop records: the value expected there is the
      line's character at the point, on a line as wide as the rectangle,
      and the value seen is the point's checksum, normalised. */
  lemma CellRecorded(cfg: Config, st: SessionState, rect: Rect, lines: seq<string>, p: Point, t: Tally, c: Step<int>)
    requires |lines| == rect.Height() && InRect(rect, p)
    ensures var r := CellStep(cfg, st, rect, lines, p, t, c);
      r.result.Ok? ==>
        var cell := r.result.value.seen[|t.seen|];
        ExpectedAt(rect, lines, cell) && c.result.Ok? && cell.actual == Normalize(cfg, cell.expected, c.result.value)
  {
    var r := CellStep(cfg, st, rect, lines, p, t, c);
    if r.result.Ok? {
      var e := lines[p.y - rect.top][p.x - rect.left] as int;
      var cell := r.result.value.seen[|t.seen|];
      assert cell == Cell(p, e, Normalize(cfg, e, c.result.value));
      CellExpected(rect, lines, p, cell.actual);
    }
  }

  lemma CellExpected(rect: Rect, lines: seq<string>, p: Point, actual: int)
    requires |lines| == rect.Height() && InRect(rect, p)
    requires |lines[p.y - rect.top]| == rect.Width()
    ensures ExpectedAt(rect, lines, Cell(p, lines[p.y - rect.top][p.x - rect.left] as int, actual))
  {
  }

  /** AssertScreenCharsInRectEqual's loop over the points `pts`, stopping
      at the first point that raises. */
  function CellsSpec(cfg: Config, st: SessionState, rect: Rect, lines: seq<string>, pts: seq<Point>, t: Tally): (r: Step<Tally>)
    requires st.Valid() && |lines| == rect.Height()
    requires forall p :: p in pts ==> InRect(rect, p)
    ensures r.state.Valid()
    decreases |pts|
  {
    if pts == [] then Step(Ok(t), st)
    else
      assert pts[0] in pts;
      var c := CellStep(cfg, st, rect, lines, pts[0], t, PointChecksum(cfg, st, pts[0]));
      if c.result.Err? then c
      else CellsSpec(cfg, c.state, rect, lines, pts[1..], c.result.value)
  }

  /** AssertScreenCharsInRectEqual: VT level 4, as many expected lines as
      the rectangle is high, every cell checked, and a ChecksumException
      carrying the mismatches and both sets of rows if there are any. */
  function ScreenCheckSpec(cfg: Config, st: SessionState, rect: Rect, lines: seq<string>): (r: Step<()>)
    requires st.Valid()
    ensures r.state.Valid()
    ensures cfg.vtLevel < 4 ==> r == Step(Err(InsufficientVTLevel(cfg.vtLevel, 4)), st)
    ensures cfg.vtLevel >= 4 && rect.Height() != |lines| ==>
      r == Step(Err(InternalError(HeightMismatch(rect.Height(), |lines|))), st)
  {
    if cfg.vtLevel < 4 then Step(Err(InsufficientVTLevel(cfg.vtLevel, 4)), st)
    else if rect.Height() != |lines| then Step(Err(InternalError(HeightMismatch(rect.Height(), |lines|))), st)
    else
      ScreenResult(cfg, CellsSpec(cfg, st, rect, lines, rect.Points(), Tally([], [], [], [])))
  }

  /** The outcome of the check once every cell has been gathered. */
  function ScreenResult(cfg: Config, c: Step<Tally>): (r: Step<()>)
    ensures r.state == c.state
    ensures c.result.Err? ==> r.result == Err(c.result.error)
    ensures c.result.Ok? ==> (r.result.Ok? <==> c.result.value.errors == [] || cfg.force)
  {
    match c.result
    case Err(e) => Step(Err(e), c.state)
    case Ok(t) =>
      if |t.errors| > 0 then Step(Raise(cfg, ChecksumException(t.errors, t.actual, t.expected)), c.state)
      else Step(Ok(()), c.state)
  }

  /** AssertScreenCharsInRectEqual on the live session. */
  method AssertScreenCharsInRectEqual(cfg: Config, s: Session, rect: Rect, lines: seq<string>) returns (r: Result<()>)
    requires s.Valid()
    modifies s
    ensures s.Valid()
    ensures Step(r, s.State()) == ScreenCheckSpec(cfg, old(s.State()), rect, lines)
  {
    var level := AssertVTLevel(cfg, 4);
    if level.Err? {
      return Err(level.error);
    }
    if rect.Height() != |lines| {
      return Err(InternalError(HeightMismatch(rect.Height(), |lines|)));
    }
    var pts := rect.Points();
    var t := Tally([], [], [], []);
    ghost var whole := CellsSpec(cfg, s.State(), rect, lines, pts, t);
    assert ScreenCheckSpec(cfg, old(s.State()), rect, lines) == ScreenResult(cfg, whole);
    for i := 0 to |pts|
      invariant s.Valid()
      invariant CellsSpec(cfg, s.State(), rect, lines, pts[i..], t) == whole
    {
      var p := pts[i];
      assert pts[i..][0] == p && pts[i..][1..] == pts[i + 1..];
      assert p in pts && InRect(rect, p);
      var y := p.y - rect.top;
      var x := p.x - rect.left;
      if rect.Width() != |lines[y]| {
        r := Err(InternalError(WidthMismatch(rect.Width(), y, |lines[y]|)));
        assert whole == Step<Tally>.Step(Err(r.error), s.State());
        return;
      }
      var expected := lines[y][x] as int;
      ghost var before := s.State();
      var actual := GetChecksumOfRect(cfg, s, Rect(p.x, p.y, p.x, p.y));
      if actual.Err? {
        r := Err(actual.error);
        assert CellStep(cfg, before, rect, lines, p, t, PointChecksum(cfg, before, p)) == Step<Tally>.Step(Err(r.error), s.State());
        return;
      }
      var next := Record(t, p, y, expected, Normalize(cfg, expected, actual.value));
      if next.Err? {
        r := Err(next.error);
        assert CellStep(cfg, before, rect, lines, p, t, PointChecksum(cfg, before, p)) == Step<Tally>.Step(Err(r.error), s.State());
        return;
      }
      assert CellStep(cfg, before, rect, lines, p, t, PointChecksum(cfg, before, p)) == Step(Ok(next.value), s.State());
      t := next.value;
    }
    assert whole == Step(Ok(t), s.State());
    if |t.errors| > 0 {
      return Raise(cfg, ChecksumException(t.errors, t.actual, t.expected));
    }
    return Ok(());
  }

  // ---------------------------------------------------------------------
  // Properties

  /** A reply to the request's own id, "Pid!~" and hexadecimal digits,
      parses to the digits' value, in every configuration. */
  lemma ParseChecksumRoundTrip(cfg: Config, pid: nat, hex: string)
    requires |hex| > 0 && DigitsIn(hex, 16)
    ensures ParseChecksum(cfg, NatToString(pid) + "!~" + hex, pid) == Ok(ValueOf(hex, 16))
  {
    ReplySplit(NatToString(pid), hex);
    ParseHexOfDigits(hex);
  }

  lemma ReplySplit(given: string, hex: string)
    ensures var body := given + "!~" + hex;
      StartsWith(body, given) && StartsWith(body[|given|..], "!~") && Drop(body, |given| + 2) == hex
  {
    var body := given + "!~" + hex;
    assert body[..|given|] == given;
    assert body[|given|..] == "!~" + hex;
    assert body[|given| + 2..] == hex;
  }

  /** iTerm2 answers with an id of its own: its leading digits are taken as
      the id and the checksum after them is still read. */
  lemma ITerm2OwnId(cfg: Config, pid: nat, other: nat, hex: string)
    requires cfg.expectedTerminal == ITerm2 && |hex| > 0 && DigitsIn(hex, 16)
    requires !StartsWith(NatToString(other) + "!~" + hex, NatToString(pid))
    ensures ParseChecksum(cfg, NatToString(other) + "!~" + hex, pid) == Ok(ValueOf(hex, 16))
  {
    var id := NatToString(other);
    IdThenSeparator(id, hex);
    ReplySplit(id, hex);
    ParseHexOfDigits(hex);
  }

  lemma IdThenSeparator(id: string, hex: string)
    requires DigitsIn(id, 10) && DigitsIn(hex, 16)
    ensures CutAtNonDigit(id + "!~" + hex) == id
  {
    var body := id + "!~" + hex;
    assert body == id + ("!~" + hex);
    OwnDigits(id, "!~" + hex);
    assert '\n' !in body by {
      forall k | 0 <= k < |body|
        ensures body[k] != '\n'
      {
        if k < |id| { assert body[k] == id[k]; }
        else if k >= |id| + 2 { assert body[k] == hex[k - |id| - 2]; }
      }
    }
    CutWithoutNewline(body);
  }

  /** The digit prefix of digits followed by a non-digit is those digits. */
  lemma {:induction false} OwnDigits(d: string, tail: string)
    requires DigitsIn(d, 10) && |tail| > 0 && !IsDigit(tail[0])
    ensures DigitPrefix(d + tail) == d
  {
    if d != [] {
      assert IsHexDigit(d[0]) && DigitValue(d[0]) < 10;
      assert (d + tail)[1..] == d[1..] + tail;
      OwnDigits(d[1..], tail);
    } else {
      assert (d + tail)[0] == tail[0];
    }
  }

  /** Without a newline in the reply the cut leaves exactly its leading
      digits. */
  lemma CutWithoutNewline(s: string)
    requires '\n' !in s
    ensures CutAtNonDigit(s) == DigitPrefix(s)
  {
    var r := CutAtNonDigit(s);
    var d := DigitPrefix(s);
    CutAtFirstMatch(s);
    assert forall k :: 0 <= k < |s| ==> (CutMatchAt(s, k) <==> !IsDigit(s[k])) by {
      forall k | 0 <= k < |s|
        ensures CutMatchAt(s, k) <==> !IsDigit(s[k])
      {
        assert forall j :: k < j < |s| - 1 ==> s[j] != '\n' by {
          forall j | k < j < |s| - 1 ensures s[j] != '\n' { assert s[j] in s; }
        }
      }
    }
    assert |r| == |d|;
  }

  /** A reply of one line, a newline and a non-empty last line is cut at
      that newline: `.` cannot cross it, so no earlier position matches,
      and the newline itself starts the first match. */
  lemma CutAtLastLine(s: string, last: string)
    requires '\n' !in s && '\n' !in last && |last| > 0
    ensures CutAtNonDigit(s + "\n" + last) == s
  {
    var w := s + "\n" + last;
    assert w[|s|] == '\n' && |s| < |w| - 1;
    assert forall i :: 0 <= i < |s| ==> !CutMatchAt(w, i);
    assert CutMatchAt(w, |s|) by {
      forall j | |s| < j < |w| - 1 ensures w[j] != '\n' {
        assert w[j] == last[j - |s| - 1];
      }
    }
    var r := CutAtNonDigit(w);
    CutAtFirstMatch(w);
    assert |r| == |s|;
    assert w[..|s|] == s;
  }

  /** For iTerm2, a reply whose first line is the id, "!~" and the
      checksum but which goes on after a newline keeps its whole first line
      as the id: the "!~" check then fails (unless forced), and forced, the
      checksum is read from the last line, minus its first character. */
  lemma ITerm2SecondLine(cfg: Config, pid: nat, line: string, last: string)
    requires cfg.expectedTerminal == ITerm2
    requires '\n' !in line && '\n' !in last && |last| > 0
    requires !StartsWith(line + "\n" + last, NatToString(pid))
    ensures !cfg.force ==> ParseChecksum(cfg, line + "\n" + last, pid) == Err(TestFailure)
    ensures cfg.force ==> ParseChecksum(cfg, line + "\n" + last, pid) == ParseHexResult(last[1..])
  {
    var body := line + "\n" + last;
    CutAtLastLine(line, last);
    assert Drop(body, |line|) == "\n" + last;
    FirstCharDiffers("\n" + last, "!~");
    assert Drop(body, |line| + 2) == last[1..];
  }

  /** A string does not start with one whose first character it lacks. */
  lemma FirstCharDiffers(s: string, t: string)
    requires |s| > 0 && |t| > 0 && s[0] != t[0]
    ensures !StartsWith(s, t)
  {
    if |t| <= |s| {
      assert s[..|t|][0] == s[0];
    }
  }

  /** The reply "5!~1", newline, "2" (or, forced, "AB") to request 7: the
      id kept is "5!~1", more than the reply's leading digits. */
  lemma CutAcrossNewline(cfg: Config)
    requires cfg.expectedTerminal == ITerm2
    ensures CutAtNonDigit("5!~1\n2") == "5!~1" != DigitPrefix("5!~1\n2")
    ensures !cfg.force ==> ParseChecksum(cfg, "5!~1\n2", 7) == Err(TestFailure)
    ensures cfg.force ==> ParseChecksum(cfg, "5!~1\nAB", 7) == Ok(11)
  {
    NewlineCut();
    if cfg.force {
      NewlineForced(cfg);
    } else {
      NewlineFails(cfg);
    }
  }

  lemma NewlineCut()
    ensures CutAtNonDigit("5!~1\n2") == "5!~1" != DigitPrefix("5!~1\n2")
  {
    var line := "5!~1";
    assert '\n' !in line;
    assert line + "\n" + "2" == "5!~1\n2";
    CutAtLastLine(line, "2");
    assert DigitPrefix("5!~1\n2") == "5" by {
      assert "5!~1\n2"[1..] == "!~1\n2";
    }
  }

  /** Request 7's id is "7", which the reply "5!~1..." does not start with. */
  lemma NotRequestSeven(last: string)
    ensures !StartsWith("5!~1\n" + last, NatToString(7))
  {
    assert NatToString(7) == "7" by {
      assert NatToDigits(7, 10) == [DigitChar(7)];
    }
    FirstCharDiffers("5!~1\n" + last, "7");
  }

  lemma NewlineFails(cfg: Config)
    requires cfg.expectedTerminal == ITerm2 && !cfg.force
    ensures ParseChecksum(cfg, "5!~1\n2", 7) == Err(TestFailure)
  {
    var line := "5!~1";
    assert '\n' !in line;
    assert line + "\n" + "2" == "5!~1\n2";
    NotRequestSeven("2");
    ITerm2SecondLine(cfg, 7, line, "2");
  }

  lemma NewlineForced(cfg: Config)
    requires cfg.expectedTerminal == ITerm2 && cfg.force
    ensures ParseChecksum(cfg, "5!~1\nAB", 7) == Ok(11)
  {
    var line := "5!~1";
    assert '\n' !in line;
    assert line + "\n" + "AB" == "5!~1\nAB";
    NotRequestSeven("AB");
    ITerm2SecondLine(cfg, 7, line, "AB");
    assert "AB"[1..] == "B";
    HexB();
  }

  lemma HexB()
    ensures ParseHexResult("B") == Ok(11)
  {
    ParseHexOfDigits("B");
    assert ValueOf("B", 16) == 11 by {
      assert "B"[..0] == [];
    }
  }

  /** Without "!~" after the id the test fails (unless forced). */
  lemma MissingSeparatorFails(cfg: Config, pid: nat, tail: string)
    requires !cfg.force && !StartsWith(tail, "!~")
    ensures ParseChecksum(cfg, NatToString(pid) + tail, pid) == Err(TestFailure)
  {
    var given := NatToString(pid);
    var body := given + tail;
    assert body[..|given|] == given && body[|given|..] == tail;
  }

  /** Old xterm reports 0x10000 minus the sum; the checker recovers the sum,
      except that a space reported where NUL was expected counts as NUL. */
  lemma OldXtermNegates(cfg: Config, expected: int, v: int)
    requires cfg.expectedTerminal == Xterm && cfg.xtermChecksum < 279
    ensures !(expected == 0 && v == 32) ==> Normalize(cfg, expected, 0x10000 - v) == v
    ensures Normalize(cfg, 0, 0x10000 - 32) == 0
    ensures expected != 0 ==> Normalize(cfg, expected, 0x10000 - 32) == 32
  {
  }

  /** Characters sent as text: the separator and the parts are Latin-1,
      so their join is. */
  lemma {:induction false} JoinLatin1(sep: string, ss: seq<string>)
    requires Latin1(sep) && forall k :: 0 <= k < |ss| ==> Latin1(ss[k])
    ensures Latin1(Join(sep, ss))
  {
    if |ss| > 1 {
      JoinLatin1(sep, ss[1..]);
      ConcatLatin1(ss[0] + sep, Join(sep, ss[1..]));
    }
  }

  lemma ConcatLatin1(a: string, b: string)
    requires Latin1(a) && Latin1(b)
    ensures Latin1(a + b)
  {
    assert forall i :: |a| <= i < |a + b| ==> (a + b)[i] == b[i - |a|];
  }

  /** The DECRQCRA request can always be encoded: only digits, signs and
      ASCII punctuation. */
  lemma RequestLatin1(use8Bit: bool, cfg: Config, pid: nat, rect: Rect)
    requires cfg.vtLevel >= 4
    ensures Latin1(Text(use8Bit, DECRQCRA(cfg, PInt(pid), PInt(0), Some(rect)).value))
  {
    var c := DECRQCRA(cfg, PInt(pid), PInt(0), Some(rect)).value;
    DecrqcraParams(cfg, PInt(pid), PInt(0), Some(rect));
    IntFieldsLatin1(c.params);
    CsiLatin1(use8Bit, "", c.params, "*", "y");
  }

  /** Fields made of ints are Latin-1. */
  lemma IntFieldsLatin1(params: seq<Param>)
    requires forall k :: 0 <= k < |params| ==> params[k].PInt?
    ensures forall k :: 0 <= k < |params| ==> Latin1(StringifyAll(params)[k])
  {
    forall k | 0 <= k < |params|
      ensures Latin1(StringifyAll(params)[k])
    {
      IntTextLatin1(params[k].i);
    }
  }

  /** A control sequence whose prefix, fields, intermediate and final are
      Latin-1. */
  lemma CsiLatin1(use8Bit: bool, prefix: string, params: seq<Param>, intermediate: string, final: string)
    requires forall k :: 0 <= k < |params| ==> Latin1(StringifyAll(params)[k])
    requires Latin1(prefix) && Latin1(intermediate) && Latin1(final)
    ensures Latin1(CsiSequence(use8Bit, prefix, params, intermediate, final))
  {
    var fields := StringifyAll(params);
    var kept := TrimTrailingEmpty(fields);
    assert forall k :: 0 <= k < |kept| ==> kept[k] == fields[k];
    JoinLatin1(";", kept);
    SevenBitForms();
    var head := Control(use8Bit, CSI);
    assert Latin1(head);
    ConcatLatin1(head, prefix);
    ConcatLatin1(head + prefix, Join(";", kept));
    ConcatLatin1(head + prefix + Join(";", kept), intermediate);
    ConcatLatin1(head + prefix + Join(";", kept) + intermediate, final);
  }

  /** A terminal that answers the request with its id and a hexadecimal
      checksum, as the next thing it sends, gives the checker that value:
      one more id used, the request on the wire, the reply consumed. */
  lemma ChecksumReply(cfg: Config, st: SessionState, rect: Rect, hex: string, rest: string)
    requires st.Valid() && cfg.vtLevel >= 4 && st.pos == 0
    requires |hex| > 0 && DigitsIn(hex, 16)
    requires st.input == DcsSequence(st.use8Bit, NatToString(st.nextId) + "!~", hex) + rest
    ensures var request := Text(st.use8Bit, DECRQCRA(cfg, PInt(st.nextId), PInt(0), Some(rect)).value);
      ChecksumStep(cfg, st, rect) ==
        Step(Ok(ValueOf(hex, 16)), st.(nextId := st.nextId + 1, out := st.out + request,
                                        pos := |DcsSequence(st.use8Bit, NatToString(st.nextId) + "!~", hex)|))
  {
    var pid := st.nextId;
    var prefix := NatToString(pid) + "!~";
    var text := DcsSequence(st.use8Bit, prefix, hex);
    ReplyUnterminated(st.use8Bit, pid, hex);
    ReadDCSRoundTrip(st.use8Bit, prefix, hex, rest);
    ChecksumRead(cfg, st, rect, prefix + hex, |text|);
    ParseChecksumRoundTrip(cfg, pid, hex);
  }

  /** When the terminal's next DCS string is `body`, the checksum is what
      ParseChecksum makes of it, after one id and one request. */
  lemma ChecksumRead(cfg: Config, st: SessionState, rect: Rect, body: string, e: nat)
    requires st.Valid() && cfg.vtLevel >= 4
    requires ReadDCSSpec(st.use8Bit, st.input, st.pos) == Reply(Ok(body), e)
    ensures var request := Text(st.use8Bit, DECRQCRA(cfg, PInt(st.nextId), PInt(0), Some(rect)).value);
      var c := ChecksumStep(cfg, st, rect);
      c.result == ParseChecksum(cfg, body, st.nextId) &&
      c.state == st.(nextId := st.nextId + 1, out := st.out + request, pos := e)
  {
    var pid := st.nextId;
    var st1 := st.(nextId := pid + 1);
    var cmd := DECRQCRA(cfg, PInt(pid), PInt(0), Some(rect)).value;
    RequestSent(cfg, st1, pid, rect);
    var w := SendStep(st1, cmd);
    var sent := st1.(out := st1.out + Text(st.use8Bit, cmd));
    assert w.result.Ok? && w.state == sent;
    assert ReadDCSSpec(sent.use8Bit, sent.input, sent.pos) == Reply(Ok(body), e);
    var rd := Reading(sent, Reply(Ok(body), e));
    assert rd.result == Ok(body) && rd.state == sent.(pos := e);
    assert ChecksumStep(cfg, st, rect) == Step(ParseChecksum(cfg, body, pid), rd.state);
  }

  /** The request goes out whole, and only to the output. */
  lemma RequestSent(cfg: Config, st: SessionState, pid: nat, rect: Rect)
    requires cfg.vtLevel >= 4
    ensures var cmd := DECRQCRA(cfg, PInt(pid), PInt(0), Some(rect)).value;
      SendStep(st, cmd) == Step(Ok(()), st.(out := st.out + Text(st.use8Bit, cmd)))
  {
    RequestLatin1(st.use8Bit, cfg, pid, rect);
  }

  /** The reply body holds no string terminator. */
  lemma ReplyUnterminated(use8Bit: bool, pid: nat, hex: string)
    requires DigitsIn(hex, 16)
    ensures Unterminated(NatToString(pid) + "!~" + hex, Control(use8Bit, ST))
  {
    var body := NatToString(pid) + "!~" + hex;
    var d := NatToString(pid);
    assert forall k :: 0 <= k < |body| ==> IsHexDigit(body[k]) || body[k] == '!' || body[k] == '~' by {
      forall k | 0 <= k < |body|
        ensures IsHexDigit(body[k]) || body[k] == '!' || body[k] == '~'
      {
        if k < |d| { assert body[k] == d[k]; }
        else if k >= |d| + 2 { assert body[k] == hex[k - |d| - 2]; }
      }
    }
    SevenBitForms();
    UnterminatedWithoutLead(body, Control(use8Bit, ST));
  }

  /** Each checked cell uses one request id. */
  lemma {:induction false} CellsIds(cfg: Config, st: SessionState, rect: Rect, lines: seq<string>, pts: seq<Point>, t: Tally)
    requires st.Valid() && |lines| == rect.Height()
    requires forall p :: p in pts ==> InRect(rect, p)
    ensures var c := CellsSpec(cfg, st, rect, lines, pts, t);
      c.result.Ok? ==> c.state.nextId == st.nextId + |pts|
    decreases |pts|
  {
    if pts != [] {
      assert pts[0] in pts;
      var c := CellStep(cfg, st, rect, lines, pts[0], t, PointChecksum(cfg, st, pts[0]));
      if c.result.Ok? {
        assert forall q :: q in pts[1..] ==> q in pts;
        CellsIds(cfg, c.state, rect, lines, pts[1..], c.result.value);
      }
    }
  }

  /** Where the cells are. */
  function PointsOf(cells: seq<Cell>): (r: seq<Point>)
    ensures |r| == |cells| && forall k :: 0 <= k < |cells| ==> r[k] == cells[k].point
  {
    seq(|cells|, k requires 0 <= k < |cells| => cells[k].point)
  }

  /** The cells seen are the points, in order, after those seen before. */
  lemma {:induction false} CellsSeen(cfg: Config, st: SessionState, rect: Rect, lines: seq<string>, pts: seq<Point>, t: Tally)
    requires st.Valid() && |lines| == rect.Height()
    requires forall p :: p in pts ==> InRect(rect, p)
    ensures var c := CellsSpec(cfg, st, rect, lines, pts, t);
      c.result.Ok? ==> PointsOf(c.result.value.seen) == PointsOf(t.seen) + pts
    decreases |pts|
  {
    if pts != [] {
      assert pts[0] in pts;
      var c := CellStep(cfg, st, rect, lines, pts[0], t, PointChecksum(cfg, st, pts[0]));
      if c.result.Ok? {
        var next := c.result.value;
        PointsOfSnoc(t.seen, next.seen[|t.seen|]);
        assert forall q :: q in pts[1..] ==> q in pts;
        CellsSeen(cfg, c.state, rect, lines, pts[1..], next);
        PointsRegroup(PointsOf(t.seen), pts);
      }
    }
  }

  lemma PointsOfSnoc(cells: seq<Cell>, c: Cell)
    ensures PointsOf(cells + [c]) == PointsOf(cells) + [c.point]
  {
  }

  lemma PointsRegroup(a: seq<Point>, pts: seq<Point>)
    requires pts != []
    ensures a + [pts[0]] + pts[1..] == a + pts
  {
    assert [pts[0]] + pts[1..] == pts;
  }

  /** Every cell the loop records holds the expected line's character at
      its point, on a line as wide as the rectangle. */
  lemma {:induction false} CellsExpected(cfg: Config, st: SessionState, rect: Rect, lines: seq<string>, pts: seq<Point>, t: Tally)
    requires st.Valid() && |lines| == rect.Height()
    requires forall p :: p in pts ==> InRect(rect, p)
    requires forall k :: 0 <= k < |t.seen| ==> ExpectedAt(rect, lines, t.seen[k])
    ensures var c := CellsSpec(cfg, st, rect, lines, pts, t);
      c.result.Ok? ==> forall k :: 0 <= k < |c.result.value.seen| ==> ExpectedAt(rect, lines, c.result.value.seen[k])
    decreases |pts|
  {
    if pts != [] {
      assert pts[0] in pts;
      var c := CellStep(cfg, st, rect, lines, pts[0], t, PointChecksum(cfg, st, pts[0]));
      if c.result.Ok? {
        var next := c.result.value;
        CellRecorded(cfg, st, rect, lines, pts[0], t, PointChecksum(cfg, st, pts[0]));
        assert next.seen == t.seen + [next.seen[|t.seen|]];
        assert forall q :: q in pts[1..] ==> q in pts;
        CellsExpected(cfg, c.state, rect, lines, pts[1..], next);
      }
    }
  }

  /** The errors gathered are exactly the mismatching cells seen. */
  lemma {:induction false} CellsErrors(cfg: Config, st: SessionState, rect: Rect, lines: seq<string>, pts: seq<Point>, t: Tally)
    requires st.Valid() && |lines| == rect.Height()
    requires forall p :: p in pts ==> InRect(rect, p)
    requires t.errors == Mismatches(t.seen)
    ensures var c := CellsSpec(cfg, st, rect, lines, pts, t);
      c.result.Ok? ==> c.result.value.errors == Mismatches(c.result.value.seen)
    decreases |pts|
  {
    if pts != [] {
      assert pts[0] in pts;
      var c := CellStep(cfg, st, rect, lines, pts[0], t, PointChecksum(cfg, st, pts[0]));
      if c.result.Ok? {
        var next := c.result.value;
        MismatchesSnoc(t.seen, next.seen[|t.seen|]);
        assert forall q :: q in pts[1..] ==> q in pts;
        CellsErrors(cfg, c.state, rect, lines, pts[1..], next);
      }
    }
  }

  lemma MismatchesSnoc(cells: seq<Cell>, c: Cell)
    ensures Mismatches(cells + [c]) == Mismatches(cells) + (if c.expected != c.actual then [c] else [])
  {
    assert (cells + [c])[..|cells|] == cells;
  }

  /** The verdict: with enough VT level and lines, once every cell has been
      read, the check passes exactly when no cell mismatched (or when
      forced), and otherwise raises a ChecksumException with the
      mismatching cells. Each cell cost one request id, and each holds the
      expected line's character at its point. */
  lemma ScreenVerdict(cfg: Config, st: SessionState, rect: Rect, lines: seq<string>)
    requires st.Valid() && cfg.vtLevel >= 4 && |lines| == rect.Height()
    ensures var c := CellsSpec(cfg, st, rect, lines, rect.Points(), Tally([], [], [], []));
      var r := ScreenCheckSpec(cfg, st, rect, lines);
      c.result.Ok? ==>
        && r.state.nextId == st.nextId + |rect.Points()|
        && PointsOf(c.result.value.seen) == rect.Points()
        && (r.result.Ok? <==> cfg.force || forall k :: 0 <= k < |c.result.value.seen| ==> c.result.value.seen[k].expected == c.result.value.seen[k].actual)
        && (r.result.Err? ==> r.result.error.ChecksumException? && r.result.error.errors == Mismatches(c.result.value.seen))
        && (forall k :: 0 <= k < |c.result.value.seen| ==> ExpectedAt(rect, lines, c.result.value.seen[k]))
  {
    var t0 := Tally([], [], [], []);
    var pts := rect.Points();
    var c := CellsSpec(cfg, st, rect, lines, pts, t0);
    var r := ScreenCheckSpec(cfg, st, rect, lines);
    assert r == ScreenResult(cfg, c);
    if c.result.Ok? {
      var seen := c.result.value.seen;
      CellsIds(cfg, st, rect, lines, pts, t0);
      assert r.state.nextId == st.nextId + |pts|;
      CellsSeen(cfg, st, rect, lines, pts, t0);
      assert PointsOf([]) + pts == pts;
      assert PointsOf(seen) == pts;
      CellsErrors(cfg, st, rect, lines, pts, t0);
      TallyVerdict(cfg, c);
      CellsExpected(cfg, st, rect, lines, pts, t0);
    }
  }

  /** A tally whose errors are exactly its mismatches passes exactly when
      every cell matched (or when forced). */
  lemma TallyVerdict(cfg: Config, c: Step<Tally>)
    requires c.result.Ok? && c.result.value.errors == Mismatches(c.result.value.seen)
    ensures var seen := c.result.value.seen;
      var r := ScreenResult(cfg, c);
      && (r.result.Ok? <==> cfg.force || forall k :: 0 <= k < |seen| ==> seen[k].expected == seen[k].actual)
      && (r.result.Err? ==> r.result.error.ChecksumException? && r.result.error.errors == Mismatches(seen))
  {
  }
}
